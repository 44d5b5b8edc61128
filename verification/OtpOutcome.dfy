/** What issuing and verifying store, row by row and column by column. */
module OtpOutcome {
  import opened Schema
  import opened RateLimits
  import opened OtpCodes

  predicate Pending(c: Code, value: string, p: Purpose, now: Time) {
    c.identifier == value && c.purpose == p && c.consumedAt == None && now < c.expiresAt
  }

  function ConsumedAt(c: Code, now: Time): Code {
    Code(c.identifier, c.purpose, c.hash, c.customer, c.attempts, c.maxAttempts, c.expiresAt, Some(now))
  }

  /** The pending codes of the key are consumed now, the new one has no attempts yet, and no other row changes. */
  lemma IssueStores(codes: seq<Code>, i: Identifier, p: Purpose, customer: Option<Id>, code: string, now: Time,
    ttl: Time, maxAttempts: int)
    ensures var n, codes' := |codes|, Issued(codes, i, p, customer, code, now, ttl, maxAttempts);
      && |codes'| == n + 1
      && codes'[n] == Code(i.value, p, Message(i, p, code), customer, 0, maxAttempts, now + ttl, None)
      && forall k :: 0 <= k < n ==>
           codes'[k] == if Pending(codes[k], i.value, p, now) then ConsumedAt(codes[k], now) else codes[k]
  {}

  /** `n` is the pending code of the key issued last. */
  ghost predicate IsLatest(codes: seq<Code>, value: string, p: Purpose, now: Time, n: nat) {
    && n < |codes| && Pending(codes[n], value, p, now)
    && forall k :: n < k < |codes| ==> !Pending(codes[k], value, p, now)
  }

  lemma LatestIsFound(codes: seq<Code>, value: string, p: Purpose, now: Time, n: nat)
    ensures NewestUsable(codes, value, p, now) == Some(n) <==> IsLatest(codes, value, p, now, n)
  {
    NewestIsUsable(codes, value, p, now);
  }

  /** Nothing is pending: refused, and nothing changes. */
  lemma NothingPending(codes: seq<Code>, i: Identifier, p: Purpose, code: string, now: Time)
    requires forall k :: 0 <= k < |codes| ==> !Pending(codes[k], i.value, p, now)
    ensures var e := VerifyEvent(codes, i, p, code, now);
      Verdict(codes, e) == Err(Unauthorized) && AfterEvent(codes, e, now) == codes
  {
    NewestIsUsable(codes, i.value, p, now);
  }

  /**
   * The latest pending code: the right one is accepted, with its customer, and consumed; a wrong one costs an attempt,
   * and the last attempt consumes; one without attempts left is consumed unseen. No other row changes.
   */
  lemma VerifyStores(codes: seq<Code>, i: Identifier, p: Purpose, code: string, now: Time, n: nat)
    requires IsLatest(codes, i.value, p, now, n)
    ensures var c, e := codes[n], VerifyEvent(codes, i, p, code, now);
      var (answer, stored) := (Verdict(codes, e), AfterEvent(codes, e, now));
      && |stored| == |codes| && (forall k :: 0 <= k < |codes| && k != n ==> stored[k] == codes[k])
      && if c.maxAttempts <= c.attempts then answer == Err(Unauthorized) && stored[n] == ConsumedAt(c, now)
      else if c.hash == Message(i, p, code) then answer == Ok(c.customer) && stored[n] == ConsumedAt(c, now)
      else
        && answer == Err(Unauthorized)
        && stored[n] == Code(c.identifier, c.purpose, c.hash, c.customer, c.attempts + 1, c.maxAttempts, c.expiresAt,
             if c.attempts + 1 >= c.maxAttempts then Some(now) else None)
  {
    LatestIsFound(codes, i.value, p, now, n);
  }

  /** A merge renames the source and changes nothing else. */
  lemma MergeRenames(st: State, s: Id, t: Id, now: Time, k: nat)
    requires k < |st.codes|
    ensures var c, st' := st.codes[k], Apply(st, Merge(s, t, now));
      && |st'.codes| == |st.codes| && st'.clock == now
      && st'.codes[k] == if c.customer == Some(s)
           then Code(c.identifier, c.purpose, c.hash, Some(t), c.attempts, c.maxAttempts, c.expiresAt, c.consumedAt)
           else c
  {}
}

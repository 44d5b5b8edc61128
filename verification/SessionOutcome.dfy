/** What each request does to every session, column by column, and to the customers' statuses. */
module SessionOutcome {
  import opened Schema
  import opened RefreshTokens

  /** The live sessions in `ended` end at `now`; no other column and no other session changes. */
  ghost predicate Ends(tokens: seq<Token>, ended: set<nat>, now: Time, tokens': seq<Token>) {
    && |tokens'| == |tokens|
    && forall i :: 0 <= i < |tokens| ==>
         var t := tokens[i];
         tokens'[i] == if i in ended && t.revokedAt == None
           then Token(t.hash, t.customer, t.family, t.expiresAt, Some(now), t.replacedBy) else t
  }

  /** Logging out ends the session presented and no other. */
  lemma LogoutEndsOne(s: Sessions, hash: string, now: Time)
    ensures var s', one := Apply(s, Logout(hash, now)), set i: nat | i < |s.tokens| && s.tokens[i].hash == hash;
      Ends(s.tokens, one, now, s'.tokens) && s'.status == s.status && s'.nextFamily == s.nextFamily
  {}

  lemma LogoutEverywhereEndsAll(s: Sessions, c: Id, now: Time)
    ensures var s', own := Apply(s, LogoutEverywhere(c, now)), set i: nat | i < |s.tokens| && s.tokens[i].customer == c;
      Ends(s.tokens, own, now, s'.tokens) && s'.status == s.status && s'.nextFamily == s.nextFamily
  {}

  /** An administrator ends one session, and only of the customer named. */
  lemma RevokingEndsOne(s: Sessions, c: Id, k: nat, now: Time)
    ensures var s' := Apply(s, RevokeSession(c, k, now));
      var one := set i: nat | i < |s.tokens| && i == k && s.tokens[i].customer == c;
      Ends(s.tokens, one, now, s'.tokens) && s'.status == s.status && s'.nextFamily == s.nextFamily
  {}

  /** Blocking and merging end the sessions of the customer whose status they change; unblocking revives none. */
  lemma StatusRequests(s: Sessions, step: Step, c: Id, now: Time)
    requires step == Block(c, now) || step == Merge(c, now) || step == Unblock(c) || step == Activate(c)
    ensures var s' := Apply(s, step);
      var before := if c in s.status then Some(s.status[c]) else None;
      var own := set i: nat | i < |s.tokens| && s.tokens[i].customer == c;
      var changes :=
        if step.Block? then before in {Some(Imported), Some(Active)}
        else if step.Merge? then before in {Some(Imported), Some(Active), Some(Blocked)}
        else if step.Unblock? then before == Some(Blocked)
        else before in {None, Some(Imported)};
      && s'.nextFamily == s.nextFamily
      && Ends(s.tokens, if changes && (step.Block? || step.Merge?) then own else {}, now, s'.tokens)
      && (!changes ==> s'.status == s.status)
      && (changes ==> s'.status == s.status[c :=
           if step.Block? then Blocked else if step.Merge? then Merged else Active])
  {}

  /** A login adds one session, of a family of its own, for the time given; a hash in use is refused. */
  lemma LoginOutcome(s: Sessions, c: Id, hash: string, now: Time, ttl: Time)
    ensures var s' := Apply(s, Login(c, hash, now, ttl));
      if exists i :: 0 <= i < |s.tokens| && s.tokens[i].hash == hash then s' == s
      else
        && s'.tokens == s.tokens + [Token(hash, c, s.nextFamily, now + ttl, None, None)]
        && s'.nextFamily == s.nextFamily + 1 && s'.status == s.status
  {
    if i :| 0 <= i < |s.tokens| && s.tokens[i].hash == hash { assert Find(s.tokens, hash).Some?; }
  }

  /** A token nobody was given rotates into nothing. */
  lemma UnknownIsRefused(s: Sessions, hash: string, newHash: string, now: Time, ttl: Time)
    requires forall i :: 0 <= i < |s.tokens| ==> s.tokens[i].hash != hash
    ensures Rotated(s, hash, newHash, now, ttl) == (s.tokens, Err(Unauthorized))
  {}

  /** A revoked token ends its family now; one that expired, or whose customer is not active, changes nothing. */
  lemma RotationRefused(s: Sessions, i: nat, newHash: string, now: Time, ttl: Time)
    requires Valid(s) && i < |s.tokens|
    ensures var t := s.tokens[i]; var (tokens', r) := Rotated(s, t.hash, newHash, now, ttl);
      var family := set j: nat | j < |s.tokens| && s.tokens[j].family == t.family;
      && (t.revokedAt.Some? ==> r == Err(Unauthorized) && Ends(s.tokens, family, now, tokens'))
      && (t.revokedAt.None? && (t.expiresAt <= now || !(t.customer in s.status && s.status[t.customer] == Active)) ==>
           r == Err(Unauthorized) && tokens' == s.tokens)
  {
    FindIs(s, i);
  }

  /**
   * Any other is replaced: it is revoked now and points to the new token, which belongs to the same customer and family
   * and lives for the time given. Nothing else changes; a hash in use is refused.
   */
  lemma RotationOutcome(s: Sessions, i: nat, newHash: string, now: Time, ttl: Time)
    requires Valid(s) && i < |s.tokens| && s.tokens[i].revokedAt.None? && now < s.tokens[i].expiresAt
    requires s.tokens[i].customer in s.status && s.status[s.tokens[i].customer] == Active
    ensures var t, n := s.tokens[i], |s.tokens|; var (tokens', r) := Rotated(s, t.hash, newHash, now, ttl);
      if exists j :: 0 <= j < n && s.tokens[j].hash == newHash then r == Err(Internal) && tokens' == s.tokens
      else
        && r == Ok(()) && |tokens'| == n + 1
        && tokens'[n] == Token(newHash, t.customer, t.family, now + ttl, None, None)
        && tokens'[i] == Token(t.hash, t.customer, t.family, t.expiresAt, Some(now), Some(n))
        && forall j :: 0 <= j < n && j != i ==> tokens'[j] == s.tokens[j]
  {
    FindIs(s, i);
    if j :| 0 <= j < |s.tokens| && s.tokens[j].hash == newHash { FindIs(s, j); }
  }

  /** A run is its requests one after the other. */
  lemma {:induction false} RunAdvances(s: Sessions, steps: seq<Step>, step: Step)
    ensures Run(s, steps + [step]) == Apply(Run(s, steps), step) && Run(s, []) == s
    decreases |steps|
  {
    if steps == [] {
      assert Run(s, [] + [step]) == Run(Apply(s, step), []);
    } else {
      assert (steps + [step])[1..] == steps[1..] + [step];
      RunAdvances(Apply(s, steps[0]), steps[1..], step);
    }
  }
}

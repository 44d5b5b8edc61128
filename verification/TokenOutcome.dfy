/** What every step of the token cache stores: the fields of the service, the key in Redis, and who is answered. */
module TokenOutcome {
  import opened Schema
  import opened TokenCache

  /**
   * When an entry made now for a token granted for so many seconds
   * expires: five minutes early, but a minute at least.
   */
  predicate ExpiresEarly(c: Cache, seconds: int, now: Time) {
    c.expiresAt == now + 1000 * (if seconds - 300 >= 60 then seconds - 300 else 60)
  }

  /**
   * A caller new to the service is answered from a memory entry that is
   * alive, else joins the load that runs, else starts one.
   */
  lemma CallerIsServed(st: State, caller: nat, now: Time)
    requires caller !in st.joined && caller !in st.answers
    ensures var st' := Apply(st, GetToken(caller, now));
      && st'.memory == st.memory && st'.redis == st.redis && st'.results == st.results && st'.issued == st.issued
      && st'.clock == now
      && if st.memory.Some? && now < st.memory.value.expiresAt
      then
        && st'.answers == st.answers[caller := FromMemory(st.memory.value.token)]
        && st'.joined == st.joined && st'.loads == st.loads && st'.inflight == st.inflight
        && st'.nextLoad == st.nextLoad
      else
        && st'.answers == st.answers && st'.joined.Keys == st.joined.Keys + {caller}
        && (forall c :: c in st.joined ==> st'.joined[c] == st.joined[c])
        && st'.inflight == Some(st'.joined[caller])
        && if st.inflight.Some? then st'.inflight == st.inflight && st'.loads == st.loads && st'.nextLoad == st.nextLoad
        else
          && st'.joined[caller] == st.nextLoad && st'.nextLoad == st.nextLoad + 1
          && st'.loads == st.loads[st.nextLoad := AwaitGet]
  {}

  /** The load of number `load` runs and stands at `phase`. */
  predicate Stands(st: State, load: nat, phase: Phase) {
    st.inflight == Some(load) && load in st.loads && st.loads[load] == phase
  }

  /** Only the load's own place changes: nobody is answered, and what is cached stays. */
  predicate MovesOn(st: State, load: nat, phase: Phase, now: Time, st': State) {
    st' == st.(loads := st.loads[load := phase], clock := now)
  }

  /** The load is over: its promise is gone, and just those who joined it get its result. */
  ghost predicate EndsWith(st: State, load: nat, result: Option<Id>, now: Time, st': State) {
    && st'.inflight == None && st'.loads.Keys == st.loads.Keys - {load}
    && (forall l :: l in st'.loads ==> st'.loads[l] == st.loads[l])
    && st'.results == st.results[load := result]
    && st'.joined == st.joined && st'.nextLoad == st.nextLoad && st'.issued == st.issued && st'.clock == now
    && (forall c :: c in st'.answers <==> c in st.answers || (c in st.joined && st.joined[c] == load))
    && (forall c :: c in st'.answers ==>
         st'.answers[c] ==
           if c in st.joined && st.joined[c] == load
           then match result { case None => Failed case Some(token) => FromLoad(token) }
           else st.answers[c])
  }

  /** A key that is alive gives its token, and the load asks for the rest of its life; else it asks Shopify. */
  lemma GetIsAnswered(st: State, load: nat, now: Time)
    requires Stands(st, load, AwaitGet)
    ensures var phase :=
        if st.redis.Some? && now < st.redis.value.expiresAt then AwaitTtl(st.redis.value.token) else AwaitFetch;
      MovesOn(st, load, phase, now, Apply(st, GetAnswered(now)))
  {}

  /** Memory then holds the token for what is left of the key, rounded to whole seconds; a key gone leaves nothing. */
  lemma TtlIsAnswered(st: State, load: nat, token: Id, now: Time)
    requires Stands(st, load, AwaitTtl(token))
    ensures var st' := Apply(st, TtlAnswered(now));
      && EndsWith(st, load, Some(token), now, st') && st'.redis == st.redis
      && st'.memory.Some? && st'.memory.value.token == token
      && var left := st'.memory.value.expiresAt - now;
      && left % 1000 == 0
      && if st.redis.Some? && now < st.redis.value.expiresAt
         then -500 < left - (st.redis.value.expiresAt - now) <= 500 else left == 0
  {}

  /** The grant is noted with its real end, which is never cached. */
  lemma FetchIsAnswered(st: State, load: nat, token: Id, seconds: int, now: Time)
    requires Stands(st, load, AwaitFetch)
    ensures var st' := Apply(st, FetchAnswered(token, seconds, now));
      MovesOn(st.(issued := st.issued[token := Grant(seconds, now + 1000 * seconds)]), load, AwaitSet(token, now),
        now, st')
  {}

  /** The key and memory hold the token until five minutes before its end, counted from now, or for a minute. */
  lemma SetIsAnswered(st: State, load: nat, token: Id, grantedAt: Time, now: Time)
    requires Stands(st, load, AwaitSet(token, grantedAt)) && token in st.issued
    ensures var st' := Apply(st, SetAnswered(now));
      && EndsWith(st, load, Some(token), now, st')
      && st'.memory.Some? && st'.memory == st'.redis && st'.memory.value.token == token
      && ExpiresEarly(st'.memory.value, st.issued[token].seconds, now)
  {}

  /** A load that fails leaves what is cached, and fails those who joined it. */
  lemma FailureIsShared(st: State, load: nat, phase: Phase, now: Time)
    requires Stands(st, load, phase)
    ensures var st' := Apply(st, LoadFails(now));
      EndsWith(st, load, None, now, st') && st'.redis == st.redis && st'.memory == st.memory
  {}

  /** The two halves of `invalidate`, and another instance's grant in the shared key. */
  lemma OtherWrites(st: State, token: Id, seconds: int, grantedAt: Time, now: Time)
    ensures Apply(st, InvalidateMemory(now)) == st.(memory := None, clock := now)
    ensures Apply(st, InvalidateRedis(now)) == st.(redis := None, clock := now)
    ensures var st' := Apply(st, OutsideSet(token, seconds, grantedAt, now));
      && st'.redis.Some? && st'.redis.value.token == token && ExpiresEarly(st'.redis.value, seconds, now)
      && st' == st.(redis := st'.redis, clock := now,
                    issued := st.issued[token := Grant(seconds, grantedAt + 1000 * seconds)])
  {}
}

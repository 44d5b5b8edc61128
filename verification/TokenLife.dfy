/**
 * How long the tokens served from memory still live: the margin the cache keeps, and what it takes to lose it.
 */
module TokenLife {
  import opened Schema
  import opened TokenCache

  // ---------------------------------------------------------------- life left in a token from memory

  /** What the TTL leaves of a token's life: the margin, or less for a token too short-lived for it. */
  function Margin(g: Grant): Time {
    Min(REFRESH_MARGIN, g.seconds - MIN_TTL) * SECOND
  }

  /** Rounding of the Redis TTL to whole seconds. */
  const ROUNDING: Time := 500

  /** An entry that expires at `end` does so the margin before the token, but for `slack`. */
  predicate KeepsMargin(g: Grant, end: Time, slack: Time) {
    end + Margin(g) <= g.realExpiry + slack
  }

  predicate Safe(st: State, c: Cache, slack: Time) {
    c.token in st.issued && KeepsMargin(st.issued[c.token], c.expiresAt, slack)
  }

  predicate AwaitsTtl(st: State) {
    st.inflight.Some? && st.inflight.value in st.loads && st.loads[st.inflight.value].AwaitTtl?
  }

  predicate AwaitsSet(st: State) {
    st.inflight.Some? && st.inflight.value in st.loads && st.loads[st.inflight.value].AwaitSet?
  }

  /** Between this instance's GET and TTL another one may replace the key, if it lives no longer than the token read. */
  predicate Harmless(st: State, step: Step, lag: Time)
    requires step.OutsideSet?
  {
    AwaitsTtl(st) ==>
      var token := st.loads[st.inflight.value].token;
      token in st.issued && KeepsMargin(st.issued[token], step.now + Ttl(step.expiresIn) * SECOND, lag)
  }

  /** A granted token reaches Redis within `lag`, and no replacement of the key does harm. */
  predicate Prompt(st: State, step: Step, lag: Time) {
    && (step.SetAnswered? && AwaitsSet(st) ==> step.now - st.loads[st.inflight.value].grantedAt <= lag)
    && (step.OutsideSet? ==> step.now - step.grantedAt <= lag && Harmless(st, step, lag))
  }

  ghost predicate AllPrompt(st: State, steps: seq<Step>, lag: Time)
    decreases |steps|
  {
    steps == [] || (Prompt(st, steps[0], lag) && AllPrompt(Apply(st, steps[0]), steps[1..], lag))
  }

  ghost predicate Margins(st: State, lag: Time) {
    && (st.redis.Some? ==> Safe(st, st.redis.value, lag))
    && (Alive(st.memory, st.clock) ==> Safe(st, st.memory.value, lag + ROUNDING))
    && (forall token :: Awaits(st, AwaitTtl(token)) && st.redis.Some? ==>
         Safe(st, Cache(token, st.redis.value.expiresAt), lag))
    && (forall token, at :: Awaits(st, AwaitSet(token, at)) ==>
         token in st.issued && st.issued[token].realExpiry == at + st.issued[token].seconds * SECOND)
  }

  lemma TtlRoundsWithin(c: Option<Cache>, now: Time)
    requires Alive(c, now)
    ensures now + RedisTtl(c, now) * SECOND <= c.value.expiresAt + ROUNDING
  {}

  lemma StoredIsSafe(st: State, token: Id, at: Time, now: Time, lag: Time)
    requires token in st.issued && st.issued[token].realExpiry == at + st.issued[token].seconds * SECOND
    requires now - at <= lag
    ensures Safe(st, Stored(st, token, now), lag)
  {}

  lemma ResumeKeepsMargins(st: State, step: Step, lag: Time)
    requires OneLoad(st) && Margins(st, lag) && st.clock == step.now && Prompt(st, step, lag) && lag >= 0
    requires st.inflight.Some? && (step.FetchAnswered? ==> step.token !in st.issued)
    ensures Margins(Resumed(st, st.inflight.value, st.loads[st.inflight.value], step), lag)
  {
    var load := st.inflight.value;
    var phase := st.loads[load];
    assert Awaits(st, phase);
    if step.TtlAnswered? && phase.AwaitTtl? && Alive(st.redis, step.now) {
      TtlRoundsWithin(st.redis, step.now);
    } else if step.SetAnswered? && phase.AwaitSet? {
      StoredIsSafe(st, phase.token, phase.grantedAt, step.now, lag);
    }
  }

  lemma LaterKeepsMargins(st: State, now: Time, lag: Time)
    requires Margins(st, lag) && st.clock <= now
    ensures Margins(st.(clock := now), lag)
  {
    var st' := st.(clock := now);
    assert forall phase :: Awaits(st', phase) <==> Awaits(st, phase);
  }

  lemma OutsideKeepsMargins(st: State, step: Step, lag: Time)
    requires Margins(st, lag) && step.OutsideSet? && Allowed(st, step) && Prompt(st, step, lag)
    ensures Margins(Apply(st, step), lag)
  {
    var st' := Apply(st, step);
    assert forall phase :: Awaits(st', phase) <==> Awaits(st, phase);
    forall token | Awaits(st', AwaitTtl(token)) ensures Safe(st', Cache(token, st'.redis.value.expiresAt), lag) {
      assert Awaits(st, AwaitTtl(token)) && AwaitsTtl(st);
    }
  }

  lemma StepKeepsMargins(st: State, step: Step, lag: Time)
    requires OneLoad(st) && Margins(st, lag) && Allowed(st, step) && Prompt(st, step, lag) && lag >= 0
    ensures Margins(Apply(st, step), lag)
  {
    if step.OutsideSet? { OutsideKeepsMargins(st, step, lag); }
    else if step.GetToken? { CallKeepsMargins(st, step, lag); }
    else {
      LaterKeepsMargins(st, step.now, lag);
      if !Outside(step) && st.inflight.Some? { ResumeKeepsMargins(st.(clock := step.now), step, lag); }
    }
  }

  lemma CallKeepsMargins(st: State, step: Step, lag: Time)
    requires OneLoad(st) && Margins(st, lag) && Allowed(st, step) && step.GetToken?
    ensures Margins(Apply(st, step), lag)
  {
    var st', st1 := Apply(st, step), st.(clock := step.now);
    LaterKeepsMargins(st, step.now, lag);
    forall phase | Awaits(st', phase) ensures phase == AwaitGet || Awaits(st1, phase) {}
  }

  lemma {:induction false} RunKeepsMargins(st: State, steps: seq<Step>, lag: Time)
    requires Valid(st) && Margins(st, lag) && AllAllowed(st, steps) && AllPrompt(st, steps, lag) && lag >= 0
    ensures Margins(Run(st, steps), lag)
    decreases |steps|
  {
    if steps != [] {
      StepKeepsValid(st, steps[0]);
      StepKeepsMargins(st, steps[0], lag);
      RunKeepsMargins(Apply(st, steps[0]), steps[1..], lag);
    }
  }

  /**
   * Under every such interleaving a token served from memory has the margin left, less the time a grant took to reach
   * Redis and the rounding of the TTL: at least 300 seconds less these whenever it was granted for 360 or more.
   */
  lemma MemoryTokenHasMargin(steps: seq<Step>, lag: Time, now: Time)
    requires AllAllowed(START, steps) && AllPrompt(START, steps, lag) && lag >= 0
    requires Run(START, steps).clock <= now && Alive(Run(START, steps).memory, now)
    ensures var st := Run(START, steps); var token := st.memory.value.token;
      && token in st.issued
      && st.issued[token].realExpiry - now > Margin(st.issued[token]) - lag - ROUNDING
      && (st.issued[token].seconds >= 360 ==> st.issued[token].realExpiry - now > 300 * SECOND - lag - ROUNDING)
  {
    RunKeepsMargins(START, steps, lag);
  }

  lemma RunUnfolds(st: State, step: Step, rest: seq<Step>, st': State)
    requires Apply(st, step) == st'
    ensures Run(st, [step] + rest) == Run(st', rest)
    ensures Allowed(st, step) && AllAllowed(st', rest) ==> AllAllowed(st, [step] + rest)
  {
    assert ([step] + rest)[1..] == rest;
  }

  /** The state in which a load has read a token, granted for `seconds` at time 0, and awaits the TTL of its key. */
  function ReadToken(seconds: int, now: Time): State {
    State(None, Some(0), Some(Cache(1, Ttl(seconds) * SECOND)), map[0 := AwaitTtl(1)], 1,
          map[1 := 0], map[], map[], map[1 := Grant(seconds, seconds * SECOND)], now)
  }

  lemma TokenRead(seconds: int, now: Time, rest: seq<Step>)
    requires 0 <= now < Ttl(seconds) * SECOND
    ensures var steps := [OutsideSet(1, seconds, 0, 0)] + ([GetToken(1, now)] + ([GetAnswered(now)] + rest));
      && Run(START, steps) == Run(ReadToken(seconds, now), rest)
      && (AllAllowed(ReadToken(seconds, now), rest) ==> AllAllowed(START, steps))
  {
    var s1 := START.(redis := Some(Cache(1, Ttl(seconds) * SECOND)),
      issued := map[1 := Grant(seconds, seconds * SECOND)]);
    var s2 := s1.(loads := map[0 := AwaitGet], inflight := Some(0), joined := map[1 := 0], nextLoad := 1, clock := now);
    RunUnfolds(START, OutsideSet(1, seconds, 0, 0), [GetToken(1, now)] + ([GetAnswered(now)] + rest), s1);
    RunUnfolds(s1, GetToken(1, now), [GetAnswered(now)] + rest, s2);
    assert s2.loads[0 := AwaitTtl(1)] == map[0 := AwaitTtl(1)];
    RunUnfolds(s2, GetAnswered(now), rest, ReadToken(seconds, now));
  }

  // ---------------------------------------------------------------- when the two reads disagree

  /** Where an entry ends that is made at `now` from a whole-second TTL of a key ending at `end`. */
  function RoundedEnd(end: Time, now: Time): Time {
    now + (end - now + ROUNDING) / SECOND * SECOND
  }

  /** At some moment the memory entry is served though its token is dead. */
  ghost predicate ServesDead(st: State, token: Id, now: Time)
    requires token in st.issued
  {
    exists later :: now <= later && Alive(st.memory, later) && st.memory.value.token == token
      && st.issued[token].realExpiry <= later
  }

  /** Whenever the memory entry is served, its token has more than the margin left, but for `slack`. */
  ghost predicate ServesWithMargin(st: State, token: Id, now: Time, slack: Time)
    requires token in st.issued
  {
    forall later :: now <= later && Alive(st.memory, later) && st.memory.value.token == token ==>
      st.issued[token].realExpiry - later > Margin(st.issued[token]) - slack
  }

  /**
   * The TTL is read apart from the token. What is served afterwards is dead at some moment if and only if the key,
   * whatever it holds by then, ends by rounding after both the present and the token's real expiry; and it keeps the
   * margin if and only if the rounded end does.
   */
  lemma TtlServesDeadIff(st: State, token: Id, now: Time, slack: Time)
    requires Valid(st) && Awaits(st, AwaitTtl(token)) && token in st.issued
    ensures var st', g := Apply(st, TtlAnswered(now)), st.issued[token];
      && st'.issued == st.issued
      && (ServesDead(st', token, now) <==>
           Alive(st.redis, now) && RoundedEnd(st.redis.value.expiresAt, now) > Max(now, g.realExpiry))
      && (ServesWithMargin(st', token, now, slack) <==>
           (Alive(st.redis, now) && RoundedEnd(st.redis.value.expiresAt, now) > now ==>
             KeepsMargin(g, RoundedEnd(st.redis.value.expiresAt, now), slack)))
  {
    var st' := Apply(st, TtlAnswered(now));
    var end, dead := now + RedisTtl(st.redis, now) * SECOND, st.issued[token].realExpiry;
    assert st'.memory == Some(Cache(token, end));
    if end > Max(now, dead) { assert now <= Max(now, dead) && Alive(st'.memory, Max(now, dead)); }
    if end > now { assert now <= end - 1 && Alive(st'.memory, end - 1); }
  }

  /**
   * A replacement of the key between the two reads, stored at its own time for the TTL of its own grant, makes a dead
   * token be served if and only if that end, rounded, passes the real expiry of the token read (and is still to
   * come); it costs the margin if and only if it passes the margin.
   */
  lemma ReplacementHarmsIff(st: State, token: Id, replace: Step, now: Time, slack: Time)
    requires Valid(st) && Awaits(st, AwaitTtl(token)) && token in st.issued
    requires replace.OutsideSet? && Allowed(st, replace) && replace.now <= now
    ensures var st', g := Apply(Apply(st, replace), TtlAnswered(now)), st.issued[token];
      var stored := replace.now + Ttl(replace.expiresIn) * SECOND;
      && token in st'.issued && st'.issued[token] == g
      && (ServesDead(st', token, now) <==> stored > now && RoundedEnd(stored, now) > Max(now, g.realExpiry))
      && (ServesWithMargin(st', token, now, slack) <==>
           (stored > now && RoundedEnd(stored, now) > now ==> KeepsMargin(g, RoundedEnd(stored, now), slack)))
  {
    StepKeepsValid(st, replace);
    TtlServesDeadIff(Apply(st, replace), token, now, slack);
  }

  /** The GET and the TTL are two reads: if another instance replaces the key between them, a dead token is served. */
  lemma ReplacedKeyServesDeadToken()
    ensures exists steps, st ::
      && st == Run(START, steps) && AllAllowed(START, steps)
      && 1 in st.issued && st.issued[1].realExpiry == 360 * SECOND
      && Alive(st.memory, 400 * SECOND) && st.memory.value.token == 1
  {
    var at := 59 * SECOND;
    var replace, ttl := OutsideSet(2, 86399, at, at), TtlAnswered(at);
    var s4 := Apply(ReadToken(360, at), replace);
    var s5 := Apply(s4, ttl);
    RunUnfolds(s4, ttl, [], s5);
    RunUnfolds(ReadToken(360, at), replace, [ttl] + [], s4);
    TokenRead(360, at, [replace] + ([ttl] + []));
    assert s4.redis == Some(Cache(2, at + 86099 * SECOND)) && s4.loads == map[0 := AwaitTtl(1)];
    assert s5.memory == Some(Cache(1, at + 86099 * SECOND));
  }
}

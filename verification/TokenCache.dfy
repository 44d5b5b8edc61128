/**
 * The cache of the Shopify access token: a field in memory, a key in Redis shared with other instances, and one
 * shared promise while a token is being loaded. Calls interleave wherever the original awaits; each step below runs
 * from one await to the next.
 */
module TokenCache {
  import opened Schema

  /** A token with the time its cache entry expires. */
  datatype Cache = Cache(token: Id, expiresAt: Time)

  /** What Shopify granted: valid for `seconds` from the grant, until `realExpiry`. */
  datatype Grant = Grant(seconds: int, realExpiry: Time)

  /** Where a load stands: the answer it awaits. */
  datatype Phase = AwaitGet | AwaitTtl(token: Id) | AwaitFetch | AwaitSet(token: Id, grantedAt: Time)

  datatype Answer = FromMemory(token: Id) | FromLoad(token: Id) | Failed

  /**
   * `memory` and `inflight` are the fields of the service and `redis` is its key; `loads` are the running calls of
   * `loadToken`. The rest is history: who joined which load, how loads ended, what callers got, what was granted.
   */
  datatype State = State(
    memory: Option<Cache>, inflight: Option<nat>, redis: Option<Cache>, loads: map<nat, Phase>, nextLoad: nat,
    joined: map<nat, nat>, results: map<nat, Option<Id>>, answers: map<nat, Answer>, issued: map<Id, Grant>,
      clock: Time)

  const SECOND: Time := 1000
  const REFRESH_MARGIN := 300
  const MIN_TTL := 60

  /** Seconds a granted token is cached. */
  function Ttl(expiresIn: int): int { Max(expiresIn - REFRESH_MARGIN, MIN_TTL) }

  predicate Alive(c: Option<Cache>, now: Time) { c.Some? && c.value.expiresAt > now }

  /** Redis TTL in whole seconds, rounded to the nearest, and 0 for a missing key. */
  function RedisTtl(c: Option<Cache>, now: Time): int {
    if Alive(c, now) then (c.value.expiresAt - now + 500) / SECOND else 0
  }

  datatype Step =
    | GetToken(caller: nat, now: Time)
    | GetAnswered(now: Time)
    | TtlAnswered(now: Time)
    | FetchAnswered(token: Id, expiresIn: int, now: Time)
    | SetAnswered(now: Time)
    | LoadFails(now: Time)
    | InvalidateMemory(now: Time)
    | InvalidateRedis(now: Time)
    | OutsideSet(token: Id, expiresIn: int, grantedAt: Time, now: Time)

  function AnswerOf(result: Option<Id>): Answer {
    if result.Some? then FromLoad(result.value) else Failed
  }

  /** The load ends: the shared promise is dropped and everyone who joined it gets its result. */
  function Completed(st: State, load: nat, result: Option<Id>): State {
    st.(loads := st.loads - {load}, inflight := None, results := st.results[load := result],
        answers := st.answers + map c | c in st.joined && st.joined[c] == load :: AnswerOf(result))
  }

  function Stored(st: State, token: Id, now: Time): Cache
    requires token in st.issued
  {
    Cache(token, now + Ttl(st.issued[token].seconds) * SECOND)
  }

  function Begun(st: State, caller: nat): State {
    st.(loads := st.loads[st.nextLoad := AwaitGet], inflight := Some(st.nextLoad),
        joined := st.joined[caller := st.nextLoad], nextLoad := st.nextLoad + 1)
  }

  /** The load goes on with the answer it awaits; any other answer is none of its business. */
  function Resumed(st: State, load: nat, phase: Phase, step: Step): State {
    if step.GetAnswered? && phase.AwaitGet? then
      st.(loads := st.loads[load := if Alive(st.redis, step.now) then AwaitTtl(st.redis.value.token) else AwaitFetch])
    else if step.TtlAnswered? && phase.AwaitTtl? then
      Completed(st.(memory := Some(Cache(phase.token, step.now + RedisTtl(st.redis, step.now) * SECOND))), load,
        Some(phase.token))
    else if step.FetchAnswered? && phase.AwaitFetch? then
      st.(loads := st.loads[load := AwaitSet(step.token, step.now)],
          issued := st.issued[step.token := Grant(step.expiresIn, step.now + step.expiresIn * SECOND)])
    else if step.SetAnswered? && phase.AwaitSet? && phase.token in st.issued then
      Completed(st.(redis := Some(Stored(st, phase.token, step.now)),
        memory := Some(Stored(st, phase.token, step.now))), load, Some(phase.token))
    else if step.LoadFails? then Completed(st, load, None)
    else st
  }

  function Apply(st0: State, step: Step): State {
    var st := st0.(clock := step.now);
    match step
    case GetToken(caller, now) =>
      if caller in st.joined || caller in st.answers then st
      else if Alive(st.memory, now) then st.(answers := st.answers[caller := FromMemory(st.memory.value.token)])
      else if st.inflight.Some? then st.(joined := st.joined[caller := st.inflight.value])
      else Begun(st, caller)
    case InvalidateMemory(_) => st.(memory := None)
    case InvalidateRedis(_) => st.(redis := None)
    case OutsideSet(token, expiresIn, grantedAt, now) =>
      st.(redis := Some(Cache(token, now + Ttl(expiresIn) * SECOND)),
        issued := st.issued[token := Grant(expiresIn, grantedAt + expiresIn * SECOND)])
    case _ =>
      if st.inflight.Some? && st.inflight.value in st.loads
      then Resumed(st, st.inflight.value, st.loads[st.inflight.value], step) else st
  }

  function Run(st: State, steps: seq<Step>): State
    decreases |steps|
  {
    if steps == [] then st else Run(Apply(st, steps[0]), steps[1..])
  }

  /** Time does not run backwards, and every grant is of a new token. */
  predicate Allowed(st: State, step: Step) {
    && st.clock <= step.now
    && (step.FetchAnswered? ==> step.token !in st.issued)
    && (step.OutsideSet? ==> step.token !in st.issued && step.grantedAt <= step.now)
  }

  ghost predicate AllAllowed(st: State, steps: seq<Step>)
    decreases |steps|
  {
    steps == [] || (Allowed(st, steps[0]) && AllAllowed(Apply(st, steps[0]), steps[1..]))
  }

  // ---------------------------------------------------------------- single flight

  /** A load is running exactly while the shared promise is set, and it is the only one. */
  ghost predicate OneLoad(st: State) {
    && (st.inflight.Some? ==> st.inflight.value in st.loads)
    && (forall l :: l in st.loads ==> st.inflight == Some(l) && l < st.nextLoad && l !in st.results)
    && (forall l :: l in st.results ==> l < st.nextLoad)
    && (forall l :: l in st.loads && st.loads[l].AwaitSet? ==> st.loads[l].token in st.issued)
  }

  /** Who joined a load waits while it runs, and has its result once it ended. */
  ghost predicate JoinersServed(st: State) {
    forall c :: c in st.joined ==>
      if st.joined[c] in st.loads then c !in st.answers
      else st.joined[c] in st.results && c in st.answers && st.answers[c] == AnswerOf(st.results[st.joined[c]])
  }

  /** Every running load was started by someone who waits for it. */
  ghost predicate Wanted(st: State) {
    forall l :: l in st.loads ==> HasJoiner(st, l)
  }

  ghost predicate HasJoiner(st: State, l: nat) {
    exists c :: c in st.joined && st.joined[c] == l
  }

  ghost predicate Valid(st: State) {
    OneLoad(st) && JoinersServed(st) && Wanted(st)
  }

  /** The load in flight stands at this await. */
  predicate Awaits(st: State, phase: Phase) {
    st.inflight.Some? && st.inflight.value in st.loads && st.loads[st.inflight.value] == phase
  }

  lemma CompletionKeepsValid(st: State, load: nat, result: Option<Id>)
    requires Valid(st) && st.inflight == Some(load)
    ensures Valid(Completed(st, load, result))
  {}

  lemma ResumeKeepsValid(st: State, load: nat, step: Step)
    requires Valid(st) && st.inflight == Some(load)
    ensures Valid(Resumed(st, load, st.loads[load], step))
  {
    var phase := st.loads[load];
    if step.TtlAnswered? && phase.AwaitTtl? {
      CompletionKeepsValid(st.(memory := Some(Cache(phase.token, step.now + RedisTtl(st.redis, step.now) * SECOND))),
        load, Some(phase.token));
    } else if step.SetAnswered? && phase.AwaitSet? {
      CompletionKeepsValid(st.(redis := Some(Stored(st, phase.token, step.now)),
        memory := Some(Stored(st, phase.token, step.now))), load, Some(phase.token));
    } else if step.LoadFails? {
      CompletionKeepsValid(st, load, None);
    }
  }

  lemma CallKeepsValid(st: State, step: Step)
    requires Valid(st) && step.GetToken?
    ensures Valid(Apply(st, step))
  {
    var caller, now := step.caller, step.now;
    if caller in st.joined || caller in st.answers || Alive(st.memory, now) {
    } else if st.inflight.Some? {
    } else {
      StartKeepsValid(st.(clock := now), caller);
    }
  }

  lemma StartKeepsValid(st: State, caller: nat)
    requires Valid(st) && st.inflight.None? && caller !in st.joined && caller !in st.answers
    ensures Valid(Begun(st, caller))
  {
    var st' := Begun(st, caller);
    assert st.loads == map[];
    forall c | c in st'.joined
      ensures if st'.joined[c] in st'.loads then c !in st'.answers
        else st'.joined[c] in st'.results && c in st'.answers && st'.answers[c] == AnswerOf(st'.results[st'.joined[c]])
    {
      if c != caller { assert c in st.joined; }
    }
  }

  lemma StepKeepsValid(st: State, step: Step)
    requires Valid(st)
    ensures Valid(Apply(st, step))
  {
    if step.GetToken? { CallKeepsValid(st, step); }
    else if Outside(step) { OutsideKeepsValid(st, step); }
    else { AnswerKeepsValid(st, step); }
  }

  /** The step is no answer to a load: an invalidation or another instance's write. */
  predicate Outside(step: Step) {
    step.InvalidateMemory? || step.InvalidateRedis? || step.OutsideSet?
  }

  lemma OutsideKeepsValid(st: State, step: Step)
    requires Valid(st) && Outside(step)
    ensures Valid(Apply(st, step))
  {}

  lemma AnswerKeepsValid(st: State, step: Step)
    requires Valid(st) && !step.GetToken? && !Outside(step)
    ensures Valid(Apply(st, step))
  {
    if st.inflight.Some? { ResumeKeepsValid(st.(clock := step.now), st.inflight.value, step); }
  }

  lemma {:induction false} RunKeepsValid(st: State, steps: seq<Step>)
    requires Valid(st)
    ensures Valid(Run(st, steps))
    decreases |steps|
  {
    if steps != [] {
      StepKeepsValid(st, steps[0]);
      RunKeepsValid(Apply(st, steps[0]), steps[1..]);
    }
  }

  const START := State(None, None, None, map[], 0, map[], map[], map[], map[], 0)

  /** Under every interleaving at most one load is running. */
  lemma AtMostOneLoad(steps: seq<Step>)
    ensures |Run(START, steps).loads| <= 1
  {
    RunKeepsValid(START, steps);
    var st := Run(START, steps);
    if st.inflight.Some? { assert st.loads.Keys == {st.inflight.value}; } else { assert st.loads.Keys == {}; }
    assert |st.loads| == |st.loads.Keys|;
  }

  /**
   * Under every interleaving all callers that joined one load are
   * answered together and alike, with what that load got.
   */
  lemma JoinersShareOneAnswer(steps: seq<Step>, c: nat, d: nat)
    requires var st := Run(START, steps); c in st.joined && d in st.joined && st.joined[c] == st.joined[d]
    ensures var st := Run(START, steps);
      && (c in st.answers <==> d in st.answers)
      && (c in st.answers ==>
           st.joined[c] in st.results && st.answers[c] == st.answers[d] == AnswerOf(st.results[st.joined[c]]))
      && (c !in st.answers ==> st.inflight == Some(st.joined[c]))
  {
    RunKeepsValid(START, steps);
  }

  // ---------------------------------------------------------------- the service

  /** The service; each method is the code that runs from one await to the next. */
  class ShopifyTokenService {
    var memoryCache: Option<Cache>
    var inflight: Option<nat>
    var redis: Option<Cache>
    var loads: map<nat, Phase>
    var nextLoad: nat
    var joined: map<nat, nat>
    var results: map<nat, Option<Id>>
    var answers: map<nat, Answer>
    var issued: map<Id, Grant>
    var clock: Time

    function Abs(): State
      reads this
    {
      State(memoryCache, inflight, redis, loads, nextLoad, joined, results, answers, issued, clock)
    }

    constructor ()
      ensures Abs() == START
    {
      memoryCache, inflight, redis, loads, nextLoad := None, None, None, map[], 0;
      joined, results, answers, issued, clock := map[], map[], map[], map[], 0;
    }

    /**
     * Up to the first await; a caller that is answered at once, or
     * joins a load, never calls again under its number.
     */
    method GetToken(caller: nat, now: Time)
      requires Valid(Abs()) && caller !in joined && caller !in answers
      modifies this
      ensures Abs() == Apply(old(Abs()), Step.GetToken(caller, now)) && Valid(Abs())
    {
      CallKeepsValid(Abs(), Step.GetToken(caller, now));
      clock := now;
      if memoryCache.Some? && memoryCache.value.expiresAt > now {
        answers := answers[caller := FromMemory(memoryCache.value.token)];
        return;
      }
      if inflight.Some? {
        joined := joined[caller := inflight.value];
        return;
      }
      loads, inflight, joined, nextLoad :=
        loads[nextLoad := AwaitGet], Some(nextLoad), joined[caller := nextLoad], nextLoad + 1;
    }

    /** The `finally` of a load, and the answers of those who joined it. */
    method Settle(load: nat, result: Option<Id>)
      modifies this
      ensures Abs() == Completed(old(Abs()), load, result)
    {
      loads, inflight, results := loads - {load}, None, results[load := result];
      var waiting := joined;
      answers := answers + map c | c in waiting && waiting[c] == load :: AnswerOf(result);
    }

    /** `loadToken` after its GET. */
    method AfterGet(load: nat, now: Time)
      requires Valid(Abs()) && inflight == Some(load) && loads[load].AwaitGet?
      modifies this
      ensures Abs() == Apply(old(Abs()), GetAnswered(now)) && Valid(Abs())
    {
      StepKeepsValid(Abs(), GetAnswered(now));
      clock := now;
      if redis.Some? && redis.value.expiresAt > now { loads := loads[load := AwaitTtl(redis.value.token)]; }
      else { loads := loads[load := AwaitFetch]; }
    }

    /** `loadToken` after its TTL. */
    method AfterTtl(load: nat, now: Time)
      requires Valid(Abs()) && inflight == Some(load) && loads[load].AwaitTtl?
      modifies this
      ensures Abs() == Apply(old(Abs()), TtlAnswered(now)) && Valid(Abs())
    {
      StepKeepsValid(Abs(), TtlAnswered(now));
      clock := now;
      var cached := loads[load].token;
      memoryCache := Some(Cache(cached, now + RedisTtl(redis, now) * SECOND));
      Settle(load, Some(cached));
    }

    /** `fetchFreshToken` after the grant. */
    method AfterFetch(load: nat, token: Id, expiresIn: int, now: Time)
      requires Valid(Abs()) && inflight == Some(load) && loads[load].AwaitFetch?
      modifies this
      ensures Abs() == Apply(old(Abs()), FetchAnswered(token, expiresIn, now)) && Valid(Abs())
    {
      StepKeepsValid(Abs(), FetchAnswered(token, expiresIn, now));
      clock := now;
      issued := issued[token := Grant(expiresIn, now + expiresIn * SECOND)];
      loads := loads[load := AwaitSet(token, now)];
    }

    /** `fetchFreshToken` after its SET. */
    method AfterSet(load: nat, now: Time)
      requires Valid(Abs()) && inflight == Some(load) && loads[load].AwaitSet?
      modifies this
      ensures Abs() == Apply(old(Abs()), SetAnswered(now)) && Valid(Abs())
    {
      StepKeepsValid(Abs(), SetAnswered(now));
      var token := loads[load].token;
      Store(token, now);
      Settle(load, Some(token));
    }

    method Store(token: Id, now: Time)
      requires token in issued
      modifies `clock, `redis, `memoryCache
      ensures clock == now && redis == memoryCache == Some(Stored(Abs(), token, now))
    {
      clock := now;
      var ttl := Max(issued[token].seconds - REFRESH_MARGIN, MIN_TTL);
      redis := Some(Cache(token, now + ttl * SECOND));
      memoryCache := Some(Cache(token, now + ttl * SECOND));
    }

    /** Any of the awaited calls throws. */
    method AfterFailure(load: nat, now: Time)
      requires Valid(Abs()) && inflight == Some(load)
      modifies this
      ensures Abs() == Apply(old(Abs()), LoadFails(now)) && Valid(Abs())
    {
      StepKeepsValid(Abs(), LoadFails(now));
      clock := now;
      Settle(load, None);
    }

    /** `invalidate` up to its await, and the deletion it awaits. */
    method Invalidate(now: Time)
      modifies this
      ensures Abs() == Apply(old(Abs()), InvalidateMemory(now))
    {
      clock, memoryCache := now, None;
    }

    method InvalidateKey(now: Time)
      modifies this
      ensures Abs() == Apply(old(Abs()), InvalidateRedis(now))
    {
      clock, redis := now, None;
    }
  }
}

/**
 * What `invalidate` forgets. It clears memory, then awaits the deletion of the key, and calls go on in between; a
 * token is forgotten when no run of theirs can hand it out again.
 */
module TokenInvalidation {
  import opened Schema
  import opened TokenCache

  /** A running load holds the token. */
  predicate Carries(st: State, token: Id) {
    && st.inflight.Some? && st.inflight.value in st.loads
    && match st.loads[st.inflight.value]
       case AwaitTtl(t) => t == token
       case AwaitSet(t, _) => t == token
       case _ => false
  }

  /** An entry, of memory or of Redis, that is alive with the token. */
  predicate Holds(c: Option<Cache>, token: Id, now: Time) {
    Alive(c, now) && c.value.token == token
  }

  predicate Forgotten(st: State, token: Id) {
    !Carries(st, token) && !Holds(st.memory, token, st.clock) && !Holds(st.redis, token, st.clock)
  }

  predicate Gives(st: State, caller: nat, token: Id) {
    caller in st.answers && (st.answers[caller] == FromMemory(token) || st.answers[caller] == FromLoad(token))
  }

  /** Between the two states the token was handed to someone. */
  ghost predicate HandedOut(st: State, st': State, token: Id) {
    exists c :: Gives(st', c, token) && !Gives(st, c, token)
  }

  /** Whatever may follow, the token is not handed out again. */
  ghost predicate NeverAgain(st: State, token: Id) {
    forall steps :: AllAllowed(st, steps) ==> !HandedOut(st, Run(st, steps), token)
  }

  // ---------------------------------------------------------------- forgotten for good

  lemma ForgottenStays(st: State, step: Step, token: Id)
    requires OneLoad(st) && Forgotten(st, token) && token in st.issued && Allowed(st, step)
    ensures Forgotten(Apply(st, step), token) && token in Apply(st, step).issued
    ensures forall c :: Gives(Apply(st, step), c, token) ==> Gives(st, c, token)
  {
    if !step.GetToken? && !Outside(step) && st.inflight.Some? { ResumeForgets(st.(clock := step.now), step, token); }
  }

  lemma ResumeForgets(st: State, step: Step, token: Id)
    requires OneLoad(st) && Forgotten(st, token) && token in st.issued && st.inflight.Some? && st.clock == step.now
    requires step.FetchAnswered? ==> step.token !in st.issued
    ensures var st' := Resumed(st, st.inflight.value, st.loads[st.inflight.value], step);
      && Forgotten(st', token) && token in st'.issued
      && forall c :: Gives(st', c, token) ==> Gives(st, c, token)
  {}

  lemma {:induction false} ForgottenForGood(st: State, steps: seq<Step>, token: Id)
    requires Valid(st) && Forgotten(st, token) && token in st.issued && AllAllowed(st, steps)
    ensures forall c :: Gives(Run(st, steps), c, token) ==> Gives(st, c, token)
    decreases |steps|
  {
    if steps != [] {
      StepKeepsValid(st, steps[0]);
      ForgottenStays(st, steps[0], token);
      ForgottenForGood(Apply(st, steps[0]), steps[1..], token);
    }
  }

  // ---------------------------------------------------------------- what is not forgotten comes back

  lemma {:induction false} Above(s: set<nat>) returns (b: nat)
    ensures forall n :: n in s ==> n < b
    decreases |s|
  {
    if s == {} { return 0; }
    var n :| n in s;
    b := Above(s - {n});
    b := if n < b then b else n + 1;
    assert forall m :: m in s ==> m == n || m in s - {n};
  }

  /** There is always another caller. */
  lemma NewCaller(st: State) returns (c: nat)
    ensures c !in st.joined && c !in st.answers
  {
    c := Above(st.joined.Keys + st.answers.Keys);
  }

  lemma AnswersStay(st: State, step: Step, c: nat)
    requires Valid(st) && c in st.answers
    ensures c in Apply(st, step).answers && Apply(st, step).answers[c] == st.answers[c]
  {}

  /** A step towards a run that hands the token out is itself such a run. */
  lemma StepTowards(st: State, step: Step, rest: seq<Step>, token: Id)
    requires Valid(st) && Allowed(st, step) && AllAllowed(Apply(st, step), rest)
    requires HandedOut(Apply(st, step), Run(Apply(st, step), rest), token)
    ensures AllAllowed(st, [step] + rest) && HandedOut(st, Run(st, [step] + rest), token)
  {
    assert ([step] + rest)[1..] == rest;
    var st1, st2 := Apply(st, step), Run(Apply(st, step), rest);
    var c :| Gives(st2, c, token) && !Gives(st1, c, token);
    if Gives(st, c, token) { AnswersStay(st, step, c); }
    assert Gives(st2, c, token) && !Gives(st, c, token);
  }

  /** What the load that carries a token awaits. */
  function Delivery(st: State, now: Time): Step {
    if st.inflight.Some? && st.inflight.value in st.loads && st.loads[st.inflight.value].AwaitTtl?
    then TtlAnswered(now) else SetAnswered(now)
  }

  lemma CarriedIsDelivered(st: State, token: Id, now: Time)
    requires Valid(st) && Carries(st, token) && st.clock <= now
    ensures AllAllowed(st, [Delivery(st, now)]) && HandedOut(st, Run(st, [Delivery(st, now)]), token)
  {
    var step, load := Delivery(st, now), st.inflight.value;
    var st' := Apply(st, step);
    assert [step][1..] == [];
    assert Run(st', []) == st' && AllAllowed(st', []);
    assert HasJoiner(st, load);
    var c :| c in st.joined && st.joined[c] == load;
    assert Gives(st', c, token) && !Gives(st, c, token);
  }

  lemma MemoryIsServed(st: State, token: Id) returns (steps: seq<Step>)
    requires Valid(st) && Holds(st.memory, token, st.clock)
    ensures AllAllowed(st, steps) && HandedOut(st, Run(st, steps), token)
  {
    var c := NewCaller(st);
    var step := GetToken(c, st.clock);
    steps := [step];
    assert steps[1..] == [];
    var st' := Apply(st, step);
    assert Run(st', []) == st' && AllAllowed(st', []);
    assert Gives(st', c, token) && !Gives(st, c, token);
  }

  /** With nothing in flight and nothing in memory a new load reads the key. */
  lemma KeyIsRead(st: State, token: Id) returns (steps: seq<Step>)
    requires Valid(st) && Holds(st.redis, token, st.clock) && st.inflight.None? && st.memory.None?
    ensures AllAllowed(st, steps) && HandedOut(st, Run(st, steps), token)
  {
    var c := NewCaller(st);
    var call, read := GetToken(c, st.clock), GetAnswered(st.clock);
    var st1 := Apply(st, call);
    var st2 := Apply(st1, read);
    StepKeepsValid(st, call);
    StepKeepsValid(st1, read);
    CarriedIsDelivered(st2, token, st.clock);
    StepTowards(st1, read, [Delivery(st2, st.clock)], token);
    StepTowards(st, call, [read] + [Delivery(st2, st.clock)], token);
    steps := [call] + ([read] + [Delivery(st2, st.clock)]);
  }

  lemma KeyComesBack(st: State, token: Id) returns (steps: seq<Step>)
    requires Valid(st) && Holds(st.redis, token, st.clock)
    ensures AllAllowed(st, steps) && HandedOut(st, Run(st, steps), token)
  {
    var clear, fail := InvalidateMemory(st.clock), LoadFails(st.clock);
    var st1 := Apply(st, clear);
    StepKeepsValid(st, clear);
    if st1.inflight.None? {
      steps := KeyIsRead(st1, token);
    } else {
      var st2 := Apply(st1, fail);
      StepKeepsValid(st1, fail);
      var rest := KeyIsRead(st2, token);
      StepTowards(st1, fail, rest, token);
      steps := [fail] + rest;
    }
    StepTowards(st, clear, steps, token);
    steps := [clear] + steps;
  }

  /** A token is never handed out again if and only if no load carries it and neither cache is alive with it. */
  lemma NeverAgainIff(st: State, token: Id)
    requires Valid(st) && token in st.issued
    ensures NeverAgain(st, token) <==> Forgotten(st, token)
  {
    if Forgotten(st, token) {
      forall steps | AllAllowed(st, steps)
        ensures !HandedOut(st, Run(st, steps), token)
      {
        ForgottenForGood(st, steps, token);
      }
    } else if Carries(st, token) {
      CarriedIsDelivered(st, token, st.clock);
    } else if Holds(st.memory, token, st.clock) {
      var steps := MemoryIsServed(st, token);
    } else {
      var steps := KeyComesBack(st, token);
    }
  }

  /**
   * At the deletion of the key, whatever ran since `invalidate` was called: the token is never handed out again if
   * and only if at that moment no load carries it and memory, filled again, does not hold it.
   */
  lemma DeletionForgetsIff(st: State, token: Id, now: Time)
    requires Valid(st) && token in st.issued && st.clock <= now
    ensures NeverAgain(Apply(st, InvalidateRedis(now)), token) <==> !Carries(st, token) && !Holds(st.memory, token, now)
  {
    StepKeepsValid(st, InvalidateRedis(now));
    NeverAgainIff(Apply(st, InvalidateRedis(now)), token);
  }

  // ---------------------------------------------------------------- from the call on

  /**
   * Commands on one connection are answered in the order they are sent: the GET of a load begun after the call, with
   * a number of at least `first`, is answered only after the deletion.
   */
  ghost predicate InOrder(st: State, steps: seq<Step>, first: nat)
    decreases |steps|
  {
    || steps == [] || steps[0].InvalidateRedis?
    || (!(steps[0].GetAnswered? && st.inflight.Some? && st.inflight.value >= first)
      && InOrder(Apply(st, steps[0]), steps[1..], first))
  }

  /** The call comes too late for the token: a load carries it, or has sent its GET while the key is alive with it. */
  predicate Underway(st: State, token: Id, now: Time) {
    Carries(st, token) || (Awaits(st, AwaitGet) && Holds(st.redis, token, now))
  }

  /**
   * Until the deletion only loads begun since the call may find the key
   * alive with the token, and they do not read it yet.
   */
  predicate Quiet(st: State, token: Id, first: nat) {
    && token in st.issued && first <= st.nextLoad
    && !Carries(st, token) && !Holds(st.memory, token, st.clock)
    && (Awaits(st, AwaitGet) && Holds(st.redis, token, st.clock) ==> st.inflight.value >= first)
  }

  lemma QuietStays(st: State, step: Step, token: Id, first: nat)
    requires Valid(st) && Quiet(st, token, first) && Allowed(st, step) && !step.InvalidateRedis?
    requires !(step.GetAnswered? && st.inflight.Some? && st.inflight.value >= first)
    ensures Quiet(Apply(st, step), token, first)
    ensures forall c :: Gives(Apply(st, step), c, token) ==> Gives(st, c, token)
  {
    if !step.GetToken? && !Outside(step) && st.inflight.Some? {
      AnswerStaysQuiet(st.(clock := step.now), step, token, first);
    }
  }

  lemma AnswerStaysQuiet(st: State, step: Step, token: Id, first: nat)
    requires OneLoad(st) && Quiet(st, token, first) && st.inflight.Some? && st.clock == step.now
    requires step.FetchAnswered? ==> step.token !in st.issued
    requires !(step.GetAnswered? && st.inflight.value >= first)
    ensures var st' := Resumed(st, st.inflight.value, st.loads[st.inflight.value], step);
      && Quiet(st', token, first)
      && forall c :: Gives(st', c, token) ==> Gives(st, c, token)
  {}

  lemma {:induction false} QuietRun(st: State, steps: seq<Step>, token: Id, first: nat)
    requires Valid(st) && Quiet(st, token, first) && AllAllowed(st, steps) && InOrder(st, steps, first)
    ensures forall c :: Gives(Run(st, steps), c, token) ==> Gives(st, c, token)
    decreases |steps|
  {
    if steps != [] {
      var st' := Apply(st, steps[0]);
      StepKeepsValid(st, steps[0]);
      if steps[0].InvalidateRedis? {
        assert Forgotten(st', token);
        ForgottenForGood(st', steps[1..], token);
      } else {
        QuietStays(st, steps[0], token, first);
        QuietRun(st', steps[1..], token, first);
      }
    }
  }

  /** After the call nothing that may follow, in the order of the connection, hands the token out. */
  ghost predicate InvalidatedForGood(st: State, token: Id, now: Time) {
    var st' := Apply(st, InvalidateMemory(now));
    forall steps :: AllAllowed(st', steps) && InOrder(st', steps, st.nextLoad) ==>
      !HandedOut(st', Run(st', steps), token)
  }

  /**
   * From the call of `invalidate` on the token is never handed out again, whatever is interleaved with its two halves
   * and whatever follows, if and only if at the call no load carried it and none was waiting for a GET of the key
   * still alive with it.
   */
  lemma InvalidateForgetsIff(st: State, token: Id, now: Time)
    requires Valid(st) && token in st.issued && st.clock <= now
    ensures InvalidatedForGood(st, token, now) <==> !Underway(st, token, now)
  {
    var st' := Apply(st, InvalidateMemory(now));
    StepKeepsValid(st, InvalidateMemory(now));
    if !Underway(st, token, now) {
      assert Quiet(st', token, st.nextLoad);
      forall steps | AllAllowed(st', steps) && InOrder(st', steps, st.nextLoad)
        ensures !HandedOut(st', Run(st', steps), token)
      {
        QuietRun(st', steps, token, st.nextLoad);
      }
    } else if Carries(st, token) {
      CarriedIsDelivered(st', token, now);
      assert [Delivery(st', now)][1..] == [];
      assert InOrder(st', [Delivery(st', now)], st.nextLoad);
    } else {
      var steps := WaitingGetComesBack(st', token, st.nextLoad);
    }
  }

  /** The GET is answered first, then the key deleted, then the TTL answered: the load still ends with the token. */
  lemma WaitingGetComesBack(st: State, token: Id, first: nat) returns (steps: seq<Step>)
    requires Valid(st) && Awaits(st, AwaitGet) && st.inflight.value < first && Holds(st.redis, token, st.clock)
    ensures AllAllowed(st, steps) && InOrder(st, steps, first) && HandedOut(st, Run(st, steps), token)
  {
    var read, delete := GetAnswered(st.clock), InvalidateRedis(st.clock);
    var st1 := Apply(st, read);
    var st2 := Apply(st1, delete);
    StepKeepsValid(st, read);
    StepKeepsValid(st1, delete);
    var last := Delivery(st2, st.clock);
    CarriedIsDelivered(st2, token, st.clock);
    StepTowards(st1, delete, [last], token);
    StepTowards(st, read, [delete] + [last], token);
    steps := [read] + ([delete] + [last]);
    assert steps[1..] == [delete] + [last];
    assert InOrder(st1, [delete] + [last], first);
  }

  /**
   * In the worst order the TTL is answered before the key is
   * deleted: the token is back in memory for its whole life.
   */
  lemma InvalidatedTokenCanReturn(st: State, token: Id, now: Time)
    requires Valid(st) && Awaits(st, AwaitTtl(token)) && st.clock <= now && Holds(st.redis, token, now)
    ensures var st' := Apply(Apply(Apply(st, InvalidateMemory(now)), TtlAnswered(now)), InvalidateRedis(now));
      && st'.redis == None && st'.memory.Some? && st'.memory.value.token == token
      && st.redis.value.expiresAt - 500 < st'.memory.value.expiresAt <= st.redis.value.expiresAt + 500
  {
    var st1 := Apply(st, InvalidateMemory(now));
    var st2 := Apply(st1, TtlAnswered(now));
    assert st2.memory == Some(Cache(token, now + RedisTtl(st.redis, now) * SECOND));
  }
}

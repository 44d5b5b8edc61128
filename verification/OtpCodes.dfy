/**
 * One-time codes: issuing one retires the pending ones of its key, verifying one consumes it, and
 * wrong guesses are counted. Rows are kept in creation order and a row's id is its position.
 */
module OtpCodes {
  import opened Schema
  import opened RateLimits

  /** `hash` is the keyed hash of a message; it is taken to be injective, so the message stands for it. */
  datatype Code = Code(
    identifier: string, purpose: Purpose, hash: string, customer: Option<Id>,
    attempts: int, maxAttempts: int, expiresAt: Time, consumedAt: Option<Time>)

  /** The table and the time of the last request. */
  datatype State = State(codes: seq<Code>, clock: Time)

  function KindName(k: IdentifierType): string {
    match k case Phone => "PHONE" case Email => "EMAIL"
  }

  /** What is hashed: the code bound to its identifier and purpose. */
  function Message(i: Identifier, p: Purpose, code: string): string {
    KindName(i.kind) + ":" + i.value + ":" + PurposeName(p) + ":" + code
  }

  predicate HasKey(c: Code, value: string, p: Purpose) {
    c.identifier == value && c.purpose == p
  }

  predicate Usable(c: Code, now: Time) {
    c.consumedAt.None? && c.expiresAt > now
  }

  // ---------------------------------------------------------------- requests

  /** `issue`: pending codes of the key are consumed and a new one is added. */
  function Issued(codes: seq<Code>, i: Identifier, p: Purpose, customer: Option<Id>, code: string, now: Time, ttl: Time,
                  maxAttempts: int): seq<Code>
  {
    seq(|codes|, k requires 0 <= k < |codes| =>
      if HasKey(codes[k], i.value, p) && Usable(codes[k], now) then codes[k].(consumedAt := Some(now)) else codes[k])
    + [Code(i.value, p, Message(i, p, code), customer, 0, maxAttempts, now + ttl, None)]
  }

  /** `findFirst(orderBy createdAt desc)`: the newest usable code of the key. */
  function NewestUsable(codes: seq<Code>, value: string, p: Purpose, now: Time): Option<nat> {
    if codes == [] then None
    else if HasKey(codes[|codes| - 1], value, p) && Usable(codes[|codes| - 1], now) then Some(|codes| - 1)
    else NewestUsable(codes[..|codes| - 1], value, p, now)
  }

  /** What one verification did: found nothing, found a code with no attempts left, or compared. */
  datatype Event = Nothing | Exhausted(record: nat) | Compared(record: nat, matched: bool)

  function VerifyEvent(codes: seq<Code>, i: Identifier, p: Purpose, code: string, now: Time): (e: Event)
    ensures e.Exhausted? || e.Compared? ==> e.record < |codes|
  {
    match NewestUsable(codes, i.value, p, now)
    case None => Nothing
    case Some(n) =>
      NewestIsUsable(codes, i.value, p, now);
      if codes[n].attempts >= codes[n].maxAttempts then Exhausted(n)
      else Compared(n, codes[n].hash == Message(i, p, code))
  }

  function AfterEvent(codes: seq<Code>, e: Event, now: Time): seq<Code>
    requires e.Exhausted? || e.Compared? ==> e.record < |codes|
  {
    match e
    case Nothing => codes
    case Exhausted(n) => codes[n := codes[n].(consumedAt := Some(now))]
    case Compared(n, matched) =>
      if matched then codes[n := codes[n].(consumedAt := Some(now))]
      else
        var attempts := codes[n].attempts + 1;
        codes[n := codes[n].(
          attempts := attempts,
          consumedAt := if attempts >= codes[n].maxAttempts then Some(now) else codes[n].consumedAt)]
  }

  function Verdict(codes: seq<Code>, e: Event): Result<Option<Id>>
    requires e.Compared? ==> e.record < |codes|
  {
    if e.Compared? && e.matched then Ok(codes[e.record].customer) else Err(Unauthorized)
  }

  datatype Step =
    | Issue(identifier: Identifier, purpose: Purpose, customer: Option<Id>, code: string, now: Time, ttl: Time,
      maxAttempts: int)
    | Verify(identifier: Identifier, purpose: Purpose, code: string, now: Time)
    | Merge(source: Id, target: Id, now: Time)

  function Renamed(customer: Option<Id>, s: Id, t: Id): Option<Id> {
    if customer == Some(s) then Some(t) else customer
  }

  function Apply(st: State, step: Step): State {
    match step
    case Issue(i, p, customer, code, now, ttl, maxAttempts) =>
      State(Issued(st.codes, i, p, customer, code, now, ttl, maxAttempts), now)
    case Verify(i, p, code, now) => State(AfterEvent(st.codes, VerifyEvent(st.codes, i, p, code, now), now), now)
    case Merge(s, t, now) =>
      State(seq(|st.codes|,
        k requires 0 <= k < |st.codes| => st.codes[k].(customer := Renamed(st.codes[k].customer, s, t))), now)
  }

  function EventOf(st: State, step: Step): Event {
    if step.Verify? then VerifyEvent(st.codes, step.identifier, step.purpose, step.code, step.now) else Nothing
  }

  /** Time does not run backwards, and the configured number of attempts is positive. */
  predicate Allowed(st: State, step: Step) {
    st.clock <= step.now && (step.Issue? ==> step.maxAttempts > 0)
  }

  ghost predicate AllAllowed(st: State, steps: seq<Step>)
    decreases |steps|
  {
    steps == [] || (Allowed(st, steps[0]) && AllAllowed(Apply(st, steps[0]), steps[1..]))
  }

  function Run(st: State, steps: seq<Step>): State
    decreases |steps|
  {
    if steps == [] then st else Run(Apply(st, steps[0]), steps[1..])
  }

  // ---------------------------------------------------------------- invariants

  /** An older code of a key is spent: consumed, or expired by now. */
  ghost predicate Valid(st: State) {
    && (forall i, j :: 0 <= i < j < |st.codes| && HasKey(st.codes[i], st.codes[j].identifier, st.codes[j].purpose) ==>
         st.codes[i].consumedAt.Some? || st.codes[i].expiresAt <= st.clock)
    && (forall i :: 0 <= i < |st.codes| && st.codes[i].consumedAt.None? ==>
         0 <= st.codes[i].attempts < st.codes[i].maxAttempts)
  }

  lemma {:induction false} NewestIsUsable(codes: seq<Code>, value: string, p: Purpose, now: Time)
    ensures var n := NewestUsable(codes, value, p, now);
      && (n.Some? ==> n.value < |codes| && HasKey(codes[n.value], value, p) && Usable(codes[n.value], now))
      && (forall k :: 0 <= k < |codes| && HasKey(codes[k], value, p) && Usable(codes[k], now) ==>
           n.Some? && k <= n.value)
  {
    if codes != [] { NewestIsUsable(codes[..|codes| - 1], value, p, now); }
  }

  lemma IssueKeepsValid(st: State, step: Step)
    requires Valid(st) && Allowed(st, step) && step.Issue?
    ensures Valid(Apply(st, step))
  {}

  lemma VerifyKeepsValid(st: State, step: Step)
    requires Valid(st) && Allowed(st, step) && step.Verify?
    ensures Valid(Apply(st, step))
  {
    NewestIsUsable(st.codes, step.identifier.value, step.purpose, step.now);
  }

  lemma StepKeepsValid(st: State, step: Step)
    requires Valid(st) && Allowed(st, step)
    ensures Valid(Apply(st, step))
  {
    match step {
      case Issue(_, _, _, _, _, _, _) => IssueKeepsValid(st, step);
      case Verify(_, _, _, _) => VerifyKeepsValid(st, step);
      case Merge(_, _, _) =>
    }
  }

  lemma {:induction false} RunKeepsValid(st: State, steps: seq<Step>)
    requires Valid(st) && AllAllowed(st, steps)
    ensures Valid(Run(st, steps))
    decreases |steps|
  {
    if steps != [] {
      StepKeepsValid(st, steps[0]);
      RunKeepsValid(Apply(st, steps[0]), steps[1..]);
    }
  }

  /** At any moment at most one code of a key can be used, and it is the one issued last. */
  lemma OneUsableCodePerKey(st: State, i: nat, j: nat, now: Time)
    requires Valid(st) && st.clock <= now && i < |st.codes| && j < |st.codes|
    requires HasKey(st.codes[i], st.codes[j].identifier, st.codes[j].purpose) && Usable(st.codes[i], now)
    ensures j <= i
    ensures Usable(st.codes[j], now) ==> i == j
  {}

  /**
   * A row never changes key, hash, expiry or limit; attempts never fall;
   * once consumed it stays as it is but for its owner's merges.
   */
  lemma StepKeepsRow(st: State, step: Step, k: nat)
    requires k < |st.codes|
    ensures var c, c' := st.codes[k], Apply(st, step).codes[k];
      && |st.codes| <= |Apply(st, step).codes|
      && c' == c.(
           attempts := c'.attempts, consumedAt := c'.consumedAt,
           customer := if step.Merge? then Renamed(c.customer, step.source, step.target) else c.customer)
      && c'.attempts >= c.attempts
      && (c.consumedAt.Some? ==> c'.consumedAt == c.consumedAt && c'.attempts == c.attempts)
  {
    if step.Verify? { NewestIsUsable(st.codes, step.identifier.value, step.purpose, step.now); }
  }

  // ---------------------------------------------------------------- how often one code is tried

  function ComparesWith(e: Event, k: nat): nat {
    if e.Compared? && e.record == k then 1 else 0
  }

  function SucceedsWith(e: Event, k: nat): nat {
    if e.Compared? && e.record == k && e.matched then 1 else 0
  }

  /** How often a run compares a submitted code with record `k`. */
  function Comparisons(st: State, steps: seq<Step>, k: nat): nat
    decreases |steps|
  {
    if steps == [] then 0 else ComparesWith(EventOf(st, steps[0]), k) + Comparisons(Apply(st, steps[0]), steps[1..], k)
  }

  /** How often a run accepts record `k`. */
  function Successes(st: State, steps: seq<Step>, k: nat): nat
    decreases |steps|
  {
    if steps == [] then 0 else SucceedsWith(EventOf(st, steps[0]), k) + Successes(Apply(st, steps[0]), steps[1..], k)
  }

  function Spent(c: Code): int {
    if c.consumedAt.Some? then 1 else 0
  }

  /**
   * A step moves `attempts` and consumption of a record exactly as
   * its event says, and never touches a consumed one.
   */
  lemma StepCounts(st: State, step: Step, k: nat)
    requires Valid(st) && k < |st.codes|
    ensures var c, c', e := st.codes[k], Apply(st, step).codes[k], EventOf(st, step);
      && |st.codes| <= |Apply(st, step).codes| && c'.maxAttempts == c.maxAttempts
      && c'.attempts == c.attempts + ComparesWith(e, k) - SucceedsWith(e, k)
      && SucceedsWith(e, k) <= Spent(c') - Spent(c)
      && (ComparesWith(e, k) > 0 ==> c.consumedAt.None?)
  {
    if step.Verify? { NewestIsUsable(st.codes, step.identifier.value, step.purpose, step.now); }
  }

  /**
   * Over any run, for a code already there: every comparison is either counted in `attempts` or is the one success,
   * there is at most one success, none once it is consumed, and never more comparisons than attempts are left.
   */
  lemma {:induction false} CodeIsTriedAtMost(st: State, steps: seq<Step>, k: nat)
    requires Valid(st) && AllAllowed(st, steps) && k < |st.codes|
    ensures var c, n, ok := st.codes[k], Comparisons(st, steps, k), Successes(st, steps, k);
      && k < |Run(st, steps).codes|
      && Run(st, steps).codes[k].attempts == c.attempts + n - ok
      && ok <= Spent(Run(st, steps).codes[k]) - Spent(c)
      && n <= (if c.consumedAt.Some? then 0 else c.maxAttempts - c.attempts)
    decreases |steps|
  {
    if steps != [] {
      var st' := Apply(st, steps[0]);
      StepKeepsValid(st, steps[0]);
      StepCounts(st, steps[0], k);
      CodeIsTriedAtMost(st', steps[1..], k);
      TriesLeft(st, steps[0], k);
    }
  }

  /** The tries a code has left fall with every comparison. */
  lemma TriesLeft(st: State, step: Step, k: nat)
    requires Valid(st) && Allowed(st, step) && k < |st.codes|
    ensures k < |Apply(st, step).codes|
    ensures var c, c' := st.codes[k], Apply(st, step).codes[k];
      ComparesWith(EventOf(st, step), k) + (if c'.consumedAt.Some? then 0 else c'.maxAttempts - c'.attempts)
        <= (if c.consumedAt.Some? then 0 else c.maxAttempts - c.attempts)
  {
    StepCounts(st, step, k);
    StepKeepsRow(st, step, k);
    if step.Verify? { NewestIsUsable(st.codes, step.identifier.value, step.purpose, step.now); }
  }

  /**
   * The same for a code a run issues itself: from its issue to the end
   * at most `maxAttempts` comparisons and one success.
   */
  lemma {:induction false} IssuedCodeIsTriedAtMost(st: State, steps: seq<Step>, k: nat)
    requires Valid(st) && AllAllowed(st, steps) && |st.codes| <= k < |Run(st, steps).codes|
    ensures Comparisons(st, steps, k) <= Run(st, steps).codes[k].maxAttempts
    ensures Successes(st, steps, k) <= 1
    decreases |steps|
  {
    var st' := Apply(st, steps[0]);
    StepKeepsValid(st, steps[0]);
    if k < |st'.codes| {
      CodeIsTriedAtMost(st', steps[1..], k);
      RunKeepsRow(st', steps[1..], k);
      assert st'.codes[k].attempts == 0;
    } else {
      IssuedCodeIsTriedAtMost(st', steps[1..], k);
    }
  }

  function OwnerAfter(customer: Option<Id>, steps: seq<Step>): Option<Id>
    decreases |steps|
  {
    if steps == [] then customer
    else OwnerAfter(if steps[0].Merge? then Renamed(customer, steps[0].source, steps[0].target) else customer,
      steps[1..])
  }

  /** Consumption is permanent, and a row's owner changes only as merges rename it. */
  lemma {:induction false} RunKeepsRow(st: State, steps: seq<Step>, k: nat)
    requires k < |st.codes|
    ensures k < |Run(st, steps).codes|
    ensures var c, c' := st.codes[k], Run(st, steps).codes[k];
      && c' == c.(attempts := c'.attempts, consumedAt := c'.consumedAt, customer := OwnerAfter(c.customer, steps))
      && (c.consumedAt.Some? ==> c'.consumedAt == c.consumedAt && c'.attempts == c.attempts)
    decreases |steps|
  {
    if steps != [] {
      StepKeepsRow(st, steps[0], k);
      RunKeepsRow(Apply(st, steps[0]), steps[1..], k);
    }
  }

  // ---------------------------------------------------------------- one slot per key

  /**
   * The simple machine the table stands for: for each key one pending code or none. Issuing overwrites it, a wrong
   * guess uses up one of the tries left, a right one empties it, and so do the last try and the expiry.
   */
  datatype Pending = Pending(hash: string, customer: Option<Id>, left: int, expiresAt: Time)

  type Slot = Option<Pending>

  function Live(slot: Slot, now: Time): Slot {
    if slot.Some? && slot.value.expiresAt > now then slot else None
  }

  predicate ForKey(step: Step, value: string, p: Purpose) {
    !step.Merge? && step.identifier.value == value && step.purpose == p
  }

  function Guessed(pending: Pending, hash: string): Slot {
    if pending.hash == hash || pending.left <= 1 then None else Some(pending.(left := pending.left - 1))
  }

  function SlotAfter(slot: Slot, step: Step, value: string, p: Purpose): Slot {
    var live := Live(slot, step.now);
    match step
    case Issue(i, _, customer, code, now, ttl, maxAttempts) =>
      if ForKey(step, value, p) then Live(Some(Pending(Message(i, p, code), customer, maxAttempts, now + ttl)), now)
      else live
    case Verify(i, _, code, _) =>
      if ForKey(step, value, p) && live.Some? then Guessed(live.value, Message(i, p, code)) else live
    case Merge(s, t, _) => if live.Some? then Some(live.value.(customer := Renamed(live.value.customer, s, t)))
      else None
  }

  function SlotRun(slot: Slot, steps: seq<Step>, value: string, p: Purpose): Slot
    decreases |steps|
  {
    if steps == [] then slot else SlotRun(SlotAfter(slot, steps[0], value, p), steps[1..], value, p)
  }

  /** What the simple machine answers to a verification. */
  function SlotAnswer(slot: Slot, i: Identifier, p: Purpose, code: string, now: Time): Result<Option<Id>> {
    if Live(slot, now).Some? && slot.value.hash == Message(i, p, code) then Ok(slot.value.customer)
    else Err(Unauthorized)
  }

  function AsPending(c: Code): Pending {
    Pending(c.hash, c.customer, c.maxAttempts - c.attempts, c.expiresAt)
  }

  /** The slot of a key as the table holds it at the time `now`. */
  function SlotOf(codes: seq<Code>, value: string, p: Purpose, now: Time): Slot {
    match NewestUsable(codes, value, p, now)
    case None => None
    case Some(n) => NewestIsUsable(codes, value, p, now); Some(AsPending(codes[n]))
  }

  predicate IsNewest(codes: seq<Code>, value: string, p: Purpose, now: Time, n: Option<nat>) {
    && (n.Some? ==> n.value < |codes| && HasKey(codes[n.value], value, p) && Usable(codes[n.value], now))
    && (forall k :: 0 <= k < |codes| && HasKey(codes[k], value, p) && Usable(codes[k], now) ==> n.Some? && k <= n.value)
  }

  lemma NewestIsUnique(codes: seq<Code>, value: string, p: Purpose, now: Time, n: Option<nat>)
    requires IsNewest(codes, value, p, now, n)
    ensures NewestUsable(codes, value, p, now) == n
  {
    NewestIsUsable(codes, value, p, now);
  }

  /** As time passes the slot only expires. */
  lemma SlotExpires(st: State, value: string, p: Purpose, now: Time)
    requires Valid(st) && st.clock <= now
    ensures SlotOf(st.codes, value, p, now) == Live(SlotOf(st.codes, value, p, st.clock), now)
  {
    NewestIsUsable(st.codes, value, p, st.clock);
    NewestIsUsable(st.codes, value, p, now);
  }

  lemma IssueFillsSlot(st: State, step: Step, value: string, p: Purpose)
    requires Valid(st) && Allowed(st, step) && step.Issue? && ForKey(step, value, p)
    ensures SlotOf(Apply(st, step).codes, value, p, step.now) == SlotAfter(None, step, value, p)
  {
    var codes := Apply(st, step).codes;
    NewestIsUnique(codes, value, p, step.now, if step.ttl > 0 then Some(|st.codes|) else None);
  }

  lemma IssueElsewhere(st: State, step: Step, value: string, p: Purpose)
    requires step.Issue? && !ForKey(step, value, p)
    ensures SlotOf(Apply(st, step).codes, value, p, step.now) == SlotOf(st.codes, value, p, step.now)
  {
    NewestIsUsable(st.codes, value, p, step.now);
    NewestIsUnique(Apply(st, step).codes, value, p, step.now, NewestUsable(st.codes, value, p, step.now));
  }

  lemma VerifyElsewhere(st: State, step: Step, value: string, p: Purpose)
    requires step.Verify? && !ForKey(step, value, p)
    ensures SlotOf(Apply(st, step).codes, value, p, step.now) == SlotOf(st.codes, value, p, step.now)
  {
    NewestIsUsable(st.codes, step.identifier.value, step.purpose, step.now);
    NewestIsUsable(st.codes, value, p, step.now);
    NewestIsUnique(Apply(st, step).codes, value, p, step.now, NewestUsable(st.codes, value, p, step.now));
  }

  lemma VerifyUsesSlot(st: State, step: Step, value: string, p: Purpose)
    requires Valid(st) && Allowed(st, step) && step.Verify? && ForKey(step, value, p)
    ensures var slot := SlotOf(st.codes, value, p, step.now);
      && SlotOf(Apply(st, step).codes, value, p, step.now) ==
        (if slot.Some? then Guessed(slot.value, Message(step.identifier, p, step.code)) else None)
      && Verdict(st.codes, EventOf(st, step)) == SlotAnswer(slot, step.identifier, p, step.code, step.now)
  {
    var n := NewestUsable(st.codes, value, p, step.now);
    NewestIsUsable(st.codes, value, p, step.now);
    var codes := Apply(st, step).codes;
    if n.Some? {
      assert st.codes[n.value].attempts < st.codes[n.value].maxAttempts;
      OthersAreSpent(st, n.value, value, p, step.now);
      NewestIsUnique(codes, value, p, step.now, if Usable(codes[n.value], step.now) then n else None);
    }
  }

  lemma OthersAreSpent(st: State, n: nat, value: string, p: Purpose, now: Time)
    requires Valid(st) && st.clock <= now && n < |st.codes| && HasKey(st.codes[n], value, p) && Usable(st.codes[n], now)
    ensures forall k :: 0 <= k < |st.codes| && k != n && HasKey(st.codes[k], value, p) ==> !Usable(st.codes[k], now)
  {
    forall k | 0 <= k < |st.codes| && k != n && HasKey(st.codes[k], value, p) ensures !Usable(st.codes[k], now) {
      OneUsableCodePerKey(st, n, k, now);
    }
  }

  lemma MergeRenamesSlot(st: State, step: Step, value: string, p: Purpose)
    requires step.Merge?
    ensures var slot := SlotOf(st.codes, value, p, step.now);
      SlotOf(Apply(st, step).codes, value, p, step.now) ==
        if slot.Some? then Some(slot.value.(customer := Renamed(slot.value.customer, step.source, step.target)))
        else None
  {
    NewestIsUsable(st.codes, value, p, step.now);
    NewestIsUnique(Apply(st, step).codes, value, p, step.now, NewestUsable(st.codes, value, p, step.now));
  }

  /** Every step of the table is the same step of every key's slot. */
  lemma StepRefinesSlot(st: State, step: Step, value: string, p: Purpose)
    requires Valid(st) && Allowed(st, step)
    ensures SlotOf(Apply(st, step).codes, value, p, step.now) ==
      SlotAfter(SlotOf(st.codes, value, p, st.clock), step, value, p)
  {
    SlotExpires(st, value, p, step.now);
    match step {
      case Issue(_, _, _, _, _, _, _) =>
        if ForKey(step, value, p) { IssueFillsSlot(st, step, value, p); } else { IssueElsewhere(st, step, value, p); }
      case Verify(_, _, _, _) =>
        if ForKey(step, value, p) { VerifyUsesSlot(st, step, value, p); } else { VerifyElsewhere(st, step, value, p); }
      case Merge(_, _, _) => MergeRenamesSlot(st, step, value, p);
    }
  }

  /** Over every run, the table with all its old rows behaves for each key as one slot ... */
  lemma {:induction false} RunRefinesSlot(st: State, steps: seq<Step>, value: string, p: Purpose)
    requires Valid(st) && AllAllowed(st, steps)
    ensures var st' := Run(st, steps);
      SlotOf(st'.codes, value, p, st'.clock) == SlotRun(SlotOf(st.codes, value, p, st.clock), steps, value, p)
    decreases |steps|
  {
    if steps != [] {
      StepKeepsValid(st, steps[0]);
      StepRefinesSlot(st, steps[0], value, p);
      RunRefinesSlot(Apply(st, steps[0]), steps[1..], value, p);
    }
  }

  /**
   * ... and answers every verification as the slot would: with the
   * customer of the code issued last, as merged since.
   */
  lemma VerdictRefinesSlot(st: State, steps: seq<Step>, i: Identifier, p: Purpose, code: string, now: Time)
    requires Valid(st) && AllAllowed(st, steps) && Run(st, steps).clock <= now
    ensures var codes := Run(st, steps).codes;
      Verdict(codes, VerifyEvent(codes, i, p, code, now)) ==
        SlotAnswer(SlotRun(SlotOf(st.codes, i.value, p, st.clock), steps, i.value, p), i, p, code, now)
  {
    var st' := Run(st, steps);
    RunKeepsValid(st, steps);
    RunRefinesSlot(st, steps, i.value, p);
    SlotExpires(st', i.value, p, now);
    VerifyUsesSlot(st', Verify(i, p, code, now), i.value, p);
  }

  /**
   * A hash binds a code to its kind, value and purpose: for the same
   * key two messages agree only if kind and code do.
   */
  lemma MessagesAgree(a: Identifier, b: Identifier, p: Purpose, x: string, y: string)
    requires a.value == b.value
    ensures Message(a, p, x) == Message(b, p, y) <==> a.kind == b.kind && x == y
  {
    var m, n := Message(a, p, x), Message(b, p, y);
    assert m[0] == (if a.kind == Phone then 'P' else 'E') && n[0] == (if b.kind == Phone then 'P' else 'E');
    var head := KindName(a.kind) + ":" + a.value + ":" + PurposeName(p) + ":";
    assert m[|head|..] == x && n[|head|..] == y;
  }

  /**
   * The code just issued is accepted, for its customer, at any time before it expires, while any other
   * code, or the other kind of identifier, is refused.
   */
  lemma IssuedCodeIsAccepted(st: State, issue: Step, b: Identifier, code: string, now: Time)
    requires Valid(st) && Allowed(st, issue) && issue.Issue? && issue.now <= now && b.value == issue.identifier.value
    ensures var codes := Apply(st, issue).codes;
      Verdict(codes, VerifyEvent(codes, b, issue.purpose, code, now)) ==
        if now < issue.now + issue.ttl && b == issue.identifier && code == issue.code then Ok(issue.customer)
        else Err(Unauthorized)
  {
    assert Run(Apply(st, issue), []) == Apply(st, issue);
    assert Run(st, [issue]) == Apply(st, issue);
    VerdictRefinesSlot(st, [issue], b, issue.purpose, code, now);
    MessagesAgree(issue.identifier, b, issue.purpose, issue.code, code);
  }

  // ---------------------------------------------------------------- the service

  class OtpService {
    const limiter: OtpRateLimiter
    const ttl: Time
    const maxAttempts: int
    var codes: seq<Code>

    constructor (cfg: Config, ttl: Time, maxAttempts: int)
      ensures this.ttl == ttl && this.maxAttempts == maxAttempts && codes == [] && limiter.cfg == cfg
      ensures fresh(limiter) && fresh(limiter.redis) && limiter.redis.store == map[]
    {
      this.ttl, this.maxAttempts := ttl, maxAttempts;
      limiter := new OtpRateLimiter(cfg);
      codes := [];
    }

    /** `code` is the generated one. A refused request counts against the limits and leaves the table alone. */
    method Issue(i: Identifier, p: Purpose, customer: Option<Id>, ip: Option<string>, code: string, now: Time)
      returns (expiresAt: Result<Time>)
      modifies this, limiter.redis
      ensures var (store, verdict) := Enforced(limiter.cfg, old(limiter.redis.store), Request(p, i.value, ip, now));
        && limiter.redis.store == store
        && expiresAt == (if verdict.Ok? then Ok(now + ttl) else Err(verdict.error))
        && codes == (if verdict.Ok? then Issued(old(codes), i, p, customer, code, now, ttl, maxAttempts)
          else old(codes))
    {
      var verdict := limiter.EnforceRateLimits(Request(p, i.value, ip, now));
      if verdict.Err? { return Err(verdict.error); }
      RetirePending(i.value, p, now);
      codes := codes + [Code(i.value, p, Message(i, p, code), customer, 0, maxAttempts, now + ttl, None)];
      expiresAt := Ok(now + ttl);
    }

    /** The `updateMany` of `issue`. */
    method RetirePending(value: string, p: Purpose, now: Time)
      modifies this
      ensures |codes| == |old(codes)|
      ensures forall k :: 0 <= k < |codes| ==> codes[k] == old(
        if HasKey(codes[k], value, p) && Usable(codes[k], now) then codes[k].(consumedAt := Some(now)) else codes[k])
    {
      for n := 0 to |codes|
        invariant |codes| == |old(codes)|
        invariant forall k :: n <= k < |codes| ==> codes[k] == old(codes[k])
        invariant forall k :: 0 <= k < n ==> codes[k] == old(
          if HasKey(codes[k], value, p) && Usable(codes[k], now) then codes[k].(consumedAt := Some(now)) else codes[k])
      {
        if HasKey(codes[n], value, p) && Usable(codes[n], now) {
          codes := codes[n := codes[n].(consumedAt := Some(now))];
        }
      }
    }

    method Consume(n: nat, now: Time)
      requires n < |codes|
      modifies this
      ensures codes == old(codes)[n := old(codes)[n].(consumedAt := Some(now))]
    {
      codes := codes[n := codes[n].(consumedAt := Some(now))];
    }

    method Verify(i: Identifier, p: Purpose, code: string, now: Time) returns (customer: Result<Option<Id>>)
      modifies this
      ensures var e := VerifyEvent(old(codes), i, p, code, now);
        codes == AfterEvent(old(codes), e, now) && customer == Verdict(old(codes), e)
    {
      var newest := NewestUsable(codes, i.value, p, now);
      if newest.None? { return Err(Unauthorized); }
      var n := newest.value;
      NewestIsUsable(codes, i.value, p, now);
      var record := codes[n];
      if record.attempts >= record.maxAttempts {
        Consume(n, now);
        return Err(Unauthorized);
      }
      if record.hash != Message(i, p, code) {
        codes := codes[n := record.(attempts := record.attempts + 1)];
        if codes[n].attempts >= codes[n].maxAttempts { Consume(n, now); }
        return Err(Unauthorized);
      }
      Consume(n, now);
      customer := Ok(record.customer);
    }
  }
}

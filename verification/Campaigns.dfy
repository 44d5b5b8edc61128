/**
 * Push campaigns: the status of a notification under any number of concurrent senders, dispatchers and admin
 * edits. A sender is split where the original is atomic: it claims a row with one conditional update, delivers,
 * and writes the outcome; everything else may happen in between.
 */
module Campaigns {
  import opened Schema
  import opened Delivery

  datatype CampaignStatus = Draft | Scheduled | Sending | Sent | Failed | Cancelled

  datatype Kind = ToAll | ToSegment | ToCustomer

  /** The audience columns of a row; `segment` and `customer` matter only for their own kind. */
  datatype Columns = Columns(kind: Kind, segment: Option<Segment>, customer: Option<Id>)

  datatype Row = Row(status: CampaignStatus, scheduledAt: Option<Time>, columns: Columns, counts: Option<Counts>)

  /** An edit: absent columns keep their value. */
  datatype Patch = Patch(kind: Option<Kind>, segment: Option<Segment>, customer: Option<Id>, scheduledAt: Option<Time>)

  type Rows = map<Id, Row>

  function AudienceOf(c: Columns): Audience {
    match c.kind case ToAll => All case ToSegment => BySegment(c.segment) case ToCustomer => ByCustomer(c.customer)
  }

  /** Whom a campaign is for, read off its columns and the customer's. */
  ghost predicate MeantFor(c: Columns, id: Id, who: Customer, now: Time) {
    && who.status == Active
    && (c.kind == ToCustomer ==> c.customer == Some(id))
    && (c.kind == ToSegment && c.segment == Some(AbandonedCart) ==>
         who.cartUpdatedAt.Some? && now - who.cartUpdatedAt.value > 86400000)
    && (c.kind == ToSegment && c.segment == Some(HasWishlist) ==> who.hasWishlist)
    && (c.kind == ToSegment && c.segment == Some(Inactive30d) && who.lastLoginAt.Some? ==>
         now - who.lastLoginAt.value > 2592000000)
    && (c.kind == ToSegment && c.segment == Some(NewLast7d) ==> now - who.createdAt <= 604800000)
  }

  /** The targets are the devices of just the customers the campaign is for, each with its token and owner. */
  ghost predicate ReachesIntended(
    targets: seq<Target>, devices: map<Id, Device>, customers: map<Id, Customer>, c: Columns, now: Time)
  {
    && FromDevices(targets, devices)
    && forall d :: HasTarget(targets, d) <==>
         d in devices && devices[d].customer in customers
         && MeantFor(c, devices[d].customer, customers[devices[d].customer], now)
  }

  /** An audience that misses its segment or its customer is refused; of any other the intended are selected. */
  lemma SelectedAreIntended(devices: map<Id, Device>, customers: map<Id, Customer>, c: Columns, now: Time)
    ensures WellShaped(AudienceOf(c)) <==>
      (c.kind == ToSegment ==> c.segment.Some?) && (c.kind == ToCustomer ==> c.customer.Some?)
    ensures WellShaped(AudienceOf(c)) ==> forall d :: d in Selected(devices, customers, AudienceOf(c), now) <==>
      d in devices && devices[d].customer in customers
      && MeantFor(c, devices[d].customer, customers[devices[d].customer], now)
  {}

  function Or<T>(patch: Option<T>, before: T): T { if patch.Some? then patch.value else before }

  function Patched(c: Columns, p: Patch): Columns {
    Columns(Or(p.kind, c.kind), if p.segment.Some? then p.segment else c.segment,
      if p.customer.Some? then p.customer else c.customer)
  }

  predicate Editable(rows: Rows, id: Id) {
    id in rows && (rows[id].status == Draft || rows[id].status == Scheduled)
  }

  // ---------------------------------------------------------------- requests on one row

  predicate Creates(c: Columns, at: Option<Time>, now: Time) {
    WellShaped(AudienceOf(c)) && (at.Some? ==> at.value > now)
  }

  function Fresh(c: Columns, at: Option<Time>): Row {
    Row(if at.Some? then Scheduled else Draft, at, c, None)
  }

  predicate Updates(rows: Rows, id: Id, p: Patch) {
    Editable(rows, id) && WellShaped(AudienceOf(Patched(rows[id].columns, p)))
  }

  /** `update` checks no time against the clock; giving one schedules the row. */
  function Updated(rows: Rows, id: Id, p: Patch): Rows
    requires id in rows
  {
    var row := rows[id];
    rows[id := row.(
      columns := Patched(row.columns, p),
      scheduledAt := if p.scheduledAt.Some? then p.scheduledAt else row.scheduledAt,
      status := if p.scheduledAt.Some? then Scheduled else row.status)]
  }

  function WithStatus(rows: Rows, id: Id, status: CampaignStatus): Rows
    requires id in rows
  {
    rows[id := rows[id].(status := status)]
  }

  /** The end of a delivery: SENT with its counts, or FAILED if it threw. A row deleted meanwhile stays deleted. */
  function Finished(rows: Rows, id: Id, outcome: Option<Counts>): Rows {
    if id !in rows then rows
    else
      rows[id := rows[id].(
        status := if outcome.Some? then Sent else Failed,
        counts := if outcome.Some? then outcome else rows[id].counts)]
  }

  // ---------------------------------------------------------------- what is due

  predicate Due(rows: Rows, id: Id, now: Time) {
    id in rows && rows[id].status == Scheduled && rows[id].scheduledAt.Some? && rows[id].scheduledAt.value <= now
  }

  /** The scheduled time of a scheduled row. */
  function When(rows: Rows, id: Id): Time {
    if id in rows && rows[id].scheduledAt.Some? then rows[id].scheduledAt.value else 0
  }

  const BATCH := 20

  /** A correct answer to the dispatcher's query: the oldest due rows, at most 20, oldest first. */
  ghost predicate DueAnswer(rows: Rows, due: seq<Id>, now: Time) {
    && |due| <= BATCH
    && (forall i :: 0 <= i < |due| ==> Due(rows, due[i], now))
    && Distinct(due)
    && (forall i, j :: 0 <= i < j < |due| ==> When(rows, due[i]) <= When(rows, due[j]))
    && (forall id :: Due(rows, id, now) && id !in due ==>
         |due| == BATCH && forall i :: 0 <= i < |due| ==> When(rows, due[i]) <= When(rows, id))
  }

  // ---------------------------------------------------------------- concurrent steps

  /** A running `send` or `dispatchDue`: the rows it still has to try, and the one it has claimed. */
  datatype Process = Process(queue: seq<Id>, sending: Option<Id>)

  datatype State = State(rows: Rows, next: Id, processes: map<nat, Process>)

  datatype Step =
    | Create(columns: Columns, at: Option<Time>, now: Time)
    | Update(id: Id, patch: Patch)
    | Cancel(id: Id)
    | Remove(id: Id)
    | StartSend(pid: nat, id: Id)
    | StartDispatch(pid: nat, due: seq<Id>)
    | Claim(pid: nat)
    | Finish(pid: nat, outcome: Option<Counts>)

  predicate CanClaim(st: State, pid: nat) {
    pid in st.processes && st.processes[pid].sending.None? && st.processes[pid].queue != []
  }

  /** The row a step moves to SENDING, if any. */
  function Claimed(st: State, step: Step): Option<Id> {
    if step.Claim? && CanClaim(st, step.pid) && Editable(st.rows, st.processes[step.pid].queue[0])
    then Some(st.processes[step.pid].queue[0]) else None
  }

  /** Rejected requests change nothing. */
  function Apply(st: State, step: Step): State {
    match step
    case Create(c, at, now) =>
      if Creates(c, at, now) then st.(rows := st.rows[st.next := Fresh(c, at)], next := st.next + 1) else st
    case Update(id, p) => if Updates(st.rows, id, p) then st.(rows := Updated(st.rows, id, p)) else st
    case Cancel(id) => if Editable(st.rows, id) then st.(rows := WithStatus(st.rows, id, Cancelled)) else st
    case Remove(id) => if id in st.rows && st.rows[id].status != Sent then st.(rows := st.rows - {id}) else st
    case StartSend(pid, id) => Started(st, pid, [id])
    case StartDispatch(pid, due) => Started(st, pid, due)
    case Claim(pid) =>
      if !CanClaim(st, pid) then st
      else
        var claimed, rest := Claimed(st, step), st.processes[pid].queue[1..];
        st.(processes := st.processes[pid := Process(rest, claimed)],
            rows := if claimed.Some? then WithStatus(st.rows, claimed.value, Sending) else st.rows)
    case Finish(pid, outcome) =>
      if pid !in st.processes || st.processes[pid].sending.None? then st
      else
        st.(processes := st.processes[pid := st.processes[pid].(sending := None)],
            rows := Finished(st.rows, st.processes[pid].sending.value, outcome))
  }

  function Started(st: State, pid: nat, queue: seq<Id>): State {
    if pid in st.processes then st else st.(processes := st.processes[pid := Process(queue, None)])
  }

  function Run(st: State, steps: seq<Step>): State
    decreases |steps|
  {
    if steps == [] then st else Run(Apply(st, steps[0]), steps[1..])
  }

  const START := State(map[], 0, map[])

  // ---------------------------------------------------------------- the invariant

  predicate Sends(st: State, pid: nat, id: Id) {
    pid in st.processes && st.processes[pid].sending == Some(id)
  }

  /** Ids are never reused, and a row is SENDING exactly while one process has it claimed. */
  ghost predicate Valid(st: State) {
    && (forall id :: id in st.rows ==> id < st.next && WellShaped(AudienceOf(st.rows[id].columns)))
    && (forall pid, id: Id :: Sends(st, pid, id) ==> id < st.next && (id in st.rows ==> st.rows[id].status == Sending))
    && (forall p, q, id :: Sends(st, p, id) && Sends(st, q, id) ==> p == q)
    && (forall id :: id in st.rows && st.rows[id].status == Sending ==> exists pid :: Sends(st, pid, id))
  }

  lemma EditKeepsValid(st: State, step: Step)
    requires Valid(st) && (step.Create? || step.Update? || step.Cancel? || step.Remove?)
    ensures Valid(Apply(st, step))
  {
    var st' := Apply(st, step);
    assert forall pid, id :: Sends(st', pid, id) <==> Sends(st, pid, id);
  }

  lemma StartKeepsValid(st: State, step: Step)
    requires Valid(st) && (step.StartSend? || step.StartDispatch?)
    ensures Valid(Apply(st, step))
  {
    var st' := Apply(st, step);
    assert forall pid, id :: Sends(st', pid, id) <==> Sends(st, pid, id);
  }

  lemma ClaimKeepsValid(st: State, step: Step)
    requires Valid(st) && step.Claim?
    ensures Valid(Apply(st, step))
  {
    var st' := Apply(st, step);
    assert forall pid, id :: pid != step.pid ==> (Sends(st', pid, id) <==> Sends(st, pid, id));
    if CanClaim(st, step.pid) {
      assert forall id :: !Sends(st, step.pid, id);
      assert forall id: Id :: Sends(st', step.pid, id) <==> Claimed(st, step) == Some(id);
    }
  }

  lemma FinishKeepsValid(st: State, step: Step)
    requires Valid(st) && step.Finish?
    ensures Valid(Apply(st, step))
  {
    var st' := Apply(st, step);
    assert forall pid, id :: pid != step.pid ==> (Sends(st', pid, id) <==> Sends(st, pid, id));
    if step.pid in st.processes && st.processes[step.pid].sending.Some? {
      assert Sends(st, step.pid, st.processes[step.pid].sending.value);
      assert forall id :: !Sends(st', step.pid, id);
    }
  }

  lemma StepKeepsValid(st: State, step: Step)
    requires Valid(st)
    ensures Valid(Apply(st, step))
  {
    match step {
      case StartSend(_, _) => StartKeepsValid(st, step);
      case StartDispatch(_, _) => StartKeepsValid(st, step);
      case Claim(_) => ClaimKeepsValid(st, step);
      case Finish(_, _) => FinishKeepsValid(st, step);
      case _ => EditKeepsValid(st, step);
    }
  }

  lemma {:induction false} RunKeepsValid(st: State, steps: seq<Step>)
    requires Valid(st)
    ensures Valid(Run(st, steps))
    decreases |steps|
  {
    if steps != [] {
      StepKeepsValid(st, steps[0]);
      RunKeepsValid(Apply(st, steps[0]), steps[1..]);
    }
  }

  // ---------------------------------------------------------------- at most once

  function Claims(st: State, steps: seq<Step>, id: Id): nat
    decreases |steps|
  {
    if steps == [] then 0
    else (if Claimed(st, steps[0]) == Some(id) then 1 else 0) + Claims(Apply(st, steps[0]), steps[1..], id)
  }

  predicate WasClaimed(row: Row) {
    row.status == Sending || row.status == Sent || row.status == Failed
  }

  /**
   * What one step does to one existing row: a claim from an editable
   * status, the end of a sending, an edit, a removal.
   */
  lemma StepOnRow(st: State, step: Step, id: Id)
    requires Valid(st) && id in st.rows
    ensures var st', row := Apply(st, step), st.rows[id];
      && (Claimed(st, step) == Some(id) ==>
           Editable(st.rows, id) && id in st'.rows && st'.rows[id] == row.(status := Sending))
      && (Claimed(st, step) != Some(id) && id in st'.rows ==> WasClaimed(st'.rows[id]) == WasClaimed(row))
      && (row.status == Sent ==> id in st'.rows)
      && (row.status in {Sent, Failed, Cancelled} && id in st'.rows ==> st'.rows[id] == row)
      && st.next <= st'.next
  {
    if step.Finish? && step.pid in st.processes && st.processes[step.pid].sending.Some? {
      assert Sends(st, step.pid, st.processes[step.pid].sending.value);
    }
  }

  /** An id that is not in use is not claimed, and a used one never comes back after its removal. */
  lemma StepOffRow(st: State, step: Step, id: Id)
    requires Valid(st) && id !in st.rows
    ensures var st' := Apply(st, step);
      && Claimed(st, step) != Some(id)
      && (id < st.next ==> id !in st'.rows && id < st'.next)
      && (id in st'.rows ==> !WasClaimed(st'.rows[id]))
  {}

  /**
   * However sends, dispatches and edits interleave, each notification is claimed at most once, and not at all
   * when it is no longer editable or was removed.
   */
  lemma {:induction false} ClaimedAtMostOnce(st: State, steps: seq<Step>, id: Id)
    requires Valid(st)
    ensures Claims(st, steps, id) <= 1
    ensures id < st.next && !Editable(st.rows, id) ==> Claims(st, steps, id) == 0
    decreases |steps|
  {
    if steps != [] {
      var st' := Apply(st, steps[0]);
      StepKeepsValid(st, steps[0]);
      ClaimedAtMostOnce(st', steps[1..], id);
      if id in st.rows {
        StepOnRow(st, steps[0], id);
        if !Editable(st.rows, id) { NotEditableStays(st, steps[0], id); }
      } else {
        StepOffRow(st, steps[0], id);
      }
    }
  }

  lemma NotEditableStays(st: State, step: Step, id: Id)
    requires Valid(st) && id in st.rows && !Editable(st.rows, id)
    ensures !Editable(Apply(st, step).rows, id)
  {
    StepOnRow(st, step, id);
  }

  function ClaimedOnce(rows: Rows, id: Id): nat {
    if id in rows && WasClaimed(rows[id]) then 1 else 0
  }

  /**
   * A row that is still there records exactly how often it was claimed:
   * once if it is SENDING, SENT or FAILED, else never.
   */
  lemma {:induction false} StatusTellsClaims(st: State, steps: seq<Step>, id: Id)
    requires Valid(st) && id in Run(st, steps).rows && (id in st.rows || st.next <= id)
    ensures ClaimedOnce(st.rows, id) + Claims(st, steps, id) == ClaimedOnce(Run(st, steps).rows, id)
    decreases |steps|
  {
    if steps != [] {
      var st' := Apply(st, steps[0]);
      StepKeepsValid(st, steps[0]);
      if id !in st'.rows && id < st'.next { GoneForGood(st', steps[1..], id); }
      if id in st.rows { StepOnRow(st, steps[0], id); } else { StepOffRow(st, steps[0], id); }
      StatusTellsClaims(st', steps[1..], id);
    }
  }

  lemma {:induction false} GoneForGood(st: State, steps: seq<Step>, id: Id)
    requires Valid(st) && id !in st.rows && id < st.next
    ensures id !in Run(st, steps).rows
    decreases |steps|
  {
    if steps != [] {
      StepKeepsValid(st, steps[0]);
      StepOffRow(st, steps[0], id);
      GoneForGood(Apply(st, steps[0]), steps[1..], id);
    }
  }

  /** SENT, FAILED and CANCELLED are final: the whole row stays as it is, and only the last two can still be deleted. */
  lemma {:induction false} FinalRowsStay(st: State, steps: seq<Step>, id: Id)
    requires Valid(st) && id in st.rows && st.rows[id].status in {Sent, Failed, Cancelled}
    ensures id in Run(st, steps).rows ==> Run(st, steps).rows[id] == st.rows[id]
    ensures st.rows[id].status == Sent ==> id in Run(st, steps).rows
    decreases |steps|
  {
    if steps != [] {
      var st' := Apply(st, steps[0]);
      StepKeepsValid(st, steps[0]);
      StepOnRow(st, steps[0], id);
      if id in st'.rows { FinalRowsStay(st', steps[1..], id); }
      else { assert id < st'.next; GoneForGood(st', steps[1..], id); }
    }
  }

  /** Once no process is sending, every notification a run claimed and nobody deleted is SENT or FAILED. */
  lemma ClaimsEnd(steps: seq<Step>, id: Id)
    requires var st := Run(START, steps); id in st.rows && forall pid, i: Id :: !Sends(st, pid, i)
    ensures var st := Run(START, steps);
      Claims(START, steps, id) == (if st.rows[id].status == Sent || st.rows[id].status == Failed then 1 else 0)
  {
    RunKeepsValid(START, steps);
    StatusTellsClaims(START, steps, id);
  }

  /** The outcome of a delivery reaches its row unless the row was deleted meanwhile. */
  lemma OutcomeIsRecorded(st: State, pid: nat, outcome: Option<Counts>, id: Id)
    requires Valid(st) && Sends(st, pid, id)
    ensures var st' := Apply(st, Finish(pid, outcome));
      && (id in st'.rows <==> id in st.rows)
      && (id in st.rows ==>
           && st.rows[id].status == Sending
           && st'.rows[id].status == (if outcome.Some? then Sent else Failed)
           && (outcome.Some? ==> st'.rows[id].counts == outcome))
      && forall p :: !Sends(st', p, id)
  {
    var st' := Apply(st, Finish(pid, outcome));
    assert forall p :: p != pid ==> (Sends(st', p, id) <==> Sends(st, p, id));
  }

  // ---------------------------------------------------------------- is what a dispatcher sends due?

  /** The step gives the row a new time. */
  predicate Reschedules(st: State, step: Step, id: Id) {
    step.Update? && step.id == id && step.patch.scheduledAt.Some? && Updates(st.rows, id, step.patch)
  }

  /** The time the accepted edits of a run leave with a row. */
  function Rescheduled(st: State, at: Option<Time>, steps: seq<Step>, id: Id): Option<Time>
    decreases |steps|
  {
    if steps == [] then at
    else Rescheduled(Apply(st, steps[0]), if Reschedules(st, steps[0], id) then steps[0].patch.scheduledAt else at,
      steps[1..], id)
  }

  /**
   * A dispatcher claims from a list it read earlier, and the claim looks only at the status. So what it sends is
   * still due by the time of the listing if and only if the last accepted edit of its time, if any, left it due.
   */
  lemma DispatchedIsDueIff(st: State, steps: seq<Step>, id: Id, now: Time)
    requires Valid(st) && Due(st.rows, id, now) && Editable(Run(st, steps).rows, id)
    ensures var at := Rescheduled(st, st.rows[id].scheduledAt, steps, id);
      Due(Run(st, steps).rows, id, now) <==> at.Some? && at.value <= now
  {
    ScheduleFollowsEdits(st, steps, id);
  }

  lemma {:induction false} ScheduleFollowsEdits(st: State, steps: seq<Step>, id: Id)
    requires Valid(st) && id in st.rows && st.rows[id].status == Scheduled && Editable(Run(st, steps).rows, id)
    ensures var row := Run(st, steps).rows[id];
      row.status == Scheduled && row.scheduledAt == Rescheduled(st, st.rows[id].scheduledAt, steps, id)
    decreases |steps|
  {
    if steps != [] {
      var st' := Apply(st, steps[0]);
      StepKeepsValid(st, steps[0]);
      StepOnRow(st, steps[0], id);
      if id !in st'.rows { GoneForGood(st', steps[1..], id); }
      else if !Editable(st'.rows, id) { NeverEditableAgain(st', steps[1..], id); }
      ScheduledStep(st, steps[0], id);
      ScheduleFollowsEdits(st', steps[1..], id);
    }
  }

  lemma ScheduledStep(st: State, step: Step, id: Id)
    requires Valid(st) && id in st.rows && st.rows[id].status == Scheduled
    requires Editable(Apply(st, step).rows, id)
    ensures var row := Apply(st, step).rows[id];
      && row.status == Scheduled
      && row.scheduledAt == (if Reschedules(st, step, id) then step.patch.scheduledAt else st.rows[id].scheduledAt)
  {
    if step.Finish? && step.pid in st.processes && st.processes[step.pid].sending.Some? {
      assert Sends(st, step.pid, st.processes[step.pid].sending.value);
    }
  }

  lemma {:induction false} NeverEditableAgain(st: State, steps: seq<Step>, id: Id)
    requires Valid(st) && id in st.rows && !Editable(st.rows, id)
    ensures !Editable(Run(st, steps).rows, id)
    decreases |steps|
  {
    if steps != [] {
      var st' := Apply(st, steps[0]);
      StepKeepsValid(st, steps[0]);
      StepOnRow(st, steps[0], id);
      NotEditableStays(st, steps[0], id);
      if id in st'.rows { NeverEditableAgain(st', steps[1..], id); } else { GoneForGood(st', steps[1..], id); }
    }
  }

  /** A campaign listed as due at time 10 and then moved to time 100 is sent all the same, at time 10. */
  lemma RescheduledIsSentEarly()
    ensures var columns := Columns(ToAll, None, None);
      var listed := Run(START, [Create(columns, Some(5), 0)]);
      var st := Run(listed, [StartDispatch(1, [0]), Update(0, Patch(None, None, None, Some(100))), Claim(1)]);
      && DueAnswer(listed.rows, [0], 10)
      && Sends(st, 1, 0) && st.rows[0].status == Sending && st.rows[0].scheduledAt == Some(100)
  {
    var columns := Columns(ToAll, None, None);
    var st1 := Apply(START, Create(columns, Some(5), 0));
    assert Run(START, [Create(columns, Some(5), 0)]) == st1;
    var patch := Patch(None, None, None, Some(100));
    var st2 := Apply(st1, StartDispatch(1, [0]));
    var st3 := Apply(st2, Update(0, patch));
    var st4 := Apply(st3, Claim(1));
    assert Run(st3, [Claim(1)]) == st4;
    assert [Update(0, patch), Claim(1)][1..] == [Claim(1)];
    assert Run(st2, [Update(0, patch), Claim(1)]) == st4;
    assert [StartDispatch(1, [0]), Update(0, patch), Claim(1)][1..] == [Update(0, patch), Claim(1)];
  }

  // ---------------------------------------------------------------- the services

  /** The notification table with the requests on it, run one at a time. */
  class NotificationsService {
    var rows: Rows
    var next: Id
    const delivery: PushDelivery

    ghost predicate Valid()
      reads this, delivery
    {
      && delivery.Valid()
      && forall id :: id in rows ==> id < next && WellShaped(AudienceOf(rows[id].columns))
    }

    constructor (batchSize: nat)
      requires batchSize >= 1
      ensures Valid() && rows == map[] && fresh(delivery) && delivery.devices == map[] && delivery.failureRows == []
    {
      rows, next := map[], 0;
      delivery := new PushDelivery(batchSize);
    }

    method Create(c: Columns, at: Option<Time>, now: Time) returns (id: Result<Id>)
      requires Valid()
      modifies this
      ensures Valid()
      ensures if Creates(c, at, now)
        then id == Ok(old(next)) && old(next) !in old(rows) && rows == old(rows)[old(next) := Fresh(c, at)]
          && next == old(next) + 1
        else id == Err(BadRequest) && rows == old(rows) && next == old(next)
    {
      if !WellShaped(AudienceOf(c)) { return Err(BadRequest); }
      if at.Some? && at.value <= now { return Err(BadRequest); }
      rows, id, next := rows[next := Fresh(c, at)], Ok(next), next + 1;
    }

    method MustBeEditable(id: Id) returns (row: Result<Row>)
      ensures Editable(rows, id) ==> row == Ok(rows[id])
      ensures !Editable(rows, id) ==> row == Err(if id in rows then BadRequest else NotFound)
    {
      if id !in rows { return Err(NotFound); }
      if rows[id].status != Draft && rows[id].status != Scheduled { return Err(BadRequest); }
      row := Ok(rows[id]);
    }

    method Update(id: Id, p: Patch) returns (done: Result<()>)
      requires Valid()
      modifies `rows
      ensures Valid()
      ensures done == if Updates(old(rows), id, p) then Ok(())
        else Err(if id in old(rows) then BadRequest else NotFound)
      ensures rows == if Updates(old(rows), id, p) then Updated(old(rows), id, p) else old(rows)
    {
      var before := MustBeEditable(id);
      if before.Err? { return Err(before.error); }
      if !WellShaped(AudienceOf(Patched(before.value.columns, p))) { return Err(BadRequest); }
      rows := Updated(rows, id, p);
      done := Ok(());
    }

    method Cancel(id: Id) returns (done: Result<()>)
      requires Valid()
      modifies `rows
      ensures Valid()
      ensures done == if Editable(old(rows), id) then Ok(()) else Err(if id in old(rows) then BadRequest else NotFound)
      ensures rows == if Editable(old(rows), id) then WithStatus(old(rows), id, Cancelled) else old(rows)
    {
      var before := MustBeEditable(id);
      if before.Err? { return Err(before.error); }
      rows := WithStatus(rows, id, Cancelled);
      done := Ok(());
    }

    method Remove(id: Id) returns (done: Result<()>)
      requires Valid()
      modifies `rows
      ensures Valid()
      ensures var removes := id in old(rows) && old(rows)[id].status != Sent;
        && rows == (if removes then old(rows) - {id} else old(rows))
        && done == (if removes then Ok(()) else Err(if id in old(rows) then BadRequest else NotFound))
    {
      if id !in rows { return Err(NotFound); }
      if rows[id].status == Sent { return Err(BadRequest); }
      rows := rows - {id};
      done := Ok(());
    }

    /** The conditional update both senders rely on. */
    method Claim(id: Id) returns (count: nat)
      modifies `rows
      ensures count == if Editable(old(rows), id) then 1 else 0
      ensures rows == if Editable(old(rows), id) then WithStatus(old(rows), id, Sending) else old(rows)
    {
      count := 0;
      if id in rows && (rows[id].status == Draft || rows[id].status == Scheduled) {
        rows, count := WithStatus(rows, id, Sending), 1;
      }
    }

    /**
     * A send nothing interferes with. Where the original throws after the claim - a failing sender or a refused write -
     * it leaves FAILED, and what was stored before stays.
     */
    method Send(id: Id, customers: map<Id, Customer>, now: Time, push: Push, fault: Fault)
      returns (targets: seq<Target>, result: Result<Counts>)
      requires Valid()
      modifies `rows, delivery
      ensures Valid()
      ensures !Editable(old(rows), id) ==>
        && result == Err(BadRequest) && rows == old(rows) && delivery.Tables() == old(delivery.Tables())
      ensures Editable(old(rows), id) ==> SendsTo(
        Tables(old(rows), old(delivery.Tables())), id, Circumstances(customers, now, push, delivery.batchSize), fault,
        targets, result, Tables(rows, delivery.Tables()))
    {
      targets := [];
      var claimed := Claim(id);
      if claimed == 0 { return [], Err(BadRequest); }
      var counts;
      SelectedAreIntended(delivery.devices, customers, rows[id].columns, now);
      targets, counts := delivery.Deliver(id, AudienceOf(rows[id].columns), customers, now, push, fault);
      rows := Finished(rows, id, counts);
      result := if counts.Some? then Ok(counts.value) else Err(Internal);
    }

    /** The rows to dispatch; rows of equal time come in an order the database chooses. */
    method FindDue(now: Time) returns (due: seq<Id>)
      ensures DueAnswer(rows, due, now)
    {
      due := [];
      var todo := set id | id in rows && Due(rows, id, now);
      while |due| < BATCH && todo != {}
        invariant |due| <= BATCH
        invariant forall id :: Due(rows, id, now) <==> id in due || id in todo
        invariant forall id :: id in due ==> id !in todo
        invariant forall i, j :: 0 <= i < j < |due| ==> due[i] != due[j] && When(rows, due[i]) <= When(rows, due[j])
        invariant forall i, id :: 0 <= i < |due| && id in todo ==> When(rows, due[i]) <= When(rows, id)
      {
        OldestExists(rows, todo, now);
        var id :| IsOldest(rows, todo, id);
        due, todo := due + [id], todo - {id};
      }
    }

    /** One round of the dispatch loop: an error is logged and the loop goes on. */
    method SendDue(id: Id, customers: map<Id, Customer>, now: Time, push: Push, fault: Fault) returns (sent: bool)
      requires Valid() && Editable(rows, id)
      modifies `rows, delivery
      ensures Valid()
      ensures id in rows && rows == old(rows)[id := rows[id]]
      ensures rows[id].status == if sent then Sent else Failed
      ensures SendsRow(Tables(old(rows), old(delivery.Tables())), id,
        Circumstances(customers, now, push, delivery.batchSize), fault, Tables(rows, delivery.Tables()))
    {
      var targets, result := Send(id, customers, now, push, fault);
      sent := result.Ok?;
    }

    /**
     * A dispatch nothing interferes with: each due row is sent or
     * fails, those sent are counted, no other row changes.
     */
    method DispatchDue(customers: map<Id, Customer>, now: Time, push: Push, faults: Id -> Fault)
      returns (due: seq<Id>, dispatched: nat, ghost states: seq<Tables>)
      requires Valid()
      modifies `rows, delivery
      ensures Valid()
      ensures DueAnswer(old(rows), due, now)
      ensures Settled(old(rows), rows, due)
      ensures dispatched == |SentOf(rows, due)|
      ensures EachSent(due, Circumstances(customers, now, push, delivery.batchSize), faults, states)
        && states[0] == Tables(old(rows), old(delivery.Tables()))
        && states[|due|] == Tables(rows, delivery.Tables())
    {
      due := FindDue(now);
      dispatched, states := SendEach(due, customers, now, push, faults);
    }

    /** The loop of the dispatch. */
    method SendEach(due: seq<Id>, customers: map<Id, Customer>, now: Time, push: Push, faults: Id -> Fault)
      returns (dispatched: nat, ghost states: seq<Tables>)
      requires Valid() && Distinct(due) && forall i :: 0 <= i < |due| ==> Editable(rows, due[i])
      modifies `rows, delivery
      ensures Valid()
      ensures Settled(old(rows), rows, due) && dispatched == |SentOf(rows, due)|
      ensures EachSent(due, Circumstances(customers, now, push, delivery.batchSize), faults, states)
        && states[0] == Tables(old(rows), old(delivery.Tables()))
        && states[|due|] == Tables(rows, delivery.Tables())
    {
      dispatched, states := 0, [Tables(rows, delivery.Tables())];
      ghost var start := rows;
      for i := 0 to |due|
        invariant Valid()
        invariant Dispatched(start, rows, due[..i], dispatched)
        invariant EachSent(due[..i], Circumstances(customers, now, push, delivery.batchSize), faults, states)
        invariant states[0] == Tables(old(rows), old(delivery.Tables()))
        invariant states[i] == Tables(rows, delivery.Tables())
      {
        NotYetSettled(start, rows, due, i, dispatched);
        ghost var before := rows;
        var sent := SendDue(due[i], customers, now, push, faults(due[i]));
        OneMoreSettled(start, before, rows, due, i, dispatched);
        OneMoreSent(due, i, Circumstances(customers, now, push, delivery.batchSize), faults, states,
          Tables(rows, delivery.Tables()));
        states := states + [Tables(rows, delivery.Tables())];
        if sent { dispatched := dispatched + 1; }
      }
      assert due[..|due|] == due;
    }
  }

  /** What a send is given besides the row. */
  datatype Circumstances = Circumstances(customers: map<Id, Customer>, now: Time, push: Push, batchSize: nat)

  /** The rows of the campaigns, and the devices with the failure log. */
  datatype Tables = Tables(rows: Rows, log: Log)

  /** A whole send: the targets are those intended, the row has its outcome, and what the answers call for is stored. */
  ghost predicate SendsTo(
    st: Tables, id: Id, c: Circumstances, fault: Fault, targets: seq<Target>, result: Result<Counts>, st': Tables)
  {
    && c.batchSize >= 1 && id in st.rows && DistinctTokens(targets)
    && ReachesIntended(targets, st.log.devices, c.customers, st.rows[id].columns, c.now)
    && WellShaped(AudienceOf(st.rows[id].columns))
    && |targets| == |Selected(st.log.devices, c.customers, AudienceOf(st.rows[id].columns), c.now)|
    && (result.Err? ==> result == Err(Internal))
    && st'.rows == Finished(WithStatus(st.rows, id, Sending), id, if result.Ok? then Some(result.value) else None)
    && match Delivered(targets, c.batchSize, c.push)
       case None => result.Err? && st'.log == st.log
       case Some(t) =>
         && st'.log == Stored(st.log, id, t, fault)
         && (result.Err? <==> Strikes(fault, t))
         && (result.Ok? ==> CountsOf(st.log.devices, |targets|, t, fault) == Some(result.value))
  }

  ghost predicate SendsRow(st: Tables, id: Id, c: Circumstances, fault: Fault, st': Tables) {
    exists targets, result :: SendsTo(st, id, c, fault, targets, result, st')
  }

  /** One send after the other. */
  ghost predicate EachSent(due: seq<Id>, c: Circumstances, faults: Id -> Fault, states: seq<Tables>) {
    && |states| == |due| + 1
    && forall i :: 0 <= i < |due| ==> SendsRow(states[i], due[i], c, faults(due[i]), states[i + 1])
  }

  lemma OneMoreSent(due: seq<Id>, i: nat, c: Circumstances, faults: Id -> Fault, states: seq<Tables>, st: Tables)
    requires i < |due| && EachSent(due[..i], c, faults, states) && SendsRow(states[i], due[i], c, faults(due[i]), st)
    ensures EachSent(due[..i + 1], c, faults, states + [st])
  {
    var longer := states + [st];
    forall k | 0 <= k < i + 1
      ensures SendsRow(longer[k], due[..i + 1][k], c, faults(due[..i + 1][k]), longer[k + 1])
    {
      if k < i { assert SendsRow(states[k], due[..i][k], c, faults(due[..i][k]), states[k + 1]); }
    }
  }

  ghost predicate Dispatched(before: Rows, after: Rows, ids: seq<Id>, count: nat) {
    Settled(before, after, ids) && count == |SentOf(after, ids)|
  }

  ghost predicate Distinct(ids: seq<Id>) {
    forall i, j :: 0 <= i < j < |ids| ==> ids[i] != ids[j]
  }

  lemma NotYetSettled(before: Rows, after: Rows, ids: seq<Id>, i: nat, count: nat)
    requires Distinct(ids) && i < |ids| && Dispatched(before, after, ids[..i], count) && Editable(before, ids[i])
    ensures ids[i] !in ids[..i] && Editable(after, ids[i])
  {}

  function SentOf(rows: Rows, ids: seq<Id>): set<Id> {
    set id | id in ids && id in rows && rows[id].status == Sent
  }

  /** The rows given were sent or failed; every other one is as it was. */
  ghost predicate Settled(before: Rows, after: Rows, ids: seq<Id>) {
    && after.Keys == before.Keys
    && (forall id :: id in after && id !in ids ==> after[id] == before[id])
    && (forall id :: id in ids ==> id in after && after[id].status in {Sent, Failed})
  }

  lemma OneMoreSettled(start: Rows, before: Rows, after: Rows, ids: seq<Id>, i: nat, count: nat)
    requires i < |ids| && Dispatched(start, before, ids[..i], count) && ids[i] in before && ids[i] !in ids[..i]
    requires ids[i] in after && after == before[ids[i] := after[ids[i]]] && after[ids[i]].status in {Sent, Failed}
    ensures Dispatched(start, after, ids[..i + 1], if after[ids[i]].status == Sent then count + 1 else count)
  {
    var id := ids[i];
    assert ids[..i + 1] == ids[..i] + [id];
    assert SentOf(after, ids[..i + 1]) == SentOf(before, ids[..i]) + if after[id].status == Sent then {id} else {};
  }

  predicate IsOldest(rows: Rows, todo: set<Id>, id: Id) {
    id in todo && forall other :: other in todo ==> When(rows, id) <= When(rows, other)
  }

  lemma {:induction false} OldestExists(rows: Rows, todo: set<Id>, now: Time)
    requires todo != {} && forall id :: id in todo ==> Due(rows, id, now)
    ensures exists id :: IsOldest(rows, todo, id)
    decreases |todo|
  {
    var id :| id in todo;
    var rest := todo - {id};
    if rest != {} {
      OldestExists(rows, rest, now);
      var oldest :| IsOldest(rows, rest, oldest);
      assert IsOldest(rows, todo, if When(rows, id) <= When(rows, oldest) then id else oldest);
    } else {
      assert todo == {id};
      assert IsOldest(rows, todo, id);
    }
  }
}

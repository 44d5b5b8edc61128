/** What each step does to a campaign's row, column by column, and which steps are refused. */
module CampaignOutcome {
  import opened Schema
  import opened Delivery
  import opened Campaigns

  /** A segment or a customer is named where the audience is one. */
  predicate Names(c: Columns) {
    (c.kind == ToSegment ==> c.segment != None) && (c.kind == ToCustomer ==> c.customer != None)
  }

  predicate MayChange(rows: Rows, id: Id) {
    id in rows && rows[id].status in {Draft, Scheduled}
  }

  /** A campaign without a time is a draft; a time must lie ahead. */
  lemma CreateStores(st: State, c: Columns, at: Option<Time>, now: Time)
    ensures var status := if at == None then Draft else Scheduled;
      Apply(st, Create(c, at, now)) ==
        if Names(c) && (at.Some? ==> now < at.value)
        then State(st.rows[st.next := Row(status, at, c, None)], st.next + 1, st.processes) else st
  {}

  /** An edit sets what it names and leaves the rest; the audience it ends with must be complete; a time schedules. */
  lemma UpdateStores(st: State, id: Id, p: Patch)
    ensures !MayChange(st.rows, id) ==> Apply(st, Update(id, p)) == st
    ensures MayChange(st.rows, id) ==>
      var row, former := st.rows[id], st.rows[id].columns;
      var c := Columns(
        if p.kind == None then former.kind else p.kind.value,
        if p.segment == None then former.segment else p.segment,
        if p.customer == None then former.customer else p.customer);
      Apply(st, Update(id, p)) ==
        if !Names(c) then st
        else if p.scheduledAt == None then st.(rows := st.rows[id := Row(row.status, row.scheduledAt, c, row.counts)])
        else st.(rows := st.rows[id := Row(Scheduled, p.scheduledAt, c, row.counts)])
  {}

  lemma CancelAndRemove(st: State, id: Id)
    ensures Apply(st, Cancel(id)) ==
      if MayChange(st.rows, id)
      then st.(rows := st.rows[id := Row(Cancelled, st.rows[id].scheduledAt, st.rows[id].columns, st.rows[id].counts)])
      else st
    ensures Apply(st, Remove(id)) ==
      if id in st.rows && st.rows[id].status != Sent then st.(rows := map i | i in st.rows && i != id :: st.rows[i])
      else st
  {
    assert (map i | i in st.rows && i != id :: st.rows[i]) == st.rows - {id};
  }

  /** A process takes the next row of its queue, and starts sending if the row is still a draft or scheduled. */
  lemma ClaimStores(st: State, pid: nat)
    ensures var st' := Apply(st, Claim(pid));
      if pid !in st.processes || st.processes[pid].sending != None || st.processes[pid].queue == [] then st' == st
      else
        var id, rest := st.processes[pid].queue[0], st.processes[pid].queue[1..];
        if MayChange(st.rows, id)
        then
          && st'.processes == st.processes[pid := Process(rest, Some(id))]
          && st'.rows == st.rows[id :=
               Row(Sending, st.rows[id].scheduledAt, st.rows[id].columns, st.rows[id].counts)]
          && st'.next == st.next
        else st' == st.(processes := st.processes[pid := Process(rest, None)])
  {}

  /** The end of a delivery stores its counts, or FAILED; a row removed meanwhile stays removed. */
  lemma FinishStores(st: State, pid: nat, outcome: Option<Counts>)
    ensures var st' := Apply(st, Finish(pid, outcome));
      if pid !in st.processes || st.processes[pid].sending == None then st' == st
      else
        var id := st.processes[pid].sending.value;
        && st'.processes == st.processes[pid := Process(st.processes[pid].queue, None)] && st'.next == st.next
        && st'.rows ==
             if id !in st.rows then st.rows
             else if outcome == None
             then st.rows[id := Row(Failed, st.rows[id].scheduledAt, st.rows[id].columns, st.rows[id].counts)]
             else st.rows[id := Row(Sent, st.rows[id].scheduledAt, st.rows[id].columns, outcome)]
  {}

  /** A process starts with one row, or with the list it read, and only once. */
  lemma StartStores(st: State, pid: nat, id: Id, due: seq<Id>)
    ensures Apply(st, StartDispatch(pid, due)) ==
      if pid in st.processes then st else st.(processes := st.processes[pid := Process(due, None)])
    ensures Apply(st, StartSend(pid, id)) == Apply(st, StartDispatch(pid, [id]))
  {}

  predicate IsDue(rows: Rows, id: Id, now: Time) {
    id in rows && rows[id].status == Scheduled && rows[id].scheduledAt.Some? && rows[id].scheduledAt.value <= now
  }

  /** The list of the dispatcher: due rows, each once, by time, and all of them unless 20 others are as early. */
  lemma DueAnswerMeans(rows: Rows, due: seq<Id>, now: Time)
    ensures DueAnswer(rows, due, now) ==>
      && |due| <= 20 && (forall i :: 0 <= i < |due| ==> IsDue(rows, due[i], now))
      && (forall i, j :: 0 <= i < j < |due| ==>
           due[i] != due[j] && rows[due[i]].scheduledAt.value <= rows[due[j]].scheduledAt.value)
      && (forall id :: IsDue(rows, id, now) && id !in due ==>
           |due| == 20 && forall i :: 0 <= i < |due| ==>
             rows[due[i]].scheduledAt.value <= rows[id].scheduledAt.value)
  {
    if DueAnswer(rows, due, now) {
      forall id | IsDue(rows, id, now) ensures Due(rows, id, now) && When(rows, id) == rows[id].scheduledAt.value {}
      forall i | 0 <= i < |due|
        ensures IsDue(rows, due[i], now) && When(rows, due[i]) == rows[due[i]].scheduledAt.value
      {
        assert Due(rows, due[i], now);
      }
    }
  }
}

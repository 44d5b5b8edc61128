/** What a delivery asks, reports and stores, told from the sender's answers. */
module DeliveryOutcome {
  import opened Schema
  import opened Delivery

  /** Batch by batch the sender is asked about the tokens of that batch, in order, and each answer is kept. */
  lemma {:induction false} EachBatchIsAsked(targets: seq<Target>, size: nat, push: Push, round: nat, k: nat)
    requires size >= 1 && Exchanges(targets, size, push, round).Some?
    requires k < |Exchanges(targets, size, push, round).value|
    ensures var x := Exchanges(targets, size, push, round).value[k];
      exists tokens :: |tokens| == |x.batch| && (forall j :: 0 <= j < |tokens| ==> tokens[j] == x.batch[j].token)
        && push(round + k, tokens) == Some(x.answers)
    decreases k
  {
    var n := Min(size, |targets|);
    if k == 0 {
      assert |TargetTokens(targets[..n])| == n;
    } else {
      EachBatchIsAsked(targets[n..], size, push, round + 1, k - 1);
    }
  }

  /** A delivery throws if and only if the sender does for one of the batches. */
  lemma {:induction false} ThrowsIff(targets: seq<Target>, size: nat, push: Push, round: nat)
    requires size >= 1
    ensures Exchanges(targets, size, push, round).None? <==>
      exists k: nat :: k * size < |targets| && push(round + k, TargetTokens(Slice(targets, size, k))).None?
    decreases |targets|
  {
    if targets != [] {
      var n := Min(size, |targets|);
      var rest := targets[n..];
      ThrowsIff(rest, size, push, round + 1);
      assert Slice(targets, size, 0) == targets[..n] && 0 * size < |targets|;
      if k: nat :| k * size < |targets| && push(round + k, TargetTokens(Slice(targets, size, k))).None? {
        if k > 0 { SliceOfRest(targets, size, k); }
      }
      if k: nat :| k * size < |rest| && push(round + 1 + k, TargetTokens(Slice(rest, size, k))).None? {
        SliceOfRest(targets, size, k + 1);
        assert round + (k + 1) == round + 1 + k;
      }
    }
  }

  /** The `k`-th batch: `targets.slice(k * size, k * size + size)`. */
  function Slice(targets: seq<Target>, size: nat, k: nat): seq<Target> {
    if k * size < |targets| then targets[k * size..][..Min(size, |targets| - k * size)] else []
  }

  lemma SliceOfRest(targets: seq<Target>, size: nat, k: nat)
    requires k > 0 && size >= 1
    ensures var rest := targets[Min(size, |targets|)..];
      && (k * size < |targets| <==> (k - 1) * size < |rest|)
      && Slice(targets, size, k) == Slice(rest, size, k - 1)
  {
    assert k * size == (k - 1) * size + size;
    assert (k - 1) * size >= 0;
    if k * size < |targets| {
      assert targets[k * size..] == targets[size..][(k - 1) * size..];
    }
  }

  // ---------------------------------------------------------------- the report

  ghost predicate Failed(xs: seq<Exchange>, t: Target) {
    exists a :: Reported(xs, t, a) && !a.ok
  }

  ghost predicate ReportedDead(xs: seq<Exchange>, token: string) {
    exists t, a :: Reported(xs, t, a) && t.token == token && !a.ok && a.invalidToken
  }

  /** The stored failure of a target that got this answer. */
  function StoredFailure(notification: Id, t: Target, a: Answer): FailureRow {
    var error := if a.error == None then "Unknown error" else a.error.value;
    FailureRow(notification, t.customer, if |error| > 500 then error[..500] else error)
  }

  lemma {:induction false} DistinctSize<T>(s: seq<T>)
    requires forall i, j :: 0 <= i < j < |s| ==> s[i] != s[j]
    ensures |set x | x in s| == |s|
  {
    if s != [] {
      DistinctSize(s[1..]);
      assert (set x | x in s) == {s[0]} + (set x | x in s[1..]);
    }
  }

  /** As many failures as targets failed. */
  lemma FailuresCount(xs: seq<Exchange>)
    requires DistinctTokens(Concatenated(xs)) && forall x :: x in xs ==> OneAnswerEach(x)
    ensures |Tallied(NOTHING, xs).failures| == |set t | t in Concatenated(xs) && Failed(xs, t)|
  {
    var fs := Tallied(NOTHING, xs).failures;
    DeliveryAccounts(xs);
    var failed := seq(|fs|, i requires 0 <= i < |fs| => fs[i].target);
    DistinctSize(failed);
    forall t ensures t in failed <==> t in Concatenated(xs) && Failed(xs, t) {
      if i :| 0 <= i < |failed| && failed[i] == t {
        assert fs[i] in fs;
        var a :| Reported(xs, t, a) && !a.ok;
        ReportedIsTarget(xs, t, a);
      }
      if a :| Reported(xs, t, a) && !a.ok {
        assert Failure(t, Reason(a)) in fs;
        var i :| 0 <= i < |fs| && fs[i] == Failure(t, Reason(a));
        assert failed[i] == t;
      }
    }
    assert (set t | t in failed) == (set t | t in Concatenated(xs) && Failed(xs, t));
  }

  /**
   * An undisturbed delivery whose messages are answered one by one: how many targets, how many sent and failed, how
   * many devices removed.
   */
  lemma ReportIsTrue(devices: map<Id, Device>, targets: seq<Target>, size: nat, push: Push)
    requires size >= 1 && DistinctTokens(targets) && Exchanges(targets, size, push, 0).Some?
    requires forall x :: x in Exchanges(targets, size, push, 0).value ==> OneAnswerEach(x)
    ensures var xs, t := Exchanges(targets, size, push, 0).value, Delivered(targets, size, push).value;
      var failed := |set x | x in targets && Failed(xs, x)|;
      match CountsOf(devices, |targets|, t, Nowhere)
      case None => false
      case Some(c) =>
        && c.totalTargets == |targets| && c.failedCount == failed && c.sentCount == |targets| - failed
        && c.prunedTokens == |set d | d in devices && ReportedDead(xs, devices[d].token)|
  {
    var xs, t := Exchanges(targets, size, push, 0).value, Delivered(targets, size, push).value;
    BatchesAreTheTargets(targets, size, push, 0);
    DeliveryAccounts(xs);
    FailuresCount(xs);
    assert DevicesWith(devices, t.invalid) == set d | d in devices && ReportedDead(xs, devices[d].token);
  }

  lemma RowsAreFailures(xs: seq<Exchange>, notification: Id, fs: seq<Failure>)
    requires forall f :: f in fs <==> exists a :: Reported(xs, f.target, a) && !a.ok && f.error == Reason(a)
    ensures var rows := FailureRows(notification, fs);
      && (forall k :: 0 <= k < |rows| ==> IsFailure(xs, notification, rows[k]))
      && (forall x, a :: Reported(xs, x, a) && !a.ok ==> StoredFailure(notification, x, a) in rows)
  {
    var rows := FailureRows(notification, fs);
    forall k | 0 <= k < |rows| ensures IsFailure(xs, notification, rows[k]) {
      assert fs[k] in fs;
      var a :| Reported(xs, fs[k].target, a) && !a.ok && fs[k].error == Reason(a);
      assert rows[k] == StoredFailure(notification, fs[k].target, a);
    }
    forall x, a | Reported(xs, x, a) && !a.ok ensures StoredFailure(notification, x, a) in rows {
      var f := Failure(x, Reason(a));
      assert f in fs;
      var i :| 0 <= i < |fs| && fs[i] == f;
      assert rows[i] == StoredFailure(notification, x, a);
    }
  }

  /** And what is stored: the dead devices are gone, and one failure for each target that failed is added, no other. */
  lemma StoredIsTrue(log: Log, notification: Id, targets: seq<Target>, size: nat, push: Push)
    requires size >= 1 && DistinctTokens(targets) && Exchanges(targets, size, push, 0).Some?
    requires forall x :: x in Exchanges(targets, size, push, 0).value ==> OneAnswerEach(x)
    ensures var xs, t := Exchanges(targets, size, push, 0).value, Delivered(targets, size, push).value;
      var log' := Stored(log, notification, t, Nowhere);
      && log'.devices == (map d | d in log.devices && !ReportedDead(xs, log.devices[d].token) :: log.devices[d])
      && exists rows :: log'.failureRows == log.failureRows + rows && AreTheFailures(xs, notification, targets, rows)
  {
    var xs, t := Exchanges(targets, size, push, 0).value, Delivered(targets, size, push).value;
    BatchesAreTheTargets(targets, size, push, 0);
    DeliveryAccounts(xs);
    FailuresCount(xs);
    RowsAreFailures(xs, notification, t.failures);
    assert AreTheFailures(xs, notification, targets, FailureRows(notification, t.failures));
  }

  /** As many rows as targets that failed, each the failure of one, none missing. */
  ghost predicate AreTheFailures(xs: seq<Exchange>, notification: Id, targets: seq<Target>, rows: seq<FailureRow>) {
    && |rows| == |set x | x in targets && Failed(xs, x)|
    && (forall k :: 0 <= k < |rows| ==> IsFailure(xs, notification, rows[k]))
    && (forall x, a :: Reported(xs, x, a) && !a.ok ==> StoredFailure(notification, x, a) in rows)
  }

  ghost predicate IsFailure(xs: seq<Exchange>, notification: Id, row: FailureRow) {
    exists t, a :: Reported(xs, t, a) && !a.ok && row == StoredFailure(notification, t, a)
  }

  /**
   * A write that is refused ends the delivery: refused failures leave everything as it was, refused removals leave the
   * failures stored, a refused result leaves both done. A write with nothing to do cannot be refused.
   */
  lemma RefusedWrite(log: Log, notification: Id, total: nat, t: Tally, fault: Fault)
    ensures var stored, done := Stored(log, notification, t, fault), Stored(log, notification, t, Nowhere);
      match fault
      case Nowhere => true
      case OnFailureRows => stored == if t.failures == [] then done else log
      case OnPruning => stored == if t.invalid == [] then done else Log(log.devices, done.failureRows)
      case OnResult => stored == done
    ensures CountsOf(log.devices, total, t, fault) ==
      if fault == Nowhere || (fault == OnFailureRows && t.failures == []) || (fault == OnPruning && t.invalid == [])
      then CountsOf(log.devices, total, t, Nowhere) else None
  {
    if t.invalid == [] { assert log.devices - DevicesWith(log.devices, t.invalid) == log.devices; }
  }
}

/**
 * Delivering one notification: the devices are chosen, pushed to in batches, the sender's answers counted, the
 * failures recorded and the tokens reported dead removed.
 */
module Delivery {
  import opened Schema

  /** A device token row; `token` is a unique column. */
  datatype Device = Device(token: string, customer: Id)

  /** What the audience filters look at. */
  datatype Customer = Customer(status: Status, cartUpdatedAt: Option<Time>, hasWishlist: bool,
    lastLoginAt: Option<Time>, createdAt: Time)

  datatype Segment = AbandonedCart | HasWishlist | Inactive30d | NewLast7d | AllUsers

  datatype Audience = All | BySegment(segment: Option<Segment>) | ByCustomer(customer: Option<Id>)

  datatype Target = Target(device: Id, token: string, customer: Id)

  datatype Answer = Answer(token: string, ok: bool, invalidToken: bool, error: Option<string>)

  datatype Failure = Failure(target: Target, error: string)

  /** A stored failure; the message is cut to 500 characters. */
  datatype FailureRow = FailureRow(notification: Id, customer: Id, error: string)

  datatype Counts = Counts(totalTargets: nat, sentCount: nat, failedCount: nat, prunedTokens: nat)

  const DAY: Time := 24 * 60 * 60 * 1000

  // ---------------------------------------------------------------- who is targeted

  predicate WellShaped(a: Audience) {
    (a.BySegment? ==> a.segment.Some?) && (a.ByCustomer? ==> a.customer.Some?)
  }

  /** `cartUpdatedAt` is present exactly when the cart has items. */
  predicate InSegment(s: Segment, c: Customer, now: Time) {
    match s
    case AbandonedCart => c.cartUpdatedAt.Some? && c.cartUpdatedAt.value < now - DAY
    case HasWishlist => c.hasWishlist
    case Inactive30d => c.lastLoginAt.None? || c.lastLoginAt.value < now - 30 * DAY
    case NewLast7d => c.createdAt >= now - 7 * DAY
    case AllUsers => true
  }

  predicate Wanted(a: Audience, id: Id, c: Customer, now: Time)
    requires WellShaped(a)
  {
    && c.status == Active
    && match a
       case All => true
       case BySegment(s) => InSegment(s.value, c, now)
       case ByCustomer(customer) => customer.value == id
  }

  function Selected(devices: map<Id, Device>, customers: map<Id, Customer>, a: Audience, now: Time): set<Id>
    requires WellShaped(a)
  {
    set d | d in devices && devices[d].customer in customers
      && Wanted(a, devices[d].customer, customers[devices[d].customer], now)
  }

  /**
   * Nobody but active customers is targeted; every segment is part of
   * everyone, and one customer's devices are that one's only.
   */
  lemma AudiencesAreActive(devices: map<Id, Device>, customers: map<Id, Customer>, a: Audience, now: Time)
    requires WellShaped(a)
    ensures forall d :: d in Selected(devices, customers, a, now) ==> customers[devices[d].customer].status == Active
    ensures Selected(devices, customers, a, now) <= Selected(devices, customers, All, now)
    ensures Selected(devices, customers, BySegment(Some(AllUsers)), now) == Selected(devices, customers, All, now)
    ensures a.ByCustomer? ==> forall d ::
      d in Selected(devices, customers, a, now) <==>
        d in Selected(devices, customers, All, now) && Some(devices[d].customer) == a.customer
  {}

  ghost predicate UniqueTokens(devices: map<Id, Device>) {
    forall d, e :: d in devices && e in devices && devices[d].token == devices[e].token ==> d == e
  }

  // ---------------------------------------------------------------- batches and answers

  /** One call of the sender. */
  datatype Exchange = Exchange(batch: seq<Target>, answers: seq<Answer>)

  function TargetTokens(ts: seq<Target>): seq<string> {
    seq(|ts|, i requires 0 <= i < |ts| => ts[i].token)
  }

  function AnswerTokens(answers: seq<Answer>): seq<string> {
    seq(|answers|, i requires 0 <= i < |answers| => answers[i].token)
  }

  /** The sender's side: its answer to the messages of batch number `round`, or nothing if it throws. */
  type Push = (nat, seq<string>) -> Option<seq<Answer>>

  /** What is exchanged with the sender, batch by batch; nothing if some call throws. */
  function Exchanges(targets: seq<Target>, size: nat, push: Push, round: nat): Option<seq<Exchange>>
    requires size >= 1
    decreases |targets|
  {
    if targets == [] then Some([])
    else
      var n := Min(size, |targets|);
      var answers := push(round, TargetTokens(targets[..n]));
      var rest := Exchanges(targets[n..], size, push, round + 1);
      if answers.None? || rest.None? then None else Some([Exchange(targets[..n], answers.value)] + rest.value)
  }

  function Concatenated(xs: seq<Exchange>): seq<Target> {
    if xs == [] then [] else xs[0].batch + Concatenated(xs[1..])
  }

  /** For every batch size the batches are the target list cut up: full ones and a last, non-empty one. */
  lemma {:induction false} BatchesAreTheTargets(targets: seq<Target>, size: nat, push: Push, round: nat)
    requires size >= 1 && Exchanges(targets, size, push, round).Some?
    ensures var xs := Exchanges(targets, size, push, round).value;
      && Concatenated(xs) == targets
      && (forall i :: 0 <= i < |xs| ==> 1 <= |xs[i].batch| <= size && (i < |xs| - 1 ==> |xs[i].batch| == size))
    decreases |targets|
  {
    if targets != [] {
      var n := Min(size, |targets|);
      BatchesAreTheTargets(targets[n..], size, push, round + 1);
      assert targets[..n] + targets[n..] == targets;
      if |targets| <= size { assert targets[n..] == []; }
    }
  }

  // ---------------------------------------------------------------- counting answers

  datatype Tally = Tally(sent: nat, failures: seq<Failure>, invalid: seq<string>)

  function ByToken(batch: seq<Target>): map<string, Target> {
    if batch == [] then map[] else ByToken(batch[..|batch| - 1])[batch[|batch| - 1].token := batch[|batch| - 1]]
  }

  function Reason(a: Answer): string {
    if a.error.Some? then a.error.value else "Unknown error"
  }

  /** One answer: unknown tokens are skipped, and `ok` outweighs `invalidToken`. */
  function Counted(t: Tally, byToken: map<string, Target>, a: Answer): Tally {
    if a.token !in byToken then t
    else if a.ok then t.(sent := t.sent + 1)
    else
      t.(failures := t.failures + [Failure(byToken[a.token], Reason(a))],
         invalid := if a.invalidToken then t.invalid + [a.token] else t.invalid)
  }

  function CountedAll(t: Tally, byToken: map<string, Target>, answers: seq<Answer>): Tally {
    if answers == [] then t
    else Counted(CountedAll(t, byToken, answers[..|answers| - 1]), byToken, answers[|answers| - 1])
  }

  function Tallied(t: Tally, xs: seq<Exchange>): Tally
    decreases |xs|
  {
    if xs == [] then t else Tallied(CountedAll(t, ByToken(xs[0].batch), xs[0].answers), xs[1..])
  }

  const NOTHING := Tally(0, [], [])

  // ---------------------------------------------------------------- what the counts mean

  ghost predicate DistinctTokens(ts: seq<Target>) {
    forall i, j :: 0 <= i < j < |ts| ==> ts[i].token != ts[j].token
  }

  /** The sender's contract: one answer for each message, in any order. */
  ghost predicate OneAnswerEach(x: Exchange) {
    multiset(AnswerTokens(x.answers)) == multiset(TargetTokens(x.batch))
  }

  /** In some exchange `a` was the answer to the message for `t`. */
  ghost predicate Reported(xs: seq<Exchange>, t: Target, a: Answer) {
    exists i :: 0 <= i < |xs| && t in xs[i].batch && a in xs[i].answers && a.token == t.token
  }

  lemma {:induction false} ByTokenFinds(batch: seq<Target>)
    ensures forall token :: token in ByToken(batch) ==>
      ByToken(batch)[token] in batch && ByToken(batch)[token].token == token
    ensures forall t :: t in batch ==> t.token in ByToken(batch)
    ensures DistinctTokens(batch) ==> forall t :: t in batch ==> ByToken(batch)[t.token] == t
  {
    if batch != [] {
      var rest, last := batch[..|batch| - 1], batch[|batch| - 1];
      ByTokenFinds(rest);
      assert batch == rest + [last];
    }
  }

  function Recognised(byToken: map<string, Target>, answers: seq<Answer>): nat {
    if answers == [] then 0
    else Recognised(byToken, answers[..|answers| - 1]) + (if answers[|answers| - 1].token in byToken then 1 else 0)
  }

  function RecognisedIn(xs: seq<Exchange>): nat {
    if xs == [] then 0 else Recognised(ByToken(xs[0].batch), xs[0].answers) + RecognisedIn(xs[1..])
  }

  lemma {:induction false} AnswersCount(t: Tally, byToken: map<string, Target>, answers: seq<Answer>)
    ensures var t' := CountedAll(t, byToken, answers);
      t'.sent + |t'.failures| == t.sent + |t.failures| + Recognised(byToken, answers)
  {
    if answers != [] { AnswersCount(t, byToken, answers[..|answers| - 1]); }
  }

  /** Whatever the sender does, `sentCount` and `failedCount` add up to the answers that name a token of their batch. */
  lemma {:induction false} CountsAddUp(t: Tally, xs: seq<Exchange>)
    ensures var t' := Tallied(t, xs); t'.sent + |t'.failures| == t.sent + |t.failures| + RecognisedIn(xs)
    decreases |xs|
  {
    if xs != [] {
      AnswersCount(t, ByToken(xs[0].batch), xs[0].answers);
      CountsAddUp(CountedAll(t, ByToken(xs[0].batch), xs[0].answers), xs[1..]);
    }
  }

  lemma AnswerIsOfBatch(x: Exchange, a: Answer)
    requires OneAnswerEach(x) && a in x.answers
    ensures a.token in ByToken(x.batch)
  {
    ByTokenFinds(x.batch);
    var i :| 0 <= i < |x.answers| && x.answers[i] == a;
    assert AnswerTokens(x.answers)[i] == a.token;
    assert a.token in multiset(AnswerTokens(x.answers));
    assert a.token in TargetTokens(x.batch);
  }

  lemma {:induction false} AllRecognised(byToken: map<string, Target>, answers: seq<Answer>)
    requires forall a :: a in answers ==> a.token in byToken
    ensures Recognised(byToken, answers) == |answers|
  {
    if answers != [] { AllRecognised(byToken, answers[..|answers| - 1]); }
  }

  lemma {:induction false} EveryMessageAnswered(xs: seq<Exchange>)
    requires forall x :: x in xs ==> OneAnswerEach(x)
    ensures RecognisedIn(xs) == |Concatenated(xs)|
  {
    if xs != [] {
      var x := xs[0];
      forall a | a in x.answers ensures a.token in ByToken(x.batch) { AnswerIsOfBatch(x, a); }
      AllRecognised(ByToken(x.batch), x.answers);
      assert |multiset(AnswerTokens(x.answers))| == |x.answers| && |multiset(TargetTokens(x.batch))| == |x.batch|;
      EveryMessageAnswered(xs[1..]);
    }
  }

  /** Counting one batch adds exactly its failed answers. */
  ghost predicate FailureOf(byToken: map<string, Target>, answers: seq<Answer>, f: Failure) {
    exists a :: a in answers && a.token in byToken && !a.ok && f == Failure(byToken[a.token], Reason(a))
  }

  ghost predicate InvalidIn(byToken: map<string, Target>, answers: seq<Answer>, token: string) {
    exists a :: a in answers && a.token == token && token in byToken && !a.ok && a.invalidToken
  }

  lemma {:induction false} BatchFailures(t: Tally, byToken: map<string, Target>, answers: seq<Answer>)
    ensures var t' := CountedAll(t, byToken, answers);
      && (forall f :: f in t'.failures <==> f in t.failures || FailureOf(byToken, answers, f))
      && (forall token :: token in t'.invalid <==> token in t.invalid || InvalidIn(byToken, answers, token))
  {
    if answers != [] {
      var rest, last := answers[..|answers| - 1], answers[|answers| - 1];
      BatchFailures(t, byToken, rest);
      assert answers == rest + [last];
      LastAnswer(byToken, rest, last);
    }
  }

  lemma LastAnswer(byToken: map<string, Target>, rest: seq<Answer>, a: Answer)
    ensures forall f :: FailureOf(byToken, rest + [a], f) <==>
      FailureOf(byToken, rest, f) || (a.token in byToken && !a.ok && f == Failure(byToken[a.token], Reason(a)))
    ensures forall token :: InvalidIn(byToken, rest + [a], token) <==>
      InvalidIn(byToken, rest, token) || (a.token == token && token in byToken && !a.ok && a.invalidToken)
  {
    assert a in rest + [a];
    assert forall b :: b in rest ==> b in rest + [a];
  }

  ghost predicate SomeFailure(xs: seq<Exchange>, f: Failure) {
    exists i :: 0 <= i < |xs| && FailureOf(ByToken(xs[i].batch), xs[i].answers, f)
  }

  ghost predicate SomeInvalid(xs: seq<Exchange>, token: string) {
    exists i :: 0 <= i < |xs| && InvalidIn(ByToken(xs[i].batch), xs[i].answers, token)
  }

  lemma {:induction false} AllFailures(t: Tally, xs: seq<Exchange>)
    ensures var t' := Tallied(t, xs);
      && (forall f :: f in t'.failures <==> f in t.failures || SomeFailure(xs, f))
      && (forall token :: token in t'.invalid <==> token in t.invalid || SomeInvalid(xs, token))
    decreases |xs|
  {
    if xs != [] {
      var x, rest := xs[0], xs[1..];
      BatchFailures(t, ByToken(x.batch), x.answers);
      AllFailures(CountedAll(t, ByToken(x.batch), x.answers), rest);
      assert xs == [x] + rest;
      FirstOrRest(x, rest);
    }
  }

  lemma FirstOrRest(x: Exchange, rest: seq<Exchange>)
    ensures forall f :: SomeFailure([x] + rest, f) <==>
      FailureOf(ByToken(x.batch), x.answers, f) || SomeFailure(rest, f)
    ensures forall token :: SomeInvalid([x] + rest, token) <==>
      InvalidIn(ByToken(x.batch), x.answers, token) || SomeInvalid(rest, token)
  {
    var xs := [x] + rest;
    assert xs[0] == x && forall i :: 0 <= i < |rest| ==> xs[i + 1] == rest[i];
    forall f | SomeFailure(xs, f) ensures FailureOf(ByToken(x.batch), x.answers, f) || SomeFailure(rest, f) {
      var i :| 0 <= i < |xs| && FailureOf(ByToken(xs[i].batch), xs[i].answers, f);
      if i > 0 { assert rest[i - 1] == xs[i]; }
    }
    forall token | SomeInvalid(xs, token)
      ensures InvalidIn(ByToken(x.batch), x.answers, token) || SomeInvalid(rest, token)
    {
      var i :| 0 <= i < |xs| && InvalidIn(ByToken(xs[i].batch), xs[i].answers, token);
      if i > 0 { assert rest[i - 1] == xs[i]; }
    }
    forall f | SomeFailure(rest, f) ensures SomeFailure(xs, f) {
      var i :| 0 <= i < |rest| && FailureOf(ByToken(rest[i].batch), rest[i].answers, f);
      assert xs[i + 1] == rest[i];
    }
    forall token | SomeInvalid(rest, token) ensures SomeInvalid(xs, token) {
      var i :| 0 <= i < |rest| && InvalidIn(ByToken(rest[i].batch), rest[i].answers, token);
      assert xs[i + 1] == rest[i];
    }
  }

  lemma {:induction false} BatchWithin(xs: seq<Exchange>, i: nat)
    requires i < |xs| && DistinctTokens(Concatenated(xs))
    ensures DistinctTokens(xs[i].batch)
    ensures forall t :: t in xs[i].batch ==> t in Concatenated(xs)
  {
    var head, tail := xs[0].batch, Concatenated(xs[1..]);
    assert forall k :: 0 <= k < |head| ==> (head + tail)[k] == head[k];
    assert forall k :: 0 <= k < |tail| ==> (head + tail)[|head| + k] == tail[k];
    if i > 0 { BatchWithin(xs[1..], i - 1); }
  }

  /** With distinct tokens the recorded failures are exactly the failed targets with their reasons ... */
  lemma FailuresAreTheFailed(xs: seq<Exchange>, f: Failure)
    requires DistinctTokens(Concatenated(xs))
    ensures f in Tallied(NOTHING, xs).failures <==>
      exists a :: Reported(xs, f.target, a) && !a.ok && f.error == Reason(a)
  {
    AllFailures(NOTHING, xs);
    if SomeFailure(xs, f) {
      var i :| 0 <= i < |xs| && FailureOf(ByToken(xs[i].batch), xs[i].answers, f);
      ByTokenFinds(xs[i].batch);
      var a :| a in xs[i].answers && a.token in ByToken(xs[i].batch) && !a.ok
        && f == Failure(ByToken(xs[i].batch)[a.token], Reason(a));
      assert Reported(xs, f.target, a);
    }
    if a :| Reported(xs, f.target, a) && !a.ok && f.error == Reason(a) {
      var i :| 0 <= i < |xs| && f.target in xs[i].batch && a in xs[i].answers && a.token == f.target.token;
      BatchWithin(xs, i);
      ByTokenFinds(xs[i].batch);
      assert FailureOf(ByToken(xs[i].batch), xs[i].answers, f);
    }
  }

  /** ... and the tokens to remove exactly those a failed answer called invalid. */
  lemma InvalidAreTheReported(xs: seq<Exchange>, token: string)
    requires DistinctTokens(Concatenated(xs))
    ensures token in Tallied(NOTHING, xs).invalid <==>
      exists t, a :: Reported(xs, t, a) && t.token == token && !a.ok && a.invalidToken
  {
    AllFailures(NOTHING, xs);
    if SomeInvalid(xs, token) {
      var i :| 0 <= i < |xs| && InvalidIn(ByToken(xs[i].batch), xs[i].answers, token);
      ByTokenFinds(xs[i].batch);
      var a :| a in xs[i].answers && a.token == token && token in ByToken(xs[i].batch) && !a.ok && a.invalidToken;
      assert Reported(xs, ByToken(xs[i].batch)[token], a);
    }
    if t, a :| Reported(xs, t, a) && t.token == token && !a.ok && a.invalidToken {
      var i :| 0 <= i < |xs| && t in xs[i].batch && a in xs[i].answers && a.token == t.token;
      BatchWithin(xs, i);
      ByTokenFinds(xs[i].batch);
      assert InvalidIn(ByToken(xs[i].batch), xs[i].answers, token);
    }
  }

  function FailedTokens(fs: seq<Failure>): seq<string> {
    seq(|fs|, i requires 0 <= i < |fs| => fs[i].target.token)
  }

  lemma {:induction false} BatchFailsOnce(t: Tally, batch: seq<Target>, answers: seq<Answer>)
    ensures multiset(FailedTokens(CountedAll(t, ByToken(batch), answers).failures)) <=
      multiset(FailedTokens(t.failures)) + multiset(AnswerTokens(answers))
  {
    if answers != [] {
      var rest, a := answers[..|answers| - 1], answers[|answers| - 1];
      BatchFailsOnce(t, batch, rest);
      ByTokenFinds(batch);
      assert AnswerTokens(answers) == AnswerTokens(rest) + [a.token];
      var t1 := CountedAll(t, ByToken(batch), rest);
      if a.token in ByToken(batch) && !a.ok {
        assert FailedTokens(Counted(t1, ByToken(batch), a).failures) == FailedTokens(t1.failures) + [a.token];
      }
    }
  }

  lemma {:induction false} FailsOnce(t: Tally, xs: seq<Exchange>)
    requires forall x :: x in xs ==> OneAnswerEach(x)
    ensures multiset(FailedTokens(Tallied(t, xs).failures)) <= multiset(FailedTokens(t.failures))
      + multiset(TargetTokens(Concatenated(xs)))
    decreases |xs|
  {
    if xs != [] {
      var x, rest := xs[0], xs[1..];
      var t1 := CountedAll(t, ByToken(x.batch), x.answers);
      BatchFailsOnce(t, x.batch, x.answers);
      FailsOnce(t1, rest);
      assert OneAnswerEach(x);
      ConcatenatedTokens(x, rest);
      assert xs == [x] + rest;
      assert Tallied(t, xs) == Tallied(t1, rest);
    }
  }

  lemma ConcatenatedTokens(x: Exchange, rest: seq<Exchange>)
    ensures multiset(TargetTokens(Concatenated([x] + rest))) ==
      multiset(TargetTokens(x.batch)) + multiset(TargetTokens(Concatenated(rest)))
  {
    assert ([x] + rest)[1..] == rest;
    assert TargetTokens(Concatenated([x] + rest)) == TargetTokens(x.batch) + TargetTokens(Concatenated(rest));
  }

  lemma {:induction false} DistinctOccurOnce(ts: seq<Target>, token: string)
    requires DistinctTokens(ts)
    ensures multiset(TargetTokens(ts))[token] <= 1
  {
    if ts != [] {
      var rest, last := ts[..|ts| - 1], ts[|ts| - 1];
      DistinctOccurOnce(rest, token);
      assert TargetTokens(ts) == TargetTokens(rest) + [last.token];
      if last.token == token { assert token !in TargetTokens(rest); }
    }
  }

  lemma TwiceCountsTwo(s: seq<string>, i: nat, j: nat)
    requires i < j < |s| && s[i] == s[j]
    ensures multiset(s)[s[i]] >= 2
  {
    assert s == s[..j] + [s[j]] + s[j + 1..];
    assert s[..j][i] == s[i];
    assert s[i] in multiset(s[..j]);
  }

  /**
   * The accounting of a delivery. If the tokens are distinct and every message gets one answer, then every target is
   * counted once, as sent or as failed; no target fails twice; the failures are the failed targets; and the tokens
   * removed are those reported invalid.
   */
  lemma DeliveryAccounts(xs: seq<Exchange>)
    requires DistinctTokens(Concatenated(xs)) && forall x :: x in xs ==> OneAnswerEach(x)
    ensures var t := Tallied(NOTHING, xs);
      && t.sent + |t.failures| == |Concatenated(xs)|
      && (forall i, j :: 0 <= i < j < |t.failures| ==> t.failures[i].target.token != t.failures[j].target.token)
      && (forall f :: f in t.failures <==> exists a :: Reported(xs, f.target, a) && !a.ok && f.error == Reason(a))
      && (forall token :: token in t.invalid <==>
           exists target, a :: Reported(xs, target, a) && target.token == token && !a.ok && a.invalidToken)
  {
    var t := Tallied(NOTHING, xs);
    CountsAddUp(NOTHING, xs);
    EveryMessageAnswered(xs);
    forall f
      ensures f in t.failures <==> exists a :: Reported(xs, f.target, a) && !a.ok && f.error == Reason(a)
    {
      FailuresAreTheFailed(xs, f);
    }
    forall token
      ensures token in t.invalid <==>
        exists target, a :: Reported(xs, target, a) && target.token == token && !a.ok && a.invalidToken
    {
      InvalidAreTheReported(xs, token);
    }
    FailsOnce(NOTHING, xs);
    forall i, j | 0 <= i < j < |t.failures| ensures t.failures[i].target.token != t.failures[j].target.token {
      DistinctOccurOnce(Concatenated(xs), t.failures[i].target.token);
      if t.failures[i].target.token == t.failures[j].target.token { TwiceCountsTwo(FailedTokens(t.failures), i, j); }
    }
  }

  /** Counting on from `t` over the targets that are left. */
  function Continued(t: Tally, targets: seq<Target>, size: nat, push: Push, round: nat): Option<Tally>
    requires size >= 1
  {
    var xs := Exchanges(targets, size, push, round);
    if xs.None? then None else Some(Tallied(t, xs.value))
  }

  function Delivered(targets: seq<Target>, size: nat, push: Push): Option<Tally>
    requires size >= 1
  {
    Continued(NOTHING, targets, size, push, 0)
  }

  function DevicesWith(devices: map<Id, Device>, tokens: seq<string>): set<Id> {
    set d | d in devices && devices[d].token in tokens
  }

  function FailureRows(notification: Id, fs: seq<Failure>): seq<FailureRow> {
    seq(|fs|, i requires 0 <= i < |fs| => RowOf(notification, fs[i]))
  }

  function RowOf(notification: Id, f: Failure): FailureRow {
    FailureRow(notification, f.target.customer, f.error[..Min(500, |f.error|)])
  }

  /** What the service stores after a delivery, in terms of the sender's answers. */
  lemma DeliveredAccounts(targets: seq<Target>, size: nat, push: Push, devices: map<Id, Device>)
    requires size >= 1 && DistinctTokens(targets) && Exchanges(targets, size, push, 0).Some?
    requires forall x :: x in Exchanges(targets, size, push, 0).value ==> OneAnswerEach(x)
    ensures var xs, t := Exchanges(targets, size, push, 0).value, Delivered(targets, size, push).value;
      && t.sent + |t.failures| == |targets|
      && (forall f :: f in t.failures <==> exists a :: Reported(xs, f.target, a) && !a.ok && f.error == Reason(a))
      && (forall d :: d in devices ==> (d in DevicesWith(devices, t.invalid) <==>
            exists target, a :: Reported(xs, target, a) && target.token == devices[d].token && !a.ok && a.invalidToken))
  {
    BatchesAreTheTargets(targets, size, push, 0);
    DeliveryAccounts(Exchanges(targets, size, push, 0).value);
  }

  // ---------------------------------------------------------------- what is stored

  /** The device rows and the failure log. */
  datatype Log = Log(devices: map<Id, Device>, failureRows: seq<FailureRow>)

  /** The write that the database refuses, if any. */
  datatype Fault = Nowhere | OnFailureRows | OnPruning | OnResult

  /** A write that has nothing to do is not sent. */
  predicate Strikes(fault: Fault, t: Tally) {
    match fault
    case Nowhere => false
    case OnFailureRows => t.failures != []
    case OnPruning => t.invalid != []
    case OnResult => true
  }

  /** The three writes, in order and not in a transaction: what came before the refused one stays. */
  function Stored(log: Log, notification: Id, t: Tally, fault: Fault): Log {
    if fault == OnFailureRows && Strikes(fault, t) then log
    else
      var dead := DevicesWith(log.devices, t.invalid);
      Log(if fault == OnPruning then log.devices else log.devices - dead,
          log.failureRows + FailureRows(notification, t.failures))
  }

  function CountsOf(devices: map<Id, Device>, total: nat, t: Tally, fault: Fault): Option<Counts> {
    if Strikes(fault, t) then None else Some(Counts(total, t.sent, |t.failures|, |DevicesWith(devices, t.invalid)|))
  }

  ghost predicate FromDevices(targets: seq<Target>, devices: map<Id, Device>) {
    forall t :: t in targets ==> t.device in devices && Device(t.token, t.customer) == devices[t.device]
  }

  ghost predicate HasTarget(targets: seq<Target>, d: Id) {
    exists t :: t in targets && t.device == d
  }

  /** Whatever write fails, no device is removed without a stored failure of its owner. */
  lemma RemovedAreRecorded(log: Log, notification: Id, targets: seq<Target>, size: nat, push: Push, fault: Fault, d: Id)
    requires size >= 1 && UniqueTokens(log.devices) && FromDevices(targets, log.devices) && DistinctTokens(targets)
    requires Delivered(targets, size, push).Some?
    requires d in log.devices && d !in Stored(log, notification, Delivered(targets, size, push).value, fault).devices
    ensures exists row :: (row in Stored(log, notification, Delivered(targets, size, push).value, fault).failureRows
      && row.notification == notification && row.customer == log.devices[d].customer)
  {
    var t := Delivered(targets, size, push).value;
    var xs := Exchanges(targets, size, push, 0).value;
    var token := log.devices[d].token;
    BatchesAreTheTargets(targets, size, push, 0);
    InvalidAreTheReported(xs, token);
    var target, a :| Reported(xs, target, a) && target.token == token && !a.ok && a.invalidToken;
    ReportedIsTarget(xs, target, a);
    assert target.device == d;
    var f := Failure(target, Reason(a));
    FailuresAreTheFailed(xs, f);
    var i :| 0 <= i < |t.failures| && t.failures[i] == f;
    assert FailureRows(notification, t.failures)[i] == RowOf(notification, f);
    assert RowOf(notification, f) in Stored(log, notification, t, fault).failureRows;
  }

  lemma ReportedIsTarget(xs: seq<Exchange>, t: Target, a: Answer)
    requires DistinctTokens(Concatenated(xs)) && Reported(xs, t, a)
    ensures t in Concatenated(xs)
  {
    var i :| 0 <= i < |xs| && t in xs[i].batch && a in xs[i].answers && a.token == t.token;
    BatchWithin(xs, i);
  }

  // ---------------------------------------------------------------- the service

  /** The device rows and the failure log; `Deliver` is the delivery half of `send`. */
  class PushDelivery {
    var devices: map<Id, Device>
    var failureRows: seq<FailureRow>
    const batchSize: nat

    ghost predicate Valid()
      reads this
    {
      batchSize >= 1 && UniqueTokens(devices)
    }

    constructor (batchSize: nat)
      requires batchSize >= 1
      ensures Valid() && devices == map[] && failureRows == [] && this.batchSize == batchSize
    {
      this.batchSize := batchSize;
      devices, failureRows := map[], [];
    }

    method FindTargets(a: Audience, customers: map<Id, Customer>, now: Time) returns (targets: seq<Target>)
      requires WellShaped(a)
      ensures forall i :: 0 <= i < |targets| ==>
        && targets[i].device in Selected(devices, customers, a, now)
        && targets[i] == Target(targets[i].device, devices[targets[i].device].token,
          devices[targets[i].device].customer)
      ensures forall i, j :: 0 <= i < j < |targets| ==> targets[i].device != targets[j].device
      ensures |targets| == |Selected(devices, customers, a, now)|
      ensures forall d :: d in Selected(devices, customers, a, now) ==> HasTarget(targets, d)
    {
      var ids := Enumerate(Selected(devices, customers, a, now));
      var rows := devices;
      assert forall i :: 0 <= i < |ids| ==> ids[i] in Selected(rows, customers, a, now);
      targets := seq(|ids|,
        i requires 0 <= i < |ids| && ids[i] in rows => Target(ids[i], rows[ids[i]].token, rows[ids[i]].customer));
      forall d | d in Selected(rows, customers, a, now) ensures HasTarget(targets, d) {
        var i :| 0 <= i < |ids| && ids[i] == d;
        assert targets[i].device == d;
      }
    }

    ghost function Tables(): Log
      reads this
    {
      Log(devices, failureRows)
    }

    /**
     * Returns no counts where the original throws: a malformed
     * audience, a failing call of the sender, a refused write.
     */
    method Deliver(notification: Id, a: Audience, customers: map<Id, Customer>, now: Time, push: Push, fault: Fault)
      returns (targets: seq<Target>, counts: Option<Counts>)
      requires Valid()
      modifies this
      ensures Valid()
      ensures !WellShaped(a) ==> targets == [] && counts == None && Tables() == old(Tables())
      ensures WellShaped(a) ==>
        && |targets| == |Selected(old(devices), customers, a, now)|
        && DistinctTokens(targets) && FromDevices(targets, old(devices))
        && (forall d :: HasTarget(targets, d) <==> d in Selected(old(devices), customers, a, now))
      ensures WellShaped(a) ==>
        match Delivered(targets, batchSize, push)
        case None => counts == None && Tables() == old(Tables())
        case Some(t) =>
          && counts == CountsOf(old(devices), |targets|, t, fault)
          && Tables() == Stored(old(Tables()), notification, t, fault)
    {
      if !WellShaped(a) { return [], None; }
      targets := FindTargets(a, customers, now);
      if targets == [] { return targets, if fault == OnResult then None else Some(Counts(0, 0, 0, 0)); }
      var tally := PushAll(targets, push);
      if tally.None? { return targets, None; }
      var sent, failures, invalid := tally.value.sent, tally.value.failures, tally.value.invalid;
      if failures != [] {
        if fault == OnFailureRows { return targets, None; }
        failureRows := failureRows + FailureRows(notification, failures);
      }
      var pruned := 0;
      if invalid != [] {
        if fault == OnPruning { return targets, None; }
        var dead := DevicesWith(devices, invalid);
        devices, pruned := devices - dead, |dead|;
      }
      counts := if fault == OnResult then None else Some(Counts(|targets|, sent, |failures|, pruned));
    }

    /** The loop over the batches. */
    method PushAll(targets: seq<Target>, push: Push) returns (total: Option<Tally>)
      requires batchSize >= 1
      ensures total == Delivered(targets, batchSize, push)
    {
      var tally, i, round := NOTHING, 0, 0;
      while i < |targets|
        invariant 0 <= i <= |targets|
        invariant Delivered(targets, batchSize, push) == Continued(tally, targets[i..], batchSize, push, round)
      {
        var batch := targets[i..][..Min(batchSize, |targets[i..]|)];
        var answers := push(round, TargetTokens(batch));
        if answers.None? { return None; }
        tally := CountAnswers(tally, ByToken(batch), answers.value);
        assert targets[i..][|batch|..] == targets[i + |batch|..];
        i, round := i + |batch|, round + 1;
      }
      assert targets[i..] == [];
      total := Some(tally);
    }

    method CountAnswers(t: Tally, byToken: map<string, Target>, answers: seq<Answer>) returns (tally: Tally)
      ensures tally == CountedAll(t, byToken, answers)
    {
      tally := t;
      for j := 0 to |answers|
        invariant tally == CountedAll(t, byToken, answers[..j])
      {
        assert answers[..j + 1][..j] == answers[..j];
        var result := answers[j];
        if result.token !in byToken { continue; }
        if result.ok {
          tally := tally.(sent := tally.sent + 1);
          continue;
        }
        tally := tally.(failures := tally.failures + [Failure(byToken[result.token], Reason(result))]);
        if result.invalidToken { tally := tally.(invalid := tally.invalid + [result.token]); }
      }
      assert answers[..|answers|] == answers;
    }
  }
}

/**
 * Login after a verified one-time code: find or create the customer, claim the identity, bring the
 * record up to date - one transaction. Together with merge, block, unblock and identity linking
 * these are the requests that write customer status and identities.
 */
module Login {
  import opened Schema
  import opened Customers

  // ---------------------------------------------------------------- the three parts of the transaction

  /** `primaryIsFree`: no other customer holds this phone or e-mail. */
  ghost predicate PrimaryIsFree(cs: CustomerTable, c: Id, i: Identifier) {
    forall o :: Holds(cs, i, o) ==> o == c
  }

  function WithPrimary(c: Customer, i: Identifier): Customer {
    match i.kind case Phone => c.(phone := Some(i.value)) case Email => c.(email := Some(i.value))
  }

  /** `activateAndBackfill`: an imported customer becomes active; an empty primary is filled if the value is free. */
  ghost function ActivatedRow(cs: CustomerTable, c: Id, i: Identifier): Customer
    requires c in cs
  {
    var row := if cs[c].status == Imported then cs[c].(status := Active) else cs[c];
    if Primary(row, i.kind).None? && PrimaryIsFree(cs, c, i) then WithPrimary(row, i) else row
  }

  ghost function Activated(cs: CustomerTable, c: Id, i: Identifier): CustomerTable
    requires c in cs
  {
    cs[c := ActivatedRow(cs, c, i)]
  }

  /** `claimVerifiedIdentity`: nobody else's identity can be taken over. */
  function Claimed(db: Db, c: Id, i: Identifier): Result<Db> {
    if i in db.identities then (if db.identities[i] == c then Ok(db) else Err(Conflict))
    else Ok(db.(identities := db.identities[i := c]))
  }

  function NewCustomer(i: Identifier): Customer {
    WithPrimary(Customer(None, None, Active, None, None), i)
  }

  /** `resolveOrCreateForLogin`: the customer reached, and the tables with a new row if there was none. */
  ghost function Resolved(db: Db, i: Identifier): (Db, Result<Id>) {
    match Found(db, i)
    case None => (db.(customers := db.customers[db.next := NewCustomer(i)], next := db.next + 1), Ok(db.next))
    case Some(c) => (db, if c in db.customers && db.customers[c].status == Blocked then Err(Forbidden) else Ok(c))
  }

  /** Claim and activation for one customer. */
  ghost function Linked(db: Db, c: Id, i: Identifier): Result<Db> {
    match Claimed(db, c, i)
    case Err(e) => Err(e)
    case Ok(claimed) => if c in claimed.customers then Ok(claimed.(customers := Activated(claimed.customers, c, i)))
      else Err(NotFound)
  }

  /** The whole login; an error rolls everything back. */
  ghost function LoggedIn(db: Db, i: Identifier): (Db, Result<Id>) {
    var (resolved, r) := Resolved(db, i);
    match r
    case Err(e) => (db, Err(e))
    case Ok(c) =>
      match Linked(resolved, c, i)
      case Err(e) => (db, Err(e))
      case Ok(db') => (db', Ok(c))
  }

  // ---------------------------------------------------------------- all writers of these tables

  /**
   * Merging, blocking, login and identity linking are one transaction each. Linking Shopify records and reconciling are
   * several writes with calls to Shopify in between, so each write is a step; a record created in Shopify is a
   * `ReplacePrimary` and a `LinkRecord` at once.
   */
  datatype Step =
    | Merge(source: Id, target: Id)
    | Block(customer: Id)
    | Unblock(customer: Id)
    | LogIn(identifier: Identifier)
    | Link(customer: Id, identifier: Identifier)
    | FillPrimary(customer: Id, record: string)
    | ReplacePrimary(customer: Id, record: string)
    | LinkRecord(customer: Id, record: string)
    | UnlinkRecord(record: string)

  ghost function Apply(db: Db, step: Step): Db {
    match step
    case Merge(s, t) => if MergeCheck(db, s, t).Ok? then MergedDb(db, s, t) else db
    case Block(c) =>
      if c in db.customers && db.customers[c].status != Merged && db.customers[c].status != Blocked
      then db.(customers := db.customers[c := db.customers[c].(status := Blocked)]) else db
    case Unblock(c) =>
      if c in db.customers && db.customers[c].status == Blocked
      then db.(customers := db.customers[c := db.customers[c].(status := Active)]) else db
    case LogIn(i) => LoggedIn(db, i).0
    case Link(c, i) =>
      // Only an active customer's access token is accepted.
      if c in db.customers && db.customers[c].status == Active && Linked(db, c, i).Ok?
      then Linked(db, c, i).value else db
    case FillPrimary(c, x) =>
      if c in db.customers && db.customers[c].shopifyId.None? then PrimaryReplaced(db, c, x) else db
    case ReplacePrimary(c, x) => if c in db.customers then PrimaryReplaced(db, c, x) else db
    case LinkRecord(c, x) => if c in db.customers then db.(links := LinkAdded(db.links, x, c)) else db
    case UnlinkRecord(x) => db.(links := db.links - {x})
  }

  /** The unique column refuses a record that is another customer's primary. */
  ghost function PrimaryReplaced(db: Db, c: Id, x: string): Db
    requires c in db.customers
  {
    if TakenElsewhere(db.customers, c, x) then db else db.(customers := WithShopifyId(db.customers, c, x))
  }

  ghost function Run(db: Db, steps: seq<Step>): Db
    decreases |steps|
  {
    if steps == [] then db else Run(Apply(db, steps[0]), steps[1..])
  }

  // ---------------------------------------------------------------- the forest over every run

  /** Same rows, same merge pointers: same walks. */
  ghost predicate SamePointers(cs: CustomerTable, cs': CustomerTable) {
    cs'.Keys == cs.Keys && forall c :: c in cs ==> cs'[c].mergedInto == cs[c].mergedInto
  }

  lemma {:induction false} SameWalk(cs: CustomerTable, cs': CustomerTable, c: Id, n: nat)
    requires SamePointers(cs, cs')
    ensures Ancestor(cs', c, n) == Ancestor(cs, c, n)
    decreases n
  {
    if n > 0 && c in cs && cs[c].mergedInto.Some? && cs[c].mergedInto.value in cs {
      SameWalk(cs, cs', cs[c].mergedInto.value, n - 1);
    }
  }

  lemma RowUpdateKeepsForest(cs: CustomerTable, c: Id, row: Customer)
    requires Forest(cs) && c in cs && row.mergedInto == cs[c].mergedInto
    requires row.status == Merged <==> cs[c].status == Merged
    ensures Forest(cs[c := row])
  {
    var cs' := cs[c := row];
    forall o ensures ParentExists(cs', o) { assert ParentExists(cs, o); }
    forall o | o in cs' ensures Rooted(cs', o) {
      assert Rooted(cs, o);
      SameRoot(cs, cs', o);
    }
  }

  lemma SameRoot(cs: CustomerTable, cs': CustomerTable, o: Id)
    requires SamePointers(cs, cs') && Rooted(cs, o)
    ensures Rooted(cs', o)
  {
    var n: nat :| IsRoot(cs, Ancestor(cs, o, n));
    SameWalk(cs, cs', o, n);
    assert IsRoot(cs', Ancestor(cs', o, n));
  }

  lemma NewRowKeepsForest(cs: CustomerTable, c: Id, row: Customer)
    requires Forest(cs) && c !in cs && row.mergedInto.None? && row.status != Merged
    ensures Forest(cs[c := row])
  {
    var cs' := cs[c := row];
    forall o ensures ParentExists(cs', o) { assert ParentExists(cs, o); }
    forall o | o in cs' ensures Rooted(cs', o) {
      if o == c {
        assert IsRoot(cs', Ancestor(cs', c, 0));
      } else {
        assert Rooted(cs, o);
        var n: nat :| IsRoot(cs, Ancestor(cs, o, n));
        WalkIgnoresNewRow(cs, c, row, o, n);
      }
    }
  }

  lemma {:induction false} WalkIgnoresNewRow(cs: CustomerTable, c: Id, row: Customer, o: Id, n: nat)
    requires c !in cs && o in cs && forall p :: ParentExists(cs, p)
    ensures Ancestor(cs[c := row], o, n) == Ancestor(cs, o, n) && Ancestor(cs, o, n) in cs
    decreases n
  {
    assert ParentExists(cs, o);
    if n > 0 && cs[o].mergedInto.Some? { WalkIgnoresNewRow(cs, c, row, cs[o].mergedInto.value, n - 1); }
  }

  lemma ActivatedKeepsColumns(cs: CustomerTable, c: Id, i: Identifier)
    requires UniqueColumns(cs) && c in cs
    ensures UniqueColumns(Activated(cs, c, i))
  {
    var cs' := Activated(cs, c, i);
    forall a, b, kind ensures PrimaryDistinct(cs', a, b, kind) {
      if a in cs && b in cs {
        PrimariesAfterActivation(cs, c, i, a, kind);
        PrimariesAfterActivation(cs, c, i, b, kind);
        assert PrimaryDistinct(cs, a, b, kind);
      }
    }
    forall a, b ensures ShopifyIdDistinct(cs', a, b) { assert ShopifyIdDistinct(cs, a, b); }
  }

  /** A primary that activation changed holds a value nobody else had. */
  lemma PrimariesAfterActivation(cs: CustomerTable, c: Id, i: Identifier, o: Id, kind: IdentifierType)
    requires c in cs && o in cs
    ensures var p := Primary(Activated(cs, c, i)[o], kind);
      p == Primary(cs[o], kind) || (o == c && p.Some? && forall a :: a in cs && Primary(cs[a], kind) == p ==> a == c)
  {
    if PrimaryIsFree(cs, c, i) {
      forall a | a in cs && Primary(cs[a], i.kind) == Some(i.value) ensures a == c { assert Holds(cs, i, a); }
    }
  }

  lemma LinkedKeepsValid(db: Db, c: Id, i: Identifier)
    requires Valid(db) && c in db.customers && Linked(db, c, i).Ok?
    ensures Valid(Linked(db, c, i).value)
  {
    ActivatedKeepsColumns(db.customers, c, i);
    RowUpdateKeepsForest(db.customers, c, ActivatedRow(db.customers, c, i));
    OwnersAfterLinking(db, c, i);
  }

  lemma OwnersAfterLinking(db: Db, c: Id, i: Identifier)
    requires c in db.customers && Linked(db, c, i).Ok?
    ensures var db' := Linked(db, c, i).value;
      && db'.customers == Activated(db.customers, c, i)
      && db'.identities == db.identities[i := c]
      && db'.links == db.links && db'.next == db.next
  {}

  lemma ResolvedKeepsValid(db: Db, i: Identifier)
    requires Valid(db)
    ensures Valid(Resolved(db, i).0)
    ensures Resolved(db, i).1.Ok? ==> Resolved(db, i).1.value in Resolved(db, i).0.customers
  {
    if Start(db, i).Some? {
      StartInTable(db, i);
      AncestorInTable(db.customers, Start(db, i).value, MAX_HOPS);
    } else {
      NewRowKeepsForest(db.customers, db.next, NewCustomer(i));
      NobodyHolds(db, i);
      NewRowKeepsColumns(db, i);
    }
  }

  lemma NobodyHolds(db: Db, i: Identifier)
    requires Start(db, i).None?
    ensures forall c :: !Holds(db.customers, i, c)
  {}

  lemma NewRowKeepsColumns(db: Db, i: Identifier)
    requires UniqueColumns(db.customers) && db.next !in db.customers && forall c :: !Holds(db.customers, i, c)
    ensures UniqueColumns(db.customers[db.next := NewCustomer(i)])
  {
    var cs, cs' := db.customers, db.customers[db.next := NewCustomer(i)];
    forall c, kind | c in cs && Primary(NewCustomer(i), kind).Some?
      ensures Primary(cs[c], kind) != Primary(NewCustomer(i), kind)
    {
      assert !Holds(cs, i, c);
    }
    forall a, b, kind ensures PrimaryDistinct(cs', a, b, kind) { assert PrimaryDistinct(cs, a, b, kind); }
    forall a, b ensures ShopifyIdDistinct(cs', a, b) { assert ShopifyIdDistinct(cs, a, b); }
  }

  lemma StatusKeepsValid(db: Db, c: Id, status: Status)
    requires Valid(db) && c in db.customers && db.customers[c].status != Merged && status != Merged
    ensures Valid(db.(customers := db.customers[c := db.customers[c].(status := status)]))
  {
    var cs, cs' := db.customers, db.customers[c := db.customers[c].(status := status)];
    RowUpdateKeepsForest(cs, c, cs'[c]);
    forall a, b, kind ensures PrimaryDistinct(cs', a, b, kind) { assert PrimaryDistinct(cs, a, b, kind); }
    forall a, b ensures ShopifyIdDistinct(cs', a, b) { assert ShopifyIdDistinct(cs, a, b); }
  }

  lemma PrimaryKeepsValid(db: Db, c: Id, x: string)
    requires Valid(db) && c in db.customers
    ensures Valid(PrimaryReplaced(db, c, x))
  {
    if !TakenElsewhere(db.customers, c, x) {
      var cs, cs' := db.customers, WithShopifyId(db.customers, c, x);
      RowUpdateKeepsForest(cs, c, cs'[c]);
      forall i, j, kind ensures PrimaryDistinct(cs', i, j, kind) { assert PrimaryDistinct(cs, i, j, kind); }
      forall i, j ensures ShopifyIdDistinct(cs', i, j) { assert ShopifyIdDistinct(cs, i, j); }
    }
  }

  lemma LinksKeepValid(db: Db, step: Step)
    requires Valid(db) && (step.LinkRecord? || step.UnlinkRecord?)
    ensures Valid(Apply(db, step))
  {}

  /** Each step keeps the unique columns, the references and the forest. */
  lemma StepKeepsValid(db: Db, step: Step)
    requires Valid(db)
    ensures Valid(Apply(db, step))
  {
    match step {
      case Merge(s, t) => if MergeCheck(db, s, t).Ok? { MergeKeepsValid(db, s, t); }
      case Block(c) => if Apply(db, step) != db { StatusKeepsValid(db, c, Blocked); }
      case Unblock(c) => if Apply(db, step) != db { StatusKeepsValid(db, c, Active); }
      case LogIn(i) =>
        ResolvedKeepsValid(db, i);
        var (resolved, r) := Resolved(db, i);
        if r.Ok? && Linked(resolved, r.value, i).Ok? { LinkedKeepsValid(resolved, r.value, i); }
      case Link(c, i) =>
        if c in db.customers && Linked(db, c, i).Ok? { LinkedKeepsValid(db, c, i); }
      case FillPrimary(c, x) => if c in db.customers { PrimaryKeepsValid(db, c, x); }
      case ReplacePrimary(c, x) => if c in db.customers { PrimaryKeepsValid(db, c, x); }
      case LinkRecord(_, _) => LinksKeepValid(db, step);
      case UnlinkRecord(_) => LinksKeepValid(db, step);
    }
  }

  /** Hence in every reachable state merged means pointing on, and every walk ends at a customer that is not merged. */
  lemma {:induction false} RunKeepsValid(db: Db, steps: seq<Step>)
    requires Valid(db)
    ensures Valid(Run(db, steps))
    decreases |steps|
  {
    if steps != [] {
      StepKeepsValid(db, steps[0]);
      RunKeepsValid(Apply(db, steps[0]), steps[1..]);
    }
  }

  lemma EveryWalkEndsAlive(db: Db, c: Id) returns (d: nat)
    requires Valid(db) && c in db.customers
    ensures HasDepth(db.customers, c, d) && Ancestor(db.customers, c, d) in db.customers
    ensures db.customers[Ancestor(db.customers, c, d)].status != Merged
  {
    assert Rooted(db.customers, c);
    d := DepthExists(db.customers, c);
  }

  ghost predicate StaysMerged(cs: CustomerTable, cs': CustomerTable, c: Id) {
    IsMerged(cs, c) ==> IsMerged(cs', c) && cs'[c].mergedInto == cs[c].mergedInto
  }

  lemma LinkedKeepsMerged(db: Db, o: Id, i: Identifier, c: Id)
    requires o in db.customers && Linked(db, o, i).Ok?
    ensures StaysMerged(db.customers, Linked(db, o, i).value.customers, c)
  {
    OwnersAfterLinking(db, o, i);
  }

  lemma MergeKeepsMerged(db: Db, s: Id, t: Id, c: Id)
    requires MergeCheck(db, s, t).Ok?
    ensures StaysMerged(db.customers, MergedDb(db, s, t).customers, c)
  {}

  lemma LoginKeepsMerged(db: Db, i: Identifier, c: Id)
    requires Valid(db)
    ensures StaysMerged(db.customers, LoggedIn(db, i).0.customers, c)
  {
    ResolvedKeepsValid(db, i);
    var (resolved, r) := Resolved(db, i);
    if r.Ok? && Linked(resolved, r.value, i).Ok? { LinkedKeepsMerged(resolved, r.value, i, c); }
  }

  lemma BlockingKeepsMerged(db: Db, step: Step, c: Id)
    requires step.Block? || step.Unblock?
    ensures StaysMerged(db.customers, Apply(db, step).customers, c)
  {}

  predicate OnRecords(step: Step) {
    step.FillPrimary? || step.ReplacePrimary? || step.LinkRecord? || step.UnlinkRecord?
  }

  lemma RecordsKeepStatus(db: Db, step: Step, c: Id)
    requires OnRecords(step)
    ensures Apply(db, step).identities == db.identities
    ensures StaysMerged(db.customers, Apply(db, step).customers, c)
    ensures IsMerged(Apply(db, step).customers, c) ==> IsMerged(db.customers, c)
  {}

  /** A merged customer stays merged, into the same target. */
  lemma StepKeepsMerged(db: Db, step: Step, c: Id)
    requires Valid(db)
    ensures StaysMerged(db.customers, Apply(db, step).customers, c)
  {
    match step {
      case Merge(s, t) => if MergeCheck(db, s, t).Ok? { MergeKeepsMerged(db, s, t, c); }
      case Block(_) => BlockingKeepsMerged(db, step, c);
      case Unblock(_) => BlockingKeepsMerged(db, step, c);
      case LogIn(i) => LoginKeepsMerged(db, i, c);
      case Link(o, i) => if o in db.customers && Linked(db, o, i).Ok? { LinkedKeepsMerged(db, o, i, c); }
      case FillPrimary(_, _) => RecordsKeepStatus(db, step, c);
      case ReplacePrimary(_, _) => RecordsKeepStatus(db, step, c);
      case LinkRecord(_, _) => RecordsKeepStatus(db, step, c);
      case UnlinkRecord(_) => RecordsKeepStatus(db, step, c);
    }
  }

  lemma {:induction false} MergedIsAbsorbing(db: Db, steps: seq<Step>, c: Id)
    requires Valid(db) && IsMerged(db.customers, c)
    ensures IsMerged(Run(db, steps).customers, c)
    ensures Run(db, steps).customers[c].mergedInto == db.customers[c].mergedInto
    decreases |steps|
  {
    if steps != [] {
      StepKeepsValid(db, steps[0]);
      StepKeepsMerged(db, steps[0], c);
      MergedIsAbsorbing(Apply(db, steps[0]), steps[1..], c);
    }
  }

  // ---------------------------------------------------------------- identities of merged customers

  /** The login of someone who has not verified the identifier and whose record lies more than five merges deep. */
  ghost predicate StartsDeep(db: Db, step: Step) {
    && step.LogIn? && step.identifier !in db.identities && Start(db, step.identifier).Some?
    && !IsRoot(db.customers, Ancestor(db.customers, Start(db, step.identifier).value, MAX_HOPS))
  }

  /** It is the one step that gives a merged customer an identity. */
  lemma StepKeepsNoMergedIdentityIff(db: Db, step: Step)
    requires Valid(db) && NoMergedIdentity(db)
    ensures NoMergedIdentity(Apply(db, step)) <==> !StartsDeep(db, step)
  {
    match step {
      case Merge(s, t) => if MergeCheck(db, s, t).Ok? { MergeKeepsNoMergedIdentity(db, s, t); }
      case Block(c) => SameIdentities(db, Apply(db, step));
      case Unblock(c) => SameIdentities(db, Apply(db, step));
      case LogIn(i) => LoginKeepsNoMergedIdentityIff(db, i);
      case Link(c, i) =>
        if c in db.customers && db.customers[c].status == Active && Linked(db, c, i).Ok? {
          LinkAddsIdentityOf(db, c, i);
        }
      case FillPrimary(_, _) => RecordsKeepIdentities(db, step);
      case ReplacePrimary(_, _) => RecordsKeepIdentities(db, step);
      case LinkRecord(_, _) => RecordsKeepIdentities(db, step);
      case UnlinkRecord(_) => RecordsKeepIdentities(db, step);
    }
  }

  lemma RecordsKeepIdentities(db: Db, step: Step)
    requires NoMergedIdentity(db) && OnRecords(step)
    ensures NoMergedIdentity(Apply(db, step))
  {
    forall c
      ensures IsMerged(Apply(db, step).customers, c) ==> IsMerged(db.customers, c)
    {
      RecordsKeepStatus(db, step, c);
    }
    RecordsKeepStatus(db, step, 0);
    SameIdentities(db, Apply(db, step));
  }

  /** The state after the first `n` steps. */
  ghost function StateAt(db: Db, steps: seq<Step>, n: nat): Db
    requires n <= |steps|
  {
    Run(db, steps[..n])
  }

  lemma StateAdvances(db: Db, steps: seq<Step>, n: nat)
    requires n < |steps|
    ensures StateAt(db, steps, n + 1) == Apply(StateAt(db, steps, n), steps[n])
  {
    assert steps[..n + 1] == steps[..n] + [steps[n]];
    RunSplits(db, steps[..n], [steps[n]]);
    assert Run(StateAt(db, steps, n), [steps[n]]) == Run(Apply(StateAt(db, steps, n), steps[n]), []);
  }

  lemma {:induction false} ShallowSoFar(db: Db, steps: seq<Step>, n: nat)
    requires Valid(db) && NoMergedIdentity(db) && n <= |steps|
    requires forall k :: 0 <= k < n ==> !StartsDeep(StateAt(db, steps, k), steps[k])
    ensures NoMergedIdentity(StateAt(db, steps, n))
    decreases n
  {
    if n > 0 {
      ShallowSoFar(db, steps, n - 1);
      RunKeepsValid(db, steps[..n - 1]);
      StateAdvances(db, steps, n - 1);
      StepKeepsNoMergedIdentityIff(StateAt(db, steps, n - 1), steps[n - 1]);
    }
  }

  /** Over a whole run no merged customer ever owns an identity if and only if none of its logins starts that deep. */
  lemma RunKeepsNoMergedIdentityIff(db: Db, steps: seq<Step>)
    requires Valid(db) && NoMergedIdentity(db)
    ensures (forall n :: 0 <= n <= |steps| ==> NoMergedIdentity(StateAt(db, steps, n))) <==>
      forall n :: 0 <= n < |steps| ==> !StartsDeep(StateAt(db, steps, n), steps[n])
  {
    if forall n :: 0 <= n < |steps| ==> !StartsDeep(StateAt(db, steps, n), steps[n]) {
      forall n | 0 <= n <= |steps| ensures NoMergedIdentity(StateAt(db, steps, n)) { ShallowSoFar(db, steps, n); }
    } else {
      var n :| 0 <= n < |steps| && StartsDeep(StateAt(db, steps, n), steps[n]);
      if NoMergedIdentity(StateAt(db, steps, n)) {
        RunKeepsValid(db, steps[..n]);
        StateAdvances(db, steps, n);
        StepKeepsNoMergedIdentityIff(StateAt(db, steps, n), steps[n]);
        assert !NoMergedIdentity(StateAt(db, steps, n + 1));
      }
    }
  }

  lemma SameIdentities(db: Db, db': Db)
    requires NoMergedIdentity(db) && db'.identities == db.identities
    requires forall c :: IsMerged(db'.customers, c) ==> IsMerged(db.customers, c)
    ensures NoMergedIdentity(db')
  {
    forall i | i in db'.identities
      ensures !IsMerged(db'.customers, db'.identities[i])
    {
      assert !IsMerged(db.customers, db.identities[i]);
    }
  }

  lemma LinkAddsIdentityOf(db: Db, c: Id, i: Identifier)
    requires c in db.customers && NoMergedIdentity(db) && Linked(db, c, i).Ok?
    ensures NoMergedIdentity(Linked(db, c, i).value) <==> !IsMerged(db.customers, c)
  {
    OwnersAfterLinking(db, c, i);
    var db' := Linked(db, c, i).value;
    assert forall o :: IsMerged(db'.customers, o) <==> IsMerged(db.customers, o);
    assert db'.identities[i] == c;
    forall j | j in db'.identities && j != i
      ensures !IsMerged(db'.customers, db'.identities[j])
    {
      assert !IsMerged(db.customers, db.identities[j]);
    }
    if IsMerged(db.customers, c) { assert IsMerged(db'.customers, db'.identities[i]); }
  }

  lemma NewLoginKeepsNoMergedIdentity(db: Db, i: Identifier)
    requires Valid(db) && NoMergedIdentity(db) && Start(db, i).None?
    ensures NoMergedIdentity(LoggedIn(db, i).0)
  {
    var (resolved, r) := Resolved(db, i);
    ResolvedKeepsValid(db, i);
    SameIdentities(db, resolved);
    LinkAddsIdentityOf(resolved, r.value, i);
  }

  lemma LoginKeepsNoMergedIdentityIff(db: Db, i: Identifier)
    requires Valid(db) && NoMergedIdentity(db)
    ensures NoMergedIdentity(LoggedIn(db, i).0) <==>
      !(i !in db.identities && Start(db, i).Some?
        && !IsRoot(db.customers, Ancestor(db.customers, Start(db, i).value, MAX_HOPS)))
  {
    if Start(db, i).None? {
      NewLoginKeepsNoMergedIdentity(db, i);
    } else {
      StartInTable(db, i);
      var c := Found(db, i).value;
      AncestorInTable(db.customers, Start(db, i).value, MAX_HOPS);
      if db.customers[c].status != Blocked && Linked(db, c, i).Ok? { LinkAddsIdentityOf(db, c, i); }
      if i in db.identities { assert !IsMerged(db.customers, db.identities[i]); }
    }
  }

  /** Whoever owns a verified identity can log in with it iff neither merged nor blocked. */
  lemma IdentityLoginIff(db: Db, i: Identifier)
    requires Valid(db) && i in db.identities
    ensures LoggedIn(db, i).1.Ok? <==> db.customers[db.identities[i]].status !in {Merged, Blocked}
    ensures LoggedIn(db, i).1.Ok? ==> LoggedIn(db, i).1.value == db.identities[i]
  {
    var o := db.identities[i];
    AncestorInTable(db.customers, o, MAX_HOPS);
    if IsMerged(db.customers, o) { NoCycle(db.customers, o, MAX_HOPS); }
  }

  /**
   * What a login leaves behind on a record that is not merged: an active owner of the identity, with the value as its
   * primary if nobody else has it.
   */
  lemma LoginSettles(db: Db, i: Identifier)
    requires Valid(db) && LoggedIn(db, i).1.Ok? && !IsMerged(LoggedIn(db, i).0.customers, LoggedIn(db, i).1.value)
    ensures var (db', r) := LoggedIn(db, i); var c := r.value;
      && Valid(db') && c in db'.customers && i in db'.identities && db'.identities[i] == c
      && db'.customers[c].status == Active
      && (Primary(db'.customers[c], i.kind).Some? || !PrimaryIsFree(db'.customers, c, i))
  {
    StepKeepsValid(db, LogIn(i));
    ResolvedKeepsValid(db, i);
    var (resolved, r) := Resolved(db, i);
    OwnersAfterLinking(resolved, r.value, i);
    LoginActivates(resolved.customers, r.value, i);
  }

  lemma LoginActivates(cs: CustomerTable, c: Id, i: Identifier)
    requires c in cs && cs[c].status != Blocked && cs[c].status != Merged
    ensures var row := Activated(cs, c, i)[c];
      row.status == Active && (Primary(row, i.kind).Some? || !PrimaryIsFree(Activated(cs, c, i), c, i))
  {
    if Primary(cs[c], i.kind).None? && !PrimaryIsFree(cs, c, i) {
      var o :| Holds(cs, i, o) && o != c;
      assert Holds(Activated(cs, c, i), i, o);
    }
  }

  /** Logging in again reaches the same customer and changes nothing. */
  lemma LoginIsIdempotent(db: Db, i: Identifier)
    requires Valid(db) && LoggedIn(db, i).1.Ok? && !IsMerged(LoggedIn(db, i).0.customers, LoggedIn(db, i).1.value)
    ensures LoggedIn(LoggedIn(db, i).0, i) == LoggedIn(db, i)
  {
    LoginSettles(db, i);
    SettledLogin(LoggedIn(db, i).0, LoggedIn(db, i).1.value, i);
  }

  lemma SettledLogin(db: Db, c: Id, i: Identifier)
    requires Valid(db) && c in db.customers && i in db.identities && db.identities[i] == c
    requires db.customers[c].status == Active
    requires Primary(db.customers[c], i.kind).Some? || !PrimaryIsFree(db.customers, c, i)
    ensures LoggedIn(db, i) == (db, Ok(c))
  {
    assert db.customers[c].mergedInto.None?;
    assert Activated(db.customers, c, i) == db.customers;
  }

  /** In a forest a walk of at least one hop from a merged customer never returns to it. */
  lemma NoCycle(cs: CustomerTable, c: Id, n: nat)
    requires Forest(cs) && c in cs && cs[c].mergedInto.Some? && n > 0
    ensures Ancestor(cs, c, n) != c
  {
    assert ParentExists(cs, c) && Rooted(cs, c);
    var d := DepthExists(cs, c);
    if n >= d {
      RootStops(cs, c, d, n);
    } else {
      WalkInTwo(cs, c, n, d - n);
      assert !IsRoot(cs, Ancestor(cs, c, d - n));
    }
  }

  // ---------------------------------------------------------------- the case that goes wrong

  /**
   * A customer whose record lies more than five merges deep and who never verified the identifier:
   * the first login succeeds but attaches the identity to a merged record, and every login after it fails.
   */
  lemma DeepLoginLocksOut(db: Db, i: Identifier)
    requires Valid(db) && i !in db.identities && Start(db, i).Some?
    requires !IsRoot(db.customers, Ancestor(db.customers, Start(db, i).value, MAX_HOPS))
    ensures LoggedIn(db, i).1 == Ok(Found(db, i).value)
    ensures LoggedIn(LoggedIn(db, i).0, i).1.Err?
  {
    StartInTable(db, i);
    var c := Found(db, i).value;
    AncestorInTable(db.customers, Start(db, i).value, MAX_HOPS);
    var db' := LoggedIn(db, i).0;
    StepKeepsValid(db, LogIn(i));
    OwnersAfterLinking(db, c, i);
    IdentityLoginIff(db', i);
  }

  /** Customers 0..6 as imported from Shopify, the first `k` of them merged each into the next. */
  function Chain(k: nat): Db {
    Db(map c: Id | 0 <= c < 7 :: ChainRow(c, k), map[], map[], 7)
  }

  function ChainRow(c: Id, k: nat): Customer {
    Customer(if c == 0 then Some("+910000000000") else None, None, if c < k then Merged else Imported, None,
      if c < k then Some(c + 1) else None)
  }

  function ChainMerges(k: nat): seq<Step> {
    if k == 0 then [] else ChainMerges(k - 1) + [Merge(k - 1, k)]
  }

  lemma ChainStep(k: nat)
    requires k < 6
    ensures Apply(Chain(k), Merge(k, k + 1)) == Chain(k + 1)
  {
    var db, db' := Chain(k), Chain(k + 1);
    assert MergedCustomers(db.customers, k, k + 1) == db'.customers;
    assert Reowned(db.identities, k, k + 1) == map[];
    assert MergedLinks(db, k, k + 1) == map[];
  }

  lemma {:induction false} RunSplits(db: Db, a: seq<Step>, b: seq<Step>)
    ensures Run(db, a + b) == Run(Run(db, a), b)
    decreases |a|
  {
    if a == [] {
      assert a + b == b;
    } else {
      assert (a + b)[0] == a[0] && (a + b)[1..] == a[1..] + b;
      RunSplits(Apply(db, a[0]), a[1..], b);
    }
  }

  lemma {:induction false} ChainRun(k: nat)
    requires k <= 6
    ensures Run(Chain(0), ChainMerges(k)) == Chain(k)
    decreases k
  {
    if k > 0 {
      ChainRun(k - 1);
      ChainStep(k - 1);
      RunSplits(Chain(0), ChainMerges(k - 1), [Merge(k - 1, k)]);
      assert Run(Chain(k - 1), [Merge(k - 1, k)]) == Run(Apply(Chain(k - 1), Merge(k - 1, k)), []);
    }
  }

  /** Such a state is reachable: six merges of never-verified records, each into the next. */
  lemma DeepChainIsReachable()
    ensures Valid(Chain(0)) && NoMergedIdentity(Chain(0))
    ensures var db, i := Run(Chain(0), ChainMerges(6)), DEEP;
      && Valid(db)
      && LoggedIn(db, i).1 == Ok(5) && IsMerged(db.customers, 5)
      && LoggedIn(LoggedIn(db, i).0, i).1.Err?
  {
    ChainValid();
    ChainRun(6);
    RunKeepsValid(Chain(0), ChainMerges(6));
    DeepChainLogin();
  }

  lemma DeepChainLogin()
    requires Valid(Chain(6))
    ensures var db, i := Chain(6), DEEP;
      && LoggedIn(db, i).1 == Ok(5) && IsMerged(db.customers, 5)
      && LoggedIn(LoggedIn(db, i).0, i).1.Err?
  {
    ChainFound(6);
    assert ChainRow(5, 6).status == Merged && ChainRow(0, 6).status == Merged;
    DeepLoginLocksOut(Chain(6), DEEP);
  }

  lemma ChainValid()
    ensures Valid(Chain(0))
  {
    var cs := Chain(0).customers;
    forall c | c in cs ensures Rooted(cs, c) { assert IsRoot(cs, Ancestor(cs, c, 0)); }
  }

  lemma {:induction false} ChainWalk(k: nat, c: nat, n: nat)
    requires c + n <= k <= 6
    ensures Ancestor(Chain(k).customers, c, n) == c + n
    decreases n
  {
    if n > 0 { ChainWalk(k, c + 1, n - 1); }
  }

  const DEEP := Identifier(Phone, "+910000000000")

  lemma ChainFound(k: nat)
    requires 5 <= k <= 6 && Valid(Chain(k))
    ensures Start(Chain(k), DEEP) == Some(0) && Found(Chain(k), DEEP) == Some(5)
  {
    var db := Chain(k);
    assert Holds(db.customers, DEEP, 0);
    HolderUnique(db.customers, DEEP, 0, Start(db, DEEP).value);
    ChainWalk(k, 0, MAX_HOPS);
  }

  /**
   * A reachable merge that a login does not follow: whoever reached 5 over five merges still reaches 5
   * after 5 was merged into 6.
   */
  lemma MergeMissesDeepLogin()
    ensures var db := Run(Chain(0), ChainMerges(5));
      && Valid(db) && MergeCheck(db, 5, 6).Ok?
      && Found(db, DEEP) == Some(5) && Found(MergedDb(db, 5, 6), DEEP) == Some(5) && Renamed(5, 5, 6) == 6
  {
    ChainValid();
    ChainRun(5);
    RunKeepsValid(Chain(0), ChainMerges(5));
    DeepMerge();
  }

  lemma DeepMerge()
    requires Valid(Chain(5))
    ensures var db := Chain(5);
      && MergeCheck(db, 5, 6).Ok?
      && Found(db, DEEP) == Some(5) && Found(MergedDb(db, 5, 6), DEEP) == Some(5)
  {
    ChainFound(5);
    assert ChainRow(5, 5).status == Imported && ChainRow(6, 5).status == Imported;
    ChainStep(5);
    MergeKeepsValid(Chain(5), 5, 6);
    ChainFound(6);
  }

  // ---------------------------------------------------------------- the service

  class IdentityService {
    var customers: CustomerTable
    var identities: map<Identifier, Id>
    var links: map<string, Id>
    var next: Id

    ghost function Tables(): Db reads this {
      Db(customers, identities, links, next)
    }

    constructor (db: Db)
      ensures Tables() == db
    {
      customers, identities, links, next := db.customers, db.identities, db.links, db.next;
    }

    /** Terminates, and returns the same bounded ancestor, even on dangling or cyclic data. */
    method ResolveMergeChain(c: Id) returns (current: Id)
      ensures current == Ancestor(customers, c, MAX_HOPS)
    {
      current := c;
      var hops := 0;
      while hops < MAX_HOPS && current in customers && customers[current].mergedInto.Some?
        invariant hops <= MAX_HOPS
        invariant Ancestor(customers, c, MAX_HOPS) == Ancestor(customers, current, MAX_HOPS - hops)
        decreases MAX_HOPS - hops
      {
        var next := customers[current].mergedInto.value;
        if next !in customers { break; }
        current, hops := next, hops + 1;
      }
    }

    method ResolveOrCreateForLogin(i: Identifier) returns (r: Result<Id>, isNewUser: bool)
      requires Valid(Tables())
      modifies this
      ensures (Tables(), r) == Resolved(old(Tables()), i)
      ensures isNewUser <==> Start(old(Tables()), i).None?
    {
      isNewUser := false;
      var start: Id;
      if i in identities {
        start := identities[i];
      } else if c :| c in customers && Primary(customers[c], i.kind) == Some(i.value) {
        start := c;
        assert Holds(customers, i, c);
        HolderUnique(customers, i, c, Start(Tables(), i).value);
      } else {
        assert forall c :: !Holds(customers, i, c);
        customers, next := customers[next := NewCustomer(i)], next + 1;
        return Ok(next - 1), true;
      }
      var c := ResolveMergeChain(start);
      r := if c in customers && customers[c].status == Blocked then Err(Forbidden) else Ok(c);
    }

    method ClaimVerifiedIdentity(c: Id, i: Identifier) returns (r: Result<()>)
      modifies this
      ensures match Claimed(old(Tables()), c, i)
        case Err(e) => r == Err(e) && Tables() == old(Tables())
        case Ok(db) => r == Ok(()) && Tables() == db
    {
      if i in identities {
        r := if identities[i] == c then Ok(()) else Err(Conflict);
      } else {
        identities := identities[i := c];
        r := Ok(());
      }
    }

    method ActivateAndBackfill(c: Id, i: Identifier)
      requires c in customers
      modifies this
      ensures Tables() == old(Tables()).(customers := Activated(old(customers), c, i))
    {
      var row := customers[c];
      if row.status == Imported { row := row.(status := Active); }
      if Primary(row, i.kind).None? {
        if o :| o in customers && Primary(customers[o], i.kind) == Some(i.value) && o != c {
          assert Holds(customers, i, o);
        } else {
          row := WithPrimary(row, i);
        }
      }
      customers := customers[c := row];
    }

    /** Claim, then activation; an error leaves the tables as they were. */
    method LinkVerified(c: Id, i: Identifier) returns (r: Result<()>)
      requires c in customers
      modifies this
      ensures match Linked(old(Tables()), c, i)
        case Err(e) => r == Err(e) && Tables() == old(Tables())
        case Ok(db) => r == Ok(()) && Tables() == db
    {
      r := ClaimVerifiedIdentity(c, i);
      if r.Ok? { ActivateAndBackfill(c, i); }
    }

    /** The transaction of `verifyLoginOtp`: an error leaves the tables as they were. */
    method VerifyLogin(i: Identifier) returns (r: Result<Id>)
      requires Valid(Tables())
      modifies this
      ensures (Tables(), r) == LoggedIn(old(Tables()), i) && Valid(Tables())
    {
      assert Valid(LoggedIn(Tables(), i).0) by { StepKeepsValid(Tables(), LogIn(i)); }
      assert Resolved(Tables(), i).1.Ok? ==> Resolved(Tables(), i).1.value in Resolved(Tables(), i).0.customers by {
        ResolvedKeepsValid(Tables(), i);
      }
      var before := (customers, identities, links, next);
      var isNew;
      r, isNew := ResolveOrCreateForLogin(i);
      if r.Ok? {
        var linked := LinkVerified(r.value, i);
        if linked.Ok? { return; }
        r := Err(linked.error);
      }
      customers, identities, links, next := before.0, before.1, before.2, before.3;
    }
  }
}

/**
 * The customer table with its satellites that decide who a login reaches: verified identities and
 * Shopify links. Merged customers are kept and point to the customer they were merged into.
 */
module Customers {
  import opened Schema

  datatype Customer = Customer(
    phone: Option<string>, email: Option<string>, status: Status, shopifyId: Option<string>, mergedInto: Option<Id>)

  /** Identities and links are keyed by their globally unique column; the value is the owning customer. */
  datatype Db = Db(customers: map<Id, Customer>, identities: map<Identifier, Id>, links: map<string, Id>, next: Id)

  type CustomerTable = map<Id, Customer>

  function Primary(c: Customer, kind: IdentifierType): Option<string> {
    match kind case Phone => c.phone case Email => c.email
  }

  /** `@unique` on primaryPhone, primaryEmail and shopifyCustomerId; nulls do not clash. */
  ghost predicate UniqueColumns(cs: CustomerTable) {
    && (forall i, j, kind :: PrimaryDistinct(cs, i, j, kind))
    && (forall i, j :: ShopifyIdDistinct(cs, i, j))
  }

  ghost predicate PrimaryDistinct(cs: CustomerTable, i: Id, j: Id, kind: IdentifierType) {
    i in cs && j in cs && Primary(cs[i], kind).Some? && Primary(cs[i], kind) == Primary(cs[j], kind) ==> i == j
  }

  ghost predicate ShopifyIdDistinct(cs: CustomerTable, i: Id, j: Id) {
    i in cs && j in cs && cs[i].shopifyId.Some? && cs[i].shopifyId == cs[j].shopifyId ==> i == j
  }

  // ---------------------------------------------------------------- the merge forest

  const MAX_HOPS := 5

  predicate IsRoot(cs: CustomerTable, c: Id) {
    c in cs && cs[c].mergedInto.None?
  }

  /** The customer reached after following at most `n` merge pointers; a root, or a dangling pointer, ends the walk. */
  function Ancestor(cs: CustomerTable, c: Id, n: nat): Id
    decreases n
  {
    if n == 0 || c !in cs || cs[c].mergedInto.None? || cs[c].mergedInto.value !in cs then c
    else Ancestor(cs, cs[c].mergedInto.value, n - 1)
  }

  /** `d` pointers lead from `c` to a customer that is not merged, and no fewer do. */
  ghost predicate HasDepth(cs: CustomerTable, c: Id, d: nat) {
    IsRoot(cs, Ancestor(cs, c, d)) && forall k :: 0 <= k < d ==> !IsRoot(cs, Ancestor(cs, c, k))
  }

  ghost predicate Rooted(cs: CustomerTable, c: Id) {
    exists n: nat :: IsRoot(cs, Ancestor(cs, c, n))
  }

  ghost predicate Forest(cs: CustomerTable) {
    && (forall c :: c in cs ==> (cs[c].status == Merged <==> cs[c].mergedInto.Some?))
    && (forall c :: ParentExists(cs, c))
    && (forall c :: c in cs ==> Rooted(cs, c))
  }

  ghost predicate ParentExists(cs: CustomerTable, c: Id) {
    c in cs && cs[c].mergedInto.Some? ==> cs[c].mergedInto.value in cs
  }

  ghost predicate Valid(db: Db) {
    && UniqueColumns(db.customers)
    && Forest(db.customers)
    && (forall i :: i in db.identities ==> db.identities[i] in db.customers)
    && (forall x :: x in db.links ==> db.links[x] in db.customers)
    && (forall c :: c in db.customers ==> c < db.next)
  }

  lemma {:induction false} AncestorInTable(cs: CustomerTable, c: Id, n: nat)
    requires c in cs
    ensures Ancestor(cs, c, n) in cs
    decreases n
  {
    if n > 0 && cs[c].mergedInto.Some? && cs[c].mergedInto.value in cs {
      AncestorInTable(cs, cs[c].mergedInto.value, n - 1);
    }
  }

  /** Past a root, more hops change nothing. */
  lemma {:induction false} RootStops(cs: CustomerTable, c: Id, k: nat, n: nat)
    requires k <= n && IsRoot(cs, Ancestor(cs, c, k))
    ensures Ancestor(cs, c, n) == Ancestor(cs, c, k)
    decreases k
  {
    if k > 0 && c in cs && cs[c].mergedInto.Some? && cs[c].mergedInto.value in cs {
      RootStops(cs, cs[c].mergedInto.value, k - 1, n - 1);
    }
  }

  lemma {:induction false} WalkInTwo(cs: CustomerTable, c: Id, m: nat, n: nat)
    ensures Ancestor(cs, c, m + n) == Ancestor(cs, Ancestor(cs, c, m), n)
    decreases m
  {
    if m > 0 && c in cs && cs[c].mergedInto.Some? && cs[c].mergedInto.value in cs {
      WalkInTwo(cs, cs[c].mergedInto.value, m - 1, n);
    }
  }

  /**
   * In a forest every customer has a depth, and the bounded walk stops
   * at the live root iff the depth is within the bound.
   */
  lemma ResolveFindsRootIff(cs: CustomerTable, c: Id, d: nat)
    requires HasDepth(cs, c, d)
    ensures Ancestor(cs, c, MAX_HOPS) == Ancestor(cs, c, if d < MAX_HOPS then d else MAX_HOPS)
    ensures IsRoot(cs, Ancestor(cs, c, MAX_HOPS)) <==> d <= MAX_HOPS
    ensures d <= MAX_HOPS ==> Ancestor(cs, c, MAX_HOPS) == Ancestor(cs, c, d)
  {
    if d <= MAX_HOPS { RootStops(cs, c, d, MAX_HOPS); }
  }

  lemma DepthExists(cs: CustomerTable, c: Id) returns (d: nat)
    requires Rooted(cs, c)
    ensures HasDepth(cs, c, d)
  {
    var n: nat :| IsRoot(cs, Ancestor(cs, c, n));
    d := 0;
    while !IsRoot(cs, Ancestor(cs, c, d))
      invariant d <= n && forall k :: 0 <= k < d ==> !IsRoot(cs, Ancestor(cs, c, k))
      decreases n - d
    {
      d := d + 1;
    }
  }

  // ---------------------------------------------------------------- login lookup

  ghost predicate Holds(cs: CustomerTable, i: Identifier, c: Id) {
    c in cs && Primary(cs[c], i.kind) == Some(i.value)
  }

  /** Where a login starts: the owner of the verified identity, else the holder of the primary phone or e-mail. */
  ghost function Start(db: Db, i: Identifier): Option<Id> {
    if i in db.identities then Some(db.identities[i])
    else if exists c :: Holds(db.customers, i, c) then var c :| Holds(db.customers, i, c); Some(c)
    else None
  }

  /** Whom a login reaches, before the blocked check: at most five merge pointers are followed. */
  ghost function Found(db: Db, i: Identifier): Option<Id> {
    match Start(db, i) case None => None case Some(c) => Some(Ancestor(db.customers, c, MAX_HOPS))
  }

  // ---------------------------------------------------------------- the effect of a merge

  /**
   * Only the source and the target change: the source is marked, and
   * its Shopify id handed over if the target has none.
   */
  function MergedCustomers(cs: CustomerTable, s: Id, t: Id): CustomerTable
    requires s in cs && t in cs
  {
    var handOver := cs[s].shopifyId.Some? && cs[t].shopifyId.None?;
    var source :=
      cs[s].(status := Merged, mergedInto := Some(t), shopifyId := if handOver then None else cs[s].shopifyId);
    var target := if handOver then cs[t].(shopifyId := cs[s].shopifyId) else cs[t];
    cs[s := source][t := target]
  }

  function Reowned<K>(owners: map<K, Id>, s: Id, t: Id): map<K, Id> {
    map k | k in owners :: if owners[k] == s then t else owners[k]
  }

  function MergedLinks(db: Db, s: Id, t: Id): map<string, Id>
    requires s in db.customers
  {
    var moved := Reowned(db.links, s, t);
    if db.customers[s].shopifyId.Some? then moved[db.customers[s].shopifyId.value := t] else moved
  }

  function MergedDb(db: Db, s: Id, t: Id): Db
    requires s in db.customers && t in db.customers
  {
    Db(MergedCustomers(db.customers, s, t), Reowned(db.identities, s, t), MergedLinks(db, s, t), db.next)
  }

  /** The checks of `merge`, in order. */
  function MergeCheck(db: Db, s: Id, t: Id): Result<()> {
    if s == t then Err(BadRequest)
    else if s !in db.customers || t !in db.customers then Err(NotFound)
    else if db.customers[s].status == Merged || db.customers[t].status == Merged || db.customers[t].status == Blocked
    then Err(BadRequest)
    else Ok(())
  }

  /**
   * A walk after the merge: it ends at the target if it used to reach
   * the source with a hop to spare, else where it did.
   */
  lemma {:induction false} AncestorAfterMerge(cs: CustomerTable, s: Id, t: Id, c: Id, n: nat)
    requires IsRoot(cs, s) && IsRoot(cs, t) && s != t && c in cs
    ensures Ancestor(MergedCustomers(cs, s, t), c, n) ==
      if n > 0 && Ancestor(cs, c, n - 1) == s then t else Ancestor(cs, c, n)
    decreases n
  {
    var cs' := MergedCustomers(cs, s, t);
    if n > 0 {
      if c == s {
        assert Ancestor(cs', t, n - 1) == t;
      } else if cs[c].mergedInto.Some? && cs[c].mergedInto.value in cs {
        AncestorAfterMerge(cs, s, t, cs[c].mergedInto.value, n - 1);
      }
    }
  }

  lemma HolderUnique(cs: CustomerTable, i: Identifier, c: Id, c': Id)
    requires UniqueColumns(cs) && Holds(cs, i, c) && Holds(cs, i, c')
    ensures c == c'
  {
    assert PrimaryDistinct(cs, c, c', i.kind);
  }

  /** A merge renames the start of a login only if the source itself owned the verified identity. */
  lemma StartAfterMerge(db: Db, s: Id, t: Id, i: Identifier)
    requires Valid(db) && MergeCheck(db, s, t).Ok?
    ensures Start(MergedDb(db, s, t), i) ==
      if i in db.identities && db.identities[i] == s then Some(t) else Start(db, i)
  {
    var cs, cs' := db.customers, MergedDb(db, s, t).customers;
    if i !in db.identities {
      forall c ensures Holds(cs', i, c) <==> Holds(cs, i, c) { PrimariesStay(cs, s, t, i, c); }
      if c :| Holds(cs, i, c) {
        HolderUnique(cs, i, c, Start(db, i).value);
        HolderUnique(cs, i, c, Start(MergedDb(db, s, t), i).value);
      }
    }
  }

  lemma PrimariesStay(cs: CustomerTable, s: Id, t: Id, i: Identifier, c: Id)
    requires s in cs && t in cs
    ensures Holds(MergedCustomers(cs, s, t), i, c) <==> Holds(cs, i, c)
  {}

  function Renamed(c: Id, s: Id, t: Id): Id { if c == s then t else c }

  /**
   * Merging s into t commutes with login lookup: a login that reached s reaches t, any other reaches
   * whom it did. It fails exactly for a start that lies five merges below s, whose walk stops one short.
   */
  lemma MergeCommutesWithLoginIff(db: Db, s: Id, t: Id, i: Identifier)
    requires Valid(db) && MergeCheck(db, s, t).Ok?
    ensures Start(db, i).None? ==> Found(MergedDb(db, s, t), i).None?
    ensures Start(db, i).Some? ==>
      (Found(MergedDb(db, s, t), i) == Some(Renamed(Found(db, i).value, s, t)) <==>
       !(HasDepth(db.customers, Start(db, i).value, MAX_HOPS) && Found(db, i) == Some(s)))
  {
    StartAfterMerge(db, s, t, i);
    if Start(db, i).Some? {
      FoundAfterMerge(db, s, t, i);
      FoundIsRenamedIff(db.customers, s, t, Start(db, i).value);
    }
  }

  lemma FoundAfterMerge(db: Db, s: Id, t: Id, i: Identifier)
    requires Valid(db) && MergeCheck(db, s, t).Ok? && Start(db, i).Some?
    ensures var c := Start(db, i).value;
      Found(MergedDb(db, s, t), i) == Some(AfterMerge(db.customers, s, t, c))
  {
    var cs, c := db.customers, Start(db, i).value;
    StartAfterMerge(db, s, t, i);
    StartInTable(db, i);
    AncestorAfterMerge(cs, s, t, c, MAX_HOPS);
    AncestorAfterMerge(cs, s, t, t, MAX_HOPS);
  }

  /** Where a lookup that starts at `c` ends after the merge: at the target if it got to the source a hop early. */
  function AfterMerge(cs: CustomerTable, s: Id, t: Id, c: Id): Id {
    if Ancestor(cs, c, MAX_HOPS - 1) == s then t else Ancestor(cs, c, MAX_HOPS)
  }

  lemma FoundIsRenamedIff(cs: CustomerTable, s: Id, t: Id, c: Id)
    requires IsRoot(cs, s) && s != t
    ensures AfterMerge(cs, s, t, c) == Renamed(Ancestor(cs, c, MAX_HOPS), s, t) <==>
      !(HasDepth(cs, c, MAX_HOPS) && Ancestor(cs, c, MAX_HOPS) == s)
  {
    WalkEndsThereIff(cs, c, s);
  }

  /** A walk that arrives at a root with its last hop is one whose start has that depth. */
  lemma WalkEndsThereIff(cs: CustomerTable, c: Id, s: Id)
    requires IsRoot(cs, s)
    ensures (HasDepth(cs, c, MAX_HOPS) && Ancestor(cs, c, MAX_HOPS) == s) <==>
      (Ancestor(cs, c, MAX_HOPS) == s && Ancestor(cs, c, MAX_HOPS - 1) != s)
    ensures Ancestor(cs, c, MAX_HOPS - 1) == s ==> Ancestor(cs, c, MAX_HOPS) == s
  {
    if Ancestor(cs, c, MAX_HOPS - 1) == s { RootStops(cs, c, MAX_HOPS - 1, MAX_HOPS); }
    if k: nat :| k < MAX_HOPS && IsRoot(cs, Ancestor(cs, c, k)) {
      RootStops(cs, c, k, MAX_HOPS - 1);
      RootStops(cs, c, k, MAX_HOPS);
    }
  }

  lemma StartInTable(db: Db, i: Identifier)
    requires Valid(db) && Start(db, i).Some?
    ensures Start(db, i).value in db.customers
  {
    if i !in db.identities { assert Holds(db.customers, i, Start(db, i).value); }
  }

  /**
   * A start that is not itself merged is never the exception:
   * merging commutes with every login through its own row.
   */
  lemma MergeCommutesForRoots(db: Db, s: Id, t: Id, i: Identifier)
    requires Valid(db) && MergeCheck(db, s, t).Ok?
    requires Start(db, i).Some? && IsRoot(db.customers, Start(db, i).value)
    ensures Found(MergedDb(db, s, t), i) == Some(Renamed(Found(db, i).value, s, t))
  {
    MergeCommutesWithLoginIff(db, s, t, i);
    assert Ancestor(db.customers, Start(db, i).value, 0) == Start(db, i).value;
  }

  /**
   * While no merged customer owns an identity, a login with a verified identity reaches its owner itself, and merging
   * commutes with every such login.
   */
  lemma MergeCommutesForIdentities(db: Db, s: Id, t: Id, i: Identifier)
    requires Valid(db) && MergeCheck(db, s, t).Ok? && NoMergedIdentity(db) && i in db.identities
    ensures Found(db, i) == Some(db.identities[i])
    ensures Found(MergedDb(db, s, t), i) == Some(Renamed(db.identities[i], s, t))
  {
    assert !IsMerged(db.customers, db.identities[i]);
    MergeCommutesForRoots(db, s, t, i);
  }

  // ---------------------------------------------------------------- what a merge keeps

  lemma MergeKeepsForest(cs: CustomerTable, s: Id, t: Id)
    requires Forest(cs) && IsRoot(cs, s) && IsRoot(cs, t) && s != t
    ensures Forest(MergedCustomers(cs, s, t))
  {
    var cs' := MergedCustomers(cs, s, t);
    forall c ensures ParentExists(cs', c) { assert ParentExists(cs, c); }
    forall c | c in cs' ensures Rooted(cs', c) {
      assert Rooted(cs, c);
      var n: nat :| IsRoot(cs, Ancestor(cs, c, n));
      RootStops(cs, c, n, n + 1);
      AncestorAfterMerge(cs, s, t, c, n + 1);
      assert IsRoot(cs', Ancestor(cs', c, n + 1));
    }
  }

  lemma MergeKeepsColumns(cs: CustomerTable, s: Id, t: Id)
    requires UniqueColumns(cs) && s in cs && t in cs && s != t
    ensures UniqueColumns(MergedCustomers(cs, s, t))
  {
    var cs' := MergedCustomers(cs, s, t);
    forall i, j, kind ensures PrimaryDistinct(cs', i, j, kind) {
      assert PrimaryDistinct(cs, i, j, kind);
    }
    forall i, j ensures ShopifyIdDistinct(cs', i, j) {
      assert ShopifyIdDistinct(cs, i, j) && ShopifyIdDistinct(cs, s, i) && ShopifyIdDistinct(cs, s, j);
    }
  }

  /** Every unique constraint and the forest survive a merge. */
  lemma MergeKeepsValid(db: Db, s: Id, t: Id)
    requires Valid(db) && MergeCheck(db, s, t).Ok?
    ensures Valid(MergedDb(db, s, t))
  {
    MergeKeepsForest(db.customers, s, t);
    MergeKeepsColumns(db.customers, s, t);
    MergeKeepsOwners(db, s, t);
  }

  lemma MergeKeepsOwners(db: Db, s: Id, t: Id)
    requires s in db.customers && t in db.customers
    requires forall i :: i in db.identities ==> db.identities[i] in db.customers
    requires forall x :: x in db.links ==> db.links[x] in db.customers
    ensures var db' := MergedDb(db, s, t);
      && db'.customers.Keys == db.customers.Keys
      && (forall i :: i in db'.identities ==> db'.identities[i] in db'.customers)
      && (forall x :: x in db'.links ==> db'.links[x] in db'.customers)
  {
    var db' := MergedDb(db, s, t);
    forall x | x in db'.links ensures db'.links[x] in db'.customers { LinkAfterMerge(db, s, t, x); }
  }

  /** No verified identity is left with a merged customer. */
  lemma MergeKeepsNoMergedIdentity(db: Db, s: Id, t: Id)
    requires Valid(db) && MergeCheck(db, s, t).Ok? && NoMergedIdentity(db)
    ensures NoMergedIdentity(MergedDb(db, s, t))
  {
    var db' := MergedDb(db, s, t);
    forall i | i in db'.identities ensures !IsMerged(db'.customers, db'.identities[i]) {
      assert i in db.identities && !IsMerged(db.customers, db.identities[i]);
      assert db'.identities[i] == if db.identities[i] == s then t else db.identities[i];
    }
  }

  predicate IsMerged(cs: CustomerTable, c: Id) {
    c in cs && cs[c].status == Merged
  }

  ghost predicate NoMergedIdentity(db: Db) {
    forall i :: i in db.identities ==> !IsMerged(db.customers, db.identities[i])
  }

  // ---------------------------------------------------------------- Shopify records a customer sees

  /** `linkedShopifyCustomerIds`: the links plus the primary. */
  function Visible(db: Db, c: Id): set<string> {
    (set x | x in db.links && db.links[x] == c) +
    if c in db.customers && db.customers[c].shopifyId.Some? then {db.customers[c].shopifyId.value} else {}
  }

  /** Some other customer has the record as its primary. */
  ghost predicate TakenElsewhere(cs: CustomerTable, c: Id, x: string) {
    exists o :: o in cs && o != c && cs[o].shopifyId == Some(x)
  }

  function WithShopifyId(cs: CustomerTable, c: Id, x: string): CustomerTable
    requires c in cs
  {
    cs[c := cs[c].(shopifyId := Some(x))]
  }

  /** `createMany` with `skipDuplicates`: a link held by anyone stays. */
  function LinkAdded(links: map<string, Id>, x: string, c: Id): map<string, Id> {
    if x in links then links else links[x := c]
  }

  /**
   * The target sees exactly what both saw. Everyone else sees what they saw, except that a link to the
   * source's primary record held by a third customer passes to the target.
   */
  lemma MergeUnitesVisible(db: Db, s: Id, t: Id)
    requires Valid(db) && MergeCheck(db, s, t).Ok?
    ensures var db' := MergedDb(db, s, t);
      var handedOver := if db.customers[s].shopifyId.Some? then {db.customers[s].shopifyId.value} else {};
      && Visible(db', t) == Visible(db, s) + Visible(db, t)
      && (forall c :: c != s && c != t ==> Visible(db', c) == Visible(db, c) - handedOver)
      && Visible(db', s) <= handedOver
  {
    TargetSeesBoth(db, s, t);
    forall c | c != s && c != t
      ensures Visible(MergedDb(db, s, t), c) ==
        Visible(db, c) - if db.customers[s].shopifyId.Some? then {db.customers[s].shopifyId.value} else {}
    {
      assert ShopifyIdDistinct(db.customers, s, c);
      OthersSee(db, s, t, c);
    }
  }

  lemma TargetSeesBoth(db: Db, s: Id, t: Id)
    requires s in db.customers && t in db.customers && s != t
    ensures Visible(MergedDb(db, s, t), t) == Visible(db, s) + Visible(db, t)
  {
    forall x ensures x in Visible(MergedDb(db, s, t), t) <==> x in Visible(db, s) + Visible(db, t) {
      LinkAfterMerge(db, s, t, x);
    }
  }

  lemma LinkAfterMerge(db: Db, s: Id, t: Id, x: string)
    requires s in db.customers
    ensures x in MergedLinks(db, s, t) <==> x in db.links || Some(x) == db.customers[s].shopifyId
    ensures x in MergedLinks(db, s, t) ==>
      (MergedLinks(db, s, t)[x] == if Some(x) == db.customers[s].shopifyId || db.links[x] == s then t else db.links[x])
  {}

  lemma OthersSee(db: Db, s: Id, t: Id, c: Id)
    requires s in db.customers && t in db.customers && c != s && c != t
    requires c in db.customers && db.customers[c].shopifyId.Some? ==>
      db.customers[c].shopifyId != db.customers[s].shopifyId
    ensures Visible(MergedDb(db, s, t), c) ==
      Visible(db, c) - if db.customers[s].shopifyId.Some? then {db.customers[s].shopifyId.value} else {}
  {
    var handedOver := if db.customers[s].shopifyId.Some? then {db.customers[s].shopifyId.value} else {};
    forall x ensures x in Visible(MergedDb(db, s, t), c) <==> x in Visible(db, c) - handedOver {
      LinkAfterMerge(db, s, t, x);
    }
  }
}

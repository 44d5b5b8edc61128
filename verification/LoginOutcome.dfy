/** What login, linking and merging accept and store, column by column, and on what they refuse. */
module LoginOutcome {
  import opened Schema
  import opened Customers
  import opened Login

  /** Nobody but possibly `c` has the value as phone or e-mail. */
  ghost predicate FreeFor(cs: CustomerTable, c: Id, i: Identifier) {
    forall o :: o in cs && o != c ==>
      (i.kind == Phone ==> cs[o].phone != Some(i.value)) && (i.kind == Email ==> cs[o].email != Some(i.value))
  }

  /** Imported becomes active, and a phone or e-mail that is missing becomes the value if nobody else has it. */
  ghost predicate BroughtUpToDate(cs: CustomerTable, c: Id, i: Identifier, cs': CustomerTable) {
    && c in cs
    && var row := cs[c];
    var phone := if i.kind == Phone && row.phone.None? && FreeFor(cs, c, i) then Some(i.value) else row.phone;
    var email := if i.kind == Email && row.email.None? && FreeFor(cs, c, i) then Some(i.value) else row.email;
    var status := if row.status == Imported then Active else row.status;
    cs' == cs[c := Customer(phone, email, status, row.shopifyId, row.mergedInto)]
  }

  lemma FreeIff(cs: CustomerTable, c: Id, i: Identifier)
    ensures PrimaryIsFree(cs, c, i) <==> FreeFor(cs, c, i)
  {
    if PrimaryIsFree(cs, c, i) {
      forall o | o in cs && o != c
        ensures (i.kind == Phone ==> cs[o].phone != Some(i.value)) && (i.kind == Email ==> cs[o].email != Some(i.value))
      {
        assert !Holds(cs, i, o);
      }
    }
  }

  /** Linking a verified identifier: refused only if someone else has verified it. */
  lemma LinkStores(db: Db, c: Id, i: Identifier)
    requires c in db.customers
    ensures match Login.Linked(db, c, i)
      case Err(e) => e == Conflict && i in db.identities && db.identities[i] != c
      case Ok(db') =>
        && (i in db.identities ==> db.identities[i] == c)
        && db'.identities == db.identities[i := c] && db'.links == db.links && db'.next == db.next
        && BroughtUpToDate(db.customers, c, i, db'.customers)
  {
    FreeIff(db.customers, c, i);
    if i in db.identities && db.identities[i] == c { assert db.identities[i := c] == db.identities; }
  }

  function PrimaryOf(db: Db, c: Id, kind: IdentifierType): Option<string>
    requires c in db.customers
  {
    if kind == Phone then db.customers[c].phone else db.customers[c].email
  }

  /** Whom a login starts from: who verified the identifier, else who has it as phone or e-mail. */
  lemma LoginStartsFrom(db: Db, i: Identifier, c: Id)
    requires Valid(db)
    ensures Start(db, i) == Some(c) <==>
      (if i in db.identities then db.identities[i] == c
       else c in db.customers && PrimaryOf(db, c, i.kind) == Some(i.value))
    ensures i !in db.identities && Start(db, i).None? ==> FreeFor(db.customers, db.next, i)
  {
    if i !in db.identities {
      if Holds(db.customers, i, c) { HolderUnique(db.customers, i, c, Start(db, i).value); }
      if Start(db, i).Some? { assert Holds(db.customers, i, Start(db, i).value); }
      if Start(db, i).None? {
        NobodyHolds(db, i);
        FreeIff(db.customers, db.next, i);
      }
    }
  }

  /** Someone unknown gets a new row, active, with the identifier as phone or e-mail and nothing else. */
  lemma NewcomerStored(db: Db, i: Identifier)
    requires Valid(db) && Start(db, i).None?
    ensures var (db', r) := LoggedIn(db, i);
      && r == Ok(db.next) && db'.next == db.next + 1 && db'.links == db.links
      && db'.identities == db.identities[i := db.next]
      && db'.customers == db.customers[db.next :=
           if i.kind == Phone then Customer(Some(i.value), None, Active, None, None)
           else Customer(None, Some(i.value), Active, None, None)]
  {
    var cs := db.customers[db.next := NewCustomer(i)];
    assert cs[db.next := ActivatedRow(cs, db.next, i)] == cs;
  }

  /** Someone known is refused if blocked, or if someone else has verified the identifier; else brought up to date. */
  lemma KnownCustomerStored(db: Db, i: Identifier)
    requires Valid(db) && Start(db, i).Some?
    ensures var c := Ancestor(db.customers, Start(db, i).value, 5); var (db', r) := LoggedIn(db, i);
      && c in db.customers
      && (r == Err(Forbidden) <==> db.customers[c].status == Blocked)
      && (r == Err(Conflict) <==> db.customers[c].status != Blocked && i in db.identities && db.identities[i] != c)
      && (r.Err? ==> r.error in {Forbidden, Conflict} && db' == db)
      && (r.Ok? ==> r.value == c && db'.next == db.next && db'.links == db.links)
      && (r.Ok? ==> db'.identities == db.identities[i := c] && BroughtUpToDate(db.customers, c, i, db'.customers))
  {
    StartInTable(db, i);
    var c := Ancestor(db.customers, Start(db, i).value, MAX_HOPS);
    AncestorInTable(db.customers, Start(db, i).value, MAX_HOPS);
    LinkStores(db, c, i);
  }

  /** Following no pointer stays; following one more follows the pointer of where one got, if it leads anywhere. */
  lemma {:induction false} OneMoreHop(cs: CustomerTable, c: Id, n: nat)
    ensures Ancestor(cs, c, 0) == c
    ensures var o := Ancestor(cs, c, n);
      Ancestor(cs, c, n + 1) ==
        if o in cs && cs[o].mergedInto.Some? && cs[o].mergedInto.value in cs then cs[o].mergedInto.value else o
  {
    WalkInTwo(cs, c, n, 1);
    var o := Ancestor(cs, c, n);
    if o in cs && cs[o].mergedInto.Some? && cs[o].mergedInto.value in cs {
      assert Ancestor(cs, cs[o].mergedInto.value, 0) == cs[o].mergedInto.value;
    }
  }

  /**
   * Merging is refused for one and the same customer, for a missing
   * one, and by status: a merged one or a blocked target.
   */
  lemma MergeRefusedIff(db: Db, s: Id, t: Id)
    ensures var check, cs := MergeCheck(db, s, t), db.customers;
      && (check.Ok? <==>
           s != t && s in cs && t in cs && cs[s].status != Merged && cs[t].status in {Imported, Active})
      && (check == Err(NotFound) <==> s != t && !(s in cs && t in cs))
      && (check.Err? ==> check.error in {BadRequest, NotFound})
  {}

  /** The administrator's changes of status, and the single writes on Shopify ids and links. */
  lemma StatusAndRecordWrites(db: Db, c: Id, x: string)
    ensures Apply(db, Block(c)) ==
      if c in db.customers && db.customers[c].status in {Imported, Active} then WithStatus(db, c, Blocked) else db
    ensures Apply(db, Unblock(c)) ==
      if c in db.customers && db.customers[c].status == Blocked then WithStatus(db, c, Active) else db
    ensures Apply(db, ReplacePrimary(c, x)) ==
      if c in db.customers && FreeRecord(db, c, x) then WithRecord(db, c, x) else db
    ensures Apply(db, FillPrimary(c, x)) ==
      if c in db.customers && db.customers[c].shopifyId.None? && FreeRecord(db, c, x) then WithRecord(db, c, x) else db
    ensures Apply(db, LinkRecord(c, x)) ==
      if c in db.customers && x !in db.links then Db(db.customers, db.identities, db.links[x := c], db.next) else db
    ensures Apply(db, UnlinkRecord(x)) ==
      Db(db.customers, db.identities, map y | y in db.links && y != x :: db.links[y], db.next)
  {
    assert TakenElsewhere(db.customers, c, x) <==> !FreeRecord(db, c, x);
    assert (map y | y in db.links && y != x :: db.links[y]) == db.links - {x};
  }

  function WithStatus(db: Db, c: Id, status: Status): Db
    requires c in db.customers
  {
    var row := db.customers[c];
    Db(db.customers[c := Customer(row.phone, row.email, status, row.shopifyId, row.mergedInto)],
       db.identities, db.links, db.next)
  }

  function WithRecord(db: Db, c: Id, x: string): Db
    requires c in db.customers
  {
    var row := db.customers[c];
    Db(db.customers[c := Customer(row.phone, row.email, row.status, Some(x), row.mergedInto)],
       db.identities, db.links, db.next)
  }

  ghost predicate FreeRecord(db: Db, c: Id, x: string) {
    forall o :: o in db.customers && o != c ==> db.customers[o].shopifyId != Some(x)
  }
}

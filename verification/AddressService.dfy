/** The address requests of a customer, on the address table. */
module AddressService {
  import opened Schema
  import opened OwnedRows
  import opened Addresses
  import opened AddressBook

  class AddressesService {
    var rows: Book
    var next: Id

    ghost predicate Valid()
      reads this
    {
      Sound() && Consistent(rows)
    }

    /** What holds even where the default flags are in disorder. */
    ghost predicate Sound()
      reads this
    {
      Unique(rows) && forall i :: i in rows ==> i < next
    }

    constructor ()
      ensures Valid() && rows == map[]
    {
      rows, next := map[], 0;
    }

    /** `findFirst(orderBy createdAt desc)`: scans the customer's rows keeping the latest seen. */
    method FindNewest(c: Id) returns (found: Option<Id>)
      ensures found.Some? ==> Newest(rows, c, found.value)
      ensures found.None? <==> RowsOf(rows, c) == {}
    {
      found := None;
      var ids := Enumerate(RowsOf(rows, c));
      for n := 0 to |ids|
        invariant found.None? <==> n == 0
        invariant found.Some? ==> found.value in RowsOf(rows, c)
        invariant found.Some? ==> forall i :: i in ids[..n] && i in rows ==>
          rows[i].data.createdAt <= rows[found.value].data.createdAt
      {
        assert ids[n] in RowsOf(rows, c);
        assert ids[..n + 1] == ids[..n] + [ids[n]];
        if found.None? || rows[ids[n]].data.createdAt > rows[found.value].data.createdAt {
          found := Some(ids[n]);
        }
      }
      assert ids[..|ids|] == ids;
      assert found.None? <==> |RowsOf(rows, c)| == 0;
    }

    /** The transaction of two bulk updates. */
    method MarkDefault(c: Id, id: Id)
      requires id in rows && rows[id].owner == c
      modifies `rows
      ensures rows == WithDefault(old(rows), c, id)
    {
      rows := map i | i in rows ::
        if rows[i].owner == c && rows[i].data.isDefault then rows[i].(data := rows[i].data.(isDefault := false))
        else rows[i];
      rows := rows[id := rows[id].(data := rows[id].data.(isDefault := true))];
    }

    method Create(c: Id, e: Entry, wantsDefault: bool, now: Time) returns (id: Id)
      requires Sound()
      modifies this
      ensures Sound() && (old(Valid()) ==> Valid())
      ensures At(old(rows), c, e.fingerprint, id) || (e.fingerprint !in KeysOf(old(rows), c) && id == old(next))
      ensures rows == Created(old(rows), c, e, id, wantsDefault, now)
    {
      if i :| i in rows && At(rows, c, e.fingerprint, i) {
        id := i;
        rows := rows[id := rows[id].(data := rows[id].data.(content := e.content))];
      } else {
        id, next := next, next + 1;
        rows := rows[id := Row(c, e.fingerprint, Address(false, now, e.content))];
      }
      CreatedRow(old(rows), c, e, id, wantsDefault, now);
      if old(Valid()) { CreatedKeepsInvariant(old(rows), c, e, id, wantsDefault, now); }
      var count := |RowsOf(rows, c)|;
      if wantsDefault || count == 1 {
        MarkDefault(c, id);
      }
    }

    /** A fingerprint the customer already has violates the unique index, an error the original does not map. */
    method Update(c: Id, id: Id, e: Entry, wantsDefault: bool) returns (r: Result<()>)
      requires Sound()
      modifies this
      ensures Sound() && (old(Valid()) ==> Valid())
      ensures r == if id !in RowsOf(old(rows), c) then Err(NotFound)
                   else if e.fingerprint in KeysOf(old(rows) - {id}, c) then Err(Internal) else Ok(())
      ensures rows == if r.Ok? then Updated(old(rows), c, id, e, wantsDefault) else old(rows)
    {
      if id !in rows || rows[id].owner != c { return Err(NotFound); }
      if e.fingerprint in KeysOf(rows - {id}, c) { return Err(Internal); }
      UpdatedUniqueIff(rows, c, id, e, wantsDefault);
      if Valid() { UpdatedKeepsInvariant(rows, c, id, e, wantsDefault); }
      rows := rows[id := rows[id].(key := e.fingerprint, data := rows[id].data.(content := e.content))];
      if wantsDefault {
        MarkDefault(c, id);
      }
      r := Ok(());
    }

    method SetDefault(c: Id, id: Id) returns (r: Result<()>)
      requires Sound()
      modifies this
      ensures Sound() && (old(Valid()) ==> Valid())
      ensures r.Ok? ==> DefaultsOf(rows, c) == {id}
      ensures r == if id in RowsOf(old(rows), c) then Ok(()) else Err(NotFound)
      ensures rows == if r.Ok? then WithDefault(old(rows), c, id) else old(rows)
    {
      if id !in rows || rows[id].owner != c { return Err(NotFound); }
      WithDefaultSettles(rows, c, id);
      if Valid() { WithDefaultKeepsInvariant(rows, c, id); }
      MarkDefault(c, id);
      r := Ok(());
    }

    method Remove(c: Id, id: Id) returns (r: Result<()>)
      requires Sound()
      modifies this
      ensures Sound() && (old(Valid()) ==> Valid())
      ensures r == if id in RowsOf(old(rows), c) then Ok(()) else Err(NotFound)
      ensures if r.Ok? then Removed(old(rows), c, id, rows) else rows == old(rows)
    {
      if id !in rows || rows[id].owner != c { return Err(NotFound); }
      var existing := rows[id];
      rows := rows - {id};
      if existing.data.isDefault {
        var newest := FindNewest(c);
        if newest.Some? {
          MarkDefault(c, newest.value);
        }
      }
      RemovedKeepsUnique(old(rows), c, id, rows);
      if old(Valid()) { RemovedKeepsInvariant(old(rows), c, id, rows); }
      r := Ok(());
    }

    method EnsureSomeDefault(c: Id)
      modifies `rows
      ensures SomeDefault(old(rows), c, rows)
    {
      if DefaultsOf(rows, c) != {} { return; }
      var newest := FindNewest(c);
      if newest.Some? {
        MarkDefault(c, newest.value);
      }
    }

    /** Past orders, newest first; an order without a usable address is skipped. */
    method ImportFromPastOrders(c: Id, orders: seq<Option<Entry>>, now: Time)
      returns (imported: nat, ghost inserted: Book)
      requires Sound()
      modifies this
      ensures Sound() && (old(Valid()) ==> Valid())
      ensures OrdersImported(old(rows), c, orders, now, inserted) && SomeDefault(inserted, c, rows)
      ensures imported == |rows| - |old(rows)|
    {
      var entries := Deduplicate(orders);
      rows, next, imported := InsertMissing(rows, next, c, entries, now);
      inserted := rows;
      assert OrdersImported(old(rows), c, orders, now, inserted);
      EnsureSomeDefault(c);
      SomeDefaultRepairs(inserted, c, rows);
      if old(Valid()) { ImportKeepsInvariant(old(rows), c, orders, now, inserted, rows); }
      SameRows(inserted, c, rows);
    }

    /** The address books of all linked Shopify records, entry by entry. */
    method ImportFromAddressBook(c: Id, books: seq<seq<Option<BookEntry>>>, now: Time) returns (imported: nat)
      requires Sound()
      modifies this
      ensures Sound()
      ensures (rows, next) == BookImported(old(rows), old(next), c, Flattened(books), now)
      ensures imported == |rows| - |old(rows)|
      ensures old(Valid()) ==> (Valid() <==>
        !BringsNew(KeysOf(old(rows), c), Flattened(books))
          || |DefaultsOf(old(rows), c)| + FlaggedNew(KeysOf(old(rows), c), Flattened(books)) == 1)
    {
      imported := 0;
      for n := 0 to |books|
        invariant Sound()
        invariant (rows, next) == BookImported(old(rows), old(next), c, Flattened(books[..n]), now)
        invariant imported == |rows| - |old(rows)|
      {
        assert books[..n + 1][..n] == books[..n];
        BookInTwo(old(rows), old(next), c, Flattened(books[..n]), books[n], now);
        var more := ImportBook(c, books[n], now);
        imported := imported + more;
      }
      assert books[..|books|] == books;
      if old(Valid()) { BookKeepsInvariantIff(old(rows), old(next), c, Flattened(books), now); }
    }

    method ImportBook(c: Id, entries: seq<Option<BookEntry>>, now: Time) returns (imported: nat)
      requires Sound()
      modifies this
      ensures Sound()
      ensures (rows, next) == BookImported(old(rows), old(next), c, entries, now)
      ensures imported == |rows| - |old(rows)|
    {
      imported := 0;
      for n := 0 to |entries|
        invariant Sound()
        invariant (rows, next) == BookImported(old(rows), old(next), c, entries[..n], now)
        invariant imported == |rows| - |old(rows)|
      {
        assert entries[..n + 1][..n] == entries[..n];
        EntryKeepsSound(rows, next, c, entries[n], now);
        if entries[n].None? { continue; }
        var e := entries[n].value;
        if e.fingerprint in KeysOf(rows, c) || e.refused { continue; }
        rows, next := rows[next := Row(c, e.fingerprint, Address(e.flagged, now, e.content))], next + 1;
        imported := imported + 1;
      }
      assert entries[..|entries|] == entries;
    }

    /** Both imports, where the customer has any Shopify record. */
    method SyncFromShopify(c: Id, linked: bool, books: seq<seq<Option<BookEntry>>>, orders: seq<Option<Entry>>,
      now: Time)
      returns (fromAddressBook: nat, fromPastOrders: nat, found: nat, ghost booked: Book, ghost inserted: Book)
      requires Sound()
      modifies this
      ensures Sound() && found == |RowsOf(rows, c)|
      ensures fromAddressBook == |booked| - |old(rows)| && fromPastOrders == |rows| - |booked|
      ensures linked ==>
        && booked == BookImported(old(rows), old(next), c, Flattened(books), now).0
        && OrdersImported(booked, c, orders, now, inserted) && SomeDefault(inserted, c, rows)
      ensures !linked ==> booked == rows == old(rows)
      ensures old(Valid()) && linked ==> (Valid() <==>
        |DefaultsOf(old(rows), c)| + FlaggedNew(KeysOf(old(rows), c), Flattened(books)) <= 1)
    {
      fromAddressBook, fromPastOrders, booked, inserted := 0, 0, rows, rows;
      if linked {
        fromAddressBook := ImportFromAddressBook(c, books, now);
        booked := rows;
        fromPastOrders, inserted := ImportFromPastOrders(c, orders, now);
        if old(Valid()) {
          SyncKeepsInvariantIff(old(rows), old(next), c, Flattened(books), orders, now, inserted, rows);
        }
      }
      found := |RowsOf(rows, c)|;
    }
  }

  /** The first entry for each fingerprint, in order of appearance. */
  method Deduplicate(orders: seq<Option<Entry>>) returns (entries: seq<Entry>)
    ensures FingerprintsOf(entries) == Fingerprints(orders)
    ensures forall e :: e in entries ==> FirstWith(orders, e.fingerprint, e.content)
  {
    entries := [];
    var seen := {};
    for n := 0 to |orders|
      invariant seen == FingerprintsOf(entries) == Fingerprints(orders[..n])
      invariant forall e :: e in entries ==> FirstWith(orders, e.fingerprint, e.content)
    {
      assert orders[..n + 1] == orders[..n] + [orders[n]];
      if orders[n].Some? && orders[n].value.fingerprint !in seen {
        var e := orders[n].value;
        forall j | 0 <= j < n ensures orders[j].None? || orders[j].value.fingerprint != e.fingerprint {
          assert orders[j] in orders[..n];
        }
        seen, entries := seen + {e.fingerprint}, entries + [e];
      }
    }
    assert orders[..|orders|] == orders;
  }

  function FingerprintsOf(entries: seq<Entry>): set<string> {
    set e | e in entries :: e.fingerprint
  }

  function OneInserted(t: Book, id: Id, c: Id, e: Entry, now: Time): Book {
    if e.fingerprint in KeysOf(t, c) then t else t[id := Row(c, e.fingerprint, Address(false, now, e.content))]
  }

  method InsertOne(t0: Book, next0: Id, c: Id, e: Entry, now: Time) returns (t: Book, next: Id, count: nat)
    requires forall i :: i in t0 ==> i < next0
    ensures t == OneInserted(t0, next0, c, e, now)
    ensures (forall i :: i in t ==> i < next) && |t| == |t0| + count
  {
    if e.fingerprint in KeysOf(t0, c) { return t0, next0, 0; }
    t, next, count := t0[next0 := Row(c, e.fingerprint, Address(false, now, e.content))], next0 + 1, 1;
  }

  /** `createMany(skipDuplicates)`: inserts a row for every fingerprint the customer lacks. */
  method InsertMissing(t0: Book, next0: Id, c: Id, entries: seq<Entry>, now: Time)
    returns (t: Book, next: Id, count: nat)
    requires Unique(t0) && forall i :: i in t0 ==> i < next0
    ensures Inserted(t0, c, entries, now, t) && forall i :: i in t ==> i < next
    ensures count == |t| - |t0|
  {
    t, next, count := t0, next0, 0;
    for n := 0 to |entries|
      invariant Inserted(t0, c, entries[..n], now, t)
      invariant forall i :: i in t ==> i < next
      invariant |t| == |t0| + count
    {
      InsertStep(t0, c, entries, n, now, t, next);
      var more;
      t, next, more := InsertOne(t, next, c, entries[n], now);
      count := count + more;
    }
    assert entries[..|entries|] == entries;
  }

  /** A new row for each fingerprint in `entries` that the customer lacked. */
  ghost predicate Inserted(t: Book, c: Id, entries: seq<Entry>, now: Time, t': Book) {
    && Unique(t')
    && t.Keys <= t'.Keys
    && (forall i :: i in t ==> t'[i] == t[i])
    && (forall i :: i in t' && i !in t ==>
      t'[i].owner == c && Entry(t'[i].key, t'[i].data.content) in entries
        && t'[i].data == Address(false, now, t'[i].data.content))
    && KeysOf(t', c) == KeysOf(t, c) + FingerprintsOf(entries)
  }

  lemma InsertStep(t: Book, c: Id, entries: seq<Entry>, n: nat, now: Time, u: Book, id: Id)
    requires n < |entries| && id !in u && Inserted(t, c, entries[..n], now, u)
    ensures Inserted(t, c, entries[..n + 1], now, OneInserted(u, id, c, entries[n], now))
  {
    var e := entries[n];
    assert entries[..n + 1] == entries[..n] + [e];
    assert FingerprintsOf(entries[..n + 1]) == FingerprintsOf(entries[..n]) + {e.fingerprint};
    if e.fingerprint !in KeysOf(u, c) {
      InsertRow(u, c, e.fingerprint, id, Address(false, now, e.content));
    }
  }

  lemma SameRows(t: Book, c: Id, t': Book)
    requires SomeDefault(t, c, t')
    ensures |t'| == |t|
  {
    assert t'.Keys == t.Keys;
  }
}

/** What each request on the addresses stores: every row, column by column. */
module AddressOutcome {
  import opened Schema
  import opened OwnedRows
  import opened Addresses
  import opened AddressBook

  /** Rows `t'` are rows `t` but that, of customer `c`, the row `id` is the default and no other is. */
  ghost predicate OnlyDefault(t: Book, c: Id, id: Id, t': Book) {
    && t'.Keys == t.Keys
    && forall i :: i in t ==>
         var a := t[i].data;
         t'[i] == if t[i].owner == c then Row(c, t[i].key, Address(i == id, a.createdAt, a.content)) else t[i]
  }

  lemma DefaultMoves(t: Book, c: Id, id: Id)
    ensures OnlyDefault(t, c, id, WithDefault(t, c, id))
  {}

  /** `id` is the customer's row created last; of several created at once the database chooses. */
  ghost predicate CreatedLast(t: Book, c: Id, id: Id) {
    id in t && t[id].owner == c && forall j :: j in t && t[j].owner == c ==> t[j].data.createdAt <= t[id].data.createdAt
  }

  ghost predicate HasAddress(t: Book, c: Id) {
    exists i :: i in t && t[i].owner == c
  }

  ghost predicate HasDefault(t: Book, c: Id) {
    exists i :: i in t && t[i].owner == c && t[i].data.isDefault
  }

  lemma SetsAreNonEmpty(t: Book, c: Id)
    ensures HasAddress(t, c) <==> RowsOf(t, c) != {}
    ensures HasDefault(t, c) <==> DefaultsOf(t, c) != {}
  {
    if i :| i in t && t[i].owner == c { assert i in RowsOf(t, c); }
    if i :| i in RowsOf(t, c) { assert t[i].owner == c; }
    if i :| i in t && t[i].owner == c && t[i].data.isDefault { assert i in DefaultsOf(t, c); }
    if i :| i in DefaultsOf(t, c) { assert t[i].owner == c && t[i].data.isDefault; }
  }

  /** A default that is missing is the row created last; otherwise nothing changes. */
  lemma MissingDefaultIsSet(t: Book, c: Id, t': Book)
    requires SomeDefault(t, c, t')
    ensures if HasAddress(t, c) && !HasDefault(t, c)
      then exists id :: CreatedLast(t, c, id) && OnlyDefault(t, c, id, t')
      else t' == t
  {
    SetsAreNonEmpty(t, c);
    if HasAddress(t, c) && !HasDefault(t, c) {
      var id :| Newest(t, c, id) && t' == WithDefault(t, c, id);
      assert CreatedLast(t, c, id) && OnlyDefault(t, c, id, t');
    }
  }

  /** Whatever `create` finds, the row carries the new content; its age and flag are those of a row found. */
  lemma CreateStores(t: Book, c: Id, e: Entry, id: Id, wantsDefault: bool, now: Time)
    requires At(t, c, e.fingerprint, id) || id !in t
    ensures var first := forall i :: i in t && t[i].owner == c ==> i == id;
      var u := t[id := Row(c, e.fingerprint,
        if id in t then Address(t[id].data.isDefault, t[id].data.createdAt, e.content)
        else Address(false, now, e.content))];
      var t' := Created(t, c, e, id, wantsDefault, now);
      if wantsDefault || first then OnlyDefault(u, c, id, t') else t' == u
  {
    var u := Upserted(t, c, e, id, now);
    if |RowsOf(u, c)| == 1 { OnlyElement(RowsOf(u, c), id); }
    if forall i :: i in t && t[i].owner == c ==> i == id { assert RowsOf(u, c) == {id}; }
    forall i | i in t && t[i].owner == c ensures i in RowsOf(u, c) {}
  }

  /** `update` stores the new content under the new fingerprint, and moves the default if asked to. */
  lemma UpdateStores(t: Book, c: Id, id: Id, e: Entry, wantsDefault: bool)
    requires id in t && t[id].owner == c
    ensures var u := t[id := Row(c, e.fingerprint, Address(t[id].data.isDefault, t[id].data.createdAt, e.content))];
      var t' := Updated(t, c, id, e, wantsDefault);
      if wantsDefault then OnlyDefault(u, c, id, t') else t' == u
  {}

  /** `remove` takes away that row; if it was the default, the row created last takes over. */
  lemma RemoveTakesAway(t: Book, c: Id, id: Id, t': Book)
    requires id in t && t[id].owner == c && Removed(t, c, id, t')
    ensures var u := map i | i in t && i != id :: t[i];
      if t[id].data.isDefault && HasAddress(u, c)
      then exists next :: CreatedLast(u, c, next) && OnlyDefault(u, c, next, t')
      else t' == u
  {
    var u := map i | i in t && i != id :: t[i];
    assert u == t - {id};
    SetsAreNonEmpty(u, c);
    if t[id].data.isDefault && HasAddress(u, c) {
      var next :| Newest(u, c, next) && t' == WithDefault(u, c, next);
      assert CreatedLast(u, c, next) && OnlyDefault(u, c, next, t');
    }
  }

  /** Of several orders with one fingerprint the first in the list decides; the list is read order by order. */
  lemma FirstOrderDecides(orders: seq<Option<Entry>>, o: Option<Entry>, fingerprint: string, content: string)
    ensures FirstWith(orders + [o], fingerprint, content) <==>
      FirstWith(orders, fingerprint, content)
      || (o == Some(Entry(fingerprint, content))
          && forall j :: 0 <= j < |orders| ==> orders[j].None? || orders[j].value.fingerprint != fingerprint)
    ensures !FirstWith([], fingerprint, content)
  {
    var all := orders + [o];
    if FirstWith(all, fingerprint, content) {
      var k :| 0 <= k < |all| && all[k] == Some(Entry(fingerprint, content))
        && forall j :: 0 <= j < k ==> all[j].None? || all[j].value.fingerprint != fingerprint;
      forall j | 0 <= j < |orders| && j < k ensures orders[j].None? || orders[j].value.fingerprint != fingerprint {
        assert all[j] == orders[j];
      }
      if k < |orders| { assert orders[k] == all[k]; }
    }
    if FirstWith(orders, fingerprint, content) {
      var k :| 0 <= k < |orders| && orders[k] == Some(Entry(fingerprint, content))
        && forall j :: 0 <= j < k ==> orders[j].None? || orders[j].value.fingerprint != fingerprint;
      assert all[k] == orders[k] && forall j :: 0 <= j < k ==> all[j] == orders[j];
    }
    if o == Some(Entry(fingerprint, content))
      && forall j :: 0 <= j < |orders| ==> orders[j].None? || orders[j].value.fingerprint != fingerprint
    {
      assert all[|orders|] == o && forall j :: 0 <= j < |orders| ==> all[j] == orders[j];
    }
  }

  /** Past orders bring, for each fingerprint the customer lacks, its first content as a row that is no default. */
  lemma OrdersStore(t: Book, c: Id, orders: seq<Option<Entry>>, now: Time, t': Book, k: nat)
    requires OrdersImported(t, c, orders, now, t') && Unique(t)
    ensures forall i :: i in t ==> i in t' && t'[i] == t[i]
    ensures forall i :: i in t' && i !in t ==>
      && (forall j :: j in t && t[j].owner == c ==> t[j].key != t'[i].key)
      && FirstWith(orders, t'[i].key, t'[i].data.content)
      && t'[i] == Row(c, t'[i].key, Address(false, now, t'[i].data.content))
    ensures k < |orders| && orders[k].Some? ==> exists i :: At(t', c, orders[k].value.fingerprint, i)
  {
    forall i | i in t' && i !in t ensures forall j :: j in t && t[j].owner == c ==> t[j].key != t'[i].key {
      forall j | j in t && t[j].owner == c ensures t[j].key != t'[i].key { assert t'[j] == t[j]; }
    }
    if k < |orders| && orders[k].Some? {
      assert orders[k].value.fingerprint in KeysOf(t', c);
      var i := RowWithKey(t', c, orders[k].value.fingerprint);
      assert At(t', c, orders[k].value.fingerprint, i);
    }
  }

  /** An address book brings rows of its own entries, with their content and flag, and only such rows. */
  lemma {:induction false} BookStores(t: Book, next: Id, c: Id, entries: seq<Option<BookEntry>>, now: Time)
    requires forall i :: i in t ==> i < next
    ensures var (u, id) := BookImported(t, next, c, entries, now);
      && next <= id && (forall i :: i in u ==> i < id)
      && (forall i :: i in t ==> i in u && u[i] == t[i])
      && (forall i :: i in u && i !in t ==> exists e :: e in entries && StoredAs(u[i], c, e, now))
    decreases |entries|
  {
    if entries != [] {
      var n := |entries| - 1;
      BookStores(t, next, c, entries[..n], now);
      assert entries[n] in entries && forall e :: e in entries[..n] ==> e in entries;
    }
  }

  predicate StoredAs(row: Row<Address>, c: Id, e: Option<BookEntry>, now: Time) {
    e.Some? && !e.value.refused
    && row == Row(c, e.value.fingerprint, Address(e.value.flagged, now, e.value.content))
  }

  /** Entry by entry: one that parses, is not refused and whose fingerprint the customer lacks brings its row. */
  lemma NextEntryStores(t: Book, next: Id, c: Id, entries: seq<Option<BookEntry>>, e: Option<BookEntry>, now: Time)
    ensures var (u, id) := BookImported(t, next, c, entries, now);
      BookImported(t, next, c, entries + [e], now) ==
        if e.None? || e.value.refused || (exists i :: At(u, c, e.value.fingerprint, i)) then (u, id)
        else (u[id := Row(c, e.value.fingerprint, Address(e.value.flagged, now, e.value.content))], id + 1)
    ensures BookImported(t, next, c, [], now) == (t, next)
  {
    var u := BookImported(t, next, c, entries, now).0;
    assert (entries + [e])[..|entries|] == entries;
    if e.Some? {
      if e.value.fingerprint in KeysOf(u, c) {
        var i := RowWithKey(u, c, e.value.fingerprint);
        assert At(u, c, e.value.fingerprint, i);
      }
      if i :| At(u, c, e.value.fingerprint, i) { KeyPresent(u, c, i); }
    }
  }

  /** The books of several Shopify records are read one after the other. */
  lemma {:induction false} BooksFollow(a: seq<seq<Option<BookEntry>>>, b: seq<seq<Option<BookEntry>>>)
    ensures Flattened(a + b) == Flattened(a) + Flattened(b)
    ensures Flattened([]) == [] && forall book: seq<Option<BookEntry>> :: Flattened([book]) == book
    decreases |b|
  {
    forall book: seq<Option<BookEntry>> ensures Flattened([book]) == book { assert [book][..0] == []; }
    if b == [] {
      assert a + b == a;
    } else {
      BooksFollow(a, b[..|b| - 1]);
      assert (a + b)[..|a + b| - 1] == a + b[..|b| - 1];
    }
  }
}

/**
 * A customer's addresses and the default flag among them. Rows are unique per
 * (customer, fingerprint). The intended invariant: whoever has an address has exactly one default.
 */
module Addresses {
  import opened Schema
  import opened OwnedRows

  datatype Address = Address(isDefault: bool, createdAt: Time, content: string)

  type Book = Table<Address>

  /** A parsed postal address together with its fingerprint. */
  datatype Entry = Entry(fingerprint: string, content: string)

  function DefaultsOf(t: Book, c: Id): set<Id> {
    set i | i in t && t[i].owner == c && t[i].data.isDefault
  }

  ghost predicate OneDefault(t: Book, c: Id) {
    RowsOf(t, c) != {} ==> |DefaultsOf(t, c)| == 1
  }

  ghost predicate Consistent(t: Book) {
    Unique(t) && forall c :: OneDefault(t, c)
  }

  /** The row found by the unique index. */
  predicate At(t: Book, c: Id, fingerprint: string, id: Id) {
    id in t && t[id].owner == c && t[id].key == fingerprint
  }

  ghost predicate Newest(t: Book, c: Id, id: Id) {
    id in RowsOf(t, c) && forall j :: j in RowsOf(t, c) ==> t[j].data.createdAt <= t[id].data.createdAt
  }

  /** `markDefaultLocally`: clear every flag of the customer, then set one. */
  function WithDefault(t: Book, c: Id, id: Id): Book {
    map i | i in t :: if t[i].owner == c then t[i].(data := t[i].data.(isDefault := i == id)) else t[i]
  }

  /** Upsert on (customer, fingerprint); `id` is the row found there, or a fresh one. */
  function Upserted(t: Book, c: Id, e: Entry, id: Id, now: Time): Book {
    if id in t then t[id := t[id].(data := t[id].data.(content := e.content))]
    else t[id := Row(c, e.fingerprint, Address(false, now, e.content))]
  }

  /** `create`: upsert, then default if asked for or if it is the only address. */
  function Created(t: Book, c: Id, e: Entry, id: Id, wantsDefault: bool, now: Time): Book {
    var u := Upserted(t, c, e, id, now);
    if wantsDefault || |RowsOf(u, c)| == 1 then WithDefault(u, c, id) else u
  }

  /** `update`: new content and fingerprint, then default if asked for. */
  function Updated(t: Book, c: Id, id: Id, e: Entry, wantsDefault: bool): Book
    requires id in t
  {
    var u := t[id := t[id].(key := e.fingerprint, data := t[id].data.(content := e.content))];
    if wantsDefault then WithDefault(u, c, id) else u
  }

  /** `ensureSomeDefault`: nothing to do, or the newest row is made default (ties are the database's choice). */
  ghost predicate SomeDefault(t: Book, c: Id, t': Book) {
    if DefaultsOf(t, c) != {} || RowsOf(t, c) == {} then t' == t
    else exists id :: Newest(t, c, id) && t' == WithDefault(t, c, id)
  }

  /** `remove`: delete, and if it was the default make the newest remaining row default. */
  ghost predicate Removed(t: Book, c: Id, id: Id, t': Book)
    requires id in t
  {
    if t[id].data.isDefault && RowsOf(t - {id}, c) != {}
    then exists next :: Newest(t - {id}, c, next) && t' == WithDefault(t - {id}, c, next)
    else t' == t - {id}
  }

  /** `createMany(skipDuplicates)`: one new row for each fingerprint the customer lacks, none the default. */
  ghost predicate OrdersImported(t: Book, c: Id, orders: seq<Option<Entry>>, now: Time, t': Book) {
    && t.Keys <= t'.Keys
    && (forall i :: i in t ==> t'[i] == t[i])
    && (forall i :: i in t' && i !in t ==>
         && t'[i].owner == c
         && FirstWith(orders, t'[i].key, t'[i].data.content)
         && t'[i].data == Address(false, now, t'[i].data.content))
    && KeysOf(t', c) == KeysOf(t, c) + Fingerprints(orders)
    && Unique(t')
  }

  function Fingerprints(orders: seq<Option<Entry>>): set<string> {
    set o | o in orders && o.Some? :: o.value.fingerprint
  }

  /** Orders come newest first; the first one carrying a fingerprint supplies the content. */
  ghost predicate FirstWith(orders: seq<Option<Entry>>, fingerprint: string, content: string) {
    exists k :: 0 <= k < |orders| && orders[k] == Some(Entry(fingerprint, content))
      && forall j :: 0 <= j < k ==> orders[j].None? || orders[j].value.fingerprint != fingerprint
  }

  // ---------------------------------------------------------------- the invariant, operation by operation

  /** Setting a default always leaves exactly that one, whatever held before. */
  lemma WithDefaultSettles(t: Book, c: Id, id: Id)
    requires id in RowsOf(t, c)
    ensures DefaultsOf(WithDefault(t, c, id), c) == {id}
    ensures RowsOf(WithDefault(t, c, id), c) == RowsOf(t, c)
    ensures KeysOf(WithDefault(t, c, id), c) == KeysOf(t, c)
    ensures Unique(t) ==> Unique(WithDefault(t, c, id))
  {
    KeysWithin(t, WithDefault(t, c, id), c);
    KeysWithin(WithDefault(t, c, id), t, c);
  }

  /** A change confined to one customer's rows cannot disturb another's default. */
  lemma OthersUndisturbed(t: Book, t': Book, c: Id)
    requires forall d :: d != c ==> OneDefault(t, d)
    requires forall i :: i in t && t[i].owner != c ==> i in t' && t'[i] == t[i]
    requires forall i :: i in t' && t'[i].owner != c ==> i in t && t[i] == t'[i]
    ensures forall d :: d != c ==> OneDefault(t', d)
  {
    forall d | d != c ensures OneDefault(t', d) {
      assert OneDefault(t, d);
      assert RowsOf(t', d) == RowsOf(t, d) && DefaultsOf(t', d) == DefaultsOf(t, d);
    }
  }

  /** Settling one customer's default restores the invariant if the others have theirs. */
  lemma WithDefaultKeepsInvariant(t: Book, c: Id, id: Id)
    requires Unique(t) && (forall d :: d != c ==> OneDefault(t, d)) && id in RowsOf(t, c)
    ensures Consistent(WithDefault(t, c, id))
  {
    WithDefaultSettles(t, c, id);
    OthersUndisturbed(t, WithDefault(t, c, id), c);
    assert OneDefault(WithDefault(t, c, id), c);
  }

  lemma UpsertedRows(t: Book, c: Id, e: Entry, id: Id, now: Time)
    requires Unique(t)
    requires At(t, c, e.fingerprint, id) || (id !in t && e.fingerprint !in KeysOf(t, c))
    ensures var u := Upserted(t, c, e, id, now);
      && Unique(u) && At(u, c, e.fingerprint, id) && u[id].data.content == e.content
      && KeysOf(u, c) == KeysOf(t, c) + {e.fingerprint}
      && RowsOf(u, c) == RowsOf(t, c) + {id}
      && DefaultsOf(u, c) == DefaultsOf(t, c)
  {
    var u := Upserted(t, c, e, id, now);
    if id in t {
      KeyPresent(t, c, id);
      KeysWithin(t, u, c);
      KeysWithin(u, t, c);
    } else {
      InsertRow(t, c, e.fingerprint, id, Address(false, now, e.content));
    }
  }

  lemma CreatedRow(t: Book, c: Id, e: Entry, id: Id, wantsDefault: bool, now: Time)
    requires Unique(t)
    requires At(t, c, e.fingerprint, id) || (id !in t && e.fingerprint !in KeysOf(t, c))
    ensures var t' := Created(t, c, e, id, wantsDefault, now);
      && Unique(t') && At(t', c, e.fingerprint, id) && t'[id].data.content == e.content
      && KeysOf(t', c) == KeysOf(t, c) + {e.fingerprint}
  {
    UpsertedRows(t, c, e, id, now);
    WithDefaultSettles(Upserted(t, c, e, id, now), c, id);
  }

  /** The new address is the default iff it was asked to be or is the only one; otherwise the old default stands. */
  lemma CreatedKeepsInvariant(t: Book, c: Id, e: Entry, id: Id, wantsDefault: bool, now: Time)
    requires Consistent(t)
    requires At(t, c, e.fingerprint, id) || (id !in t && e.fingerprint !in KeysOf(t, c))
    ensures Consistent(Created(t, c, e, id, wantsDefault, now))
    ensures DefaultsOf(Created(t, c, e, id, wantsDefault, now), c) ==
      if wantsDefault || RowsOf(t, c) == {} then {id} else DefaultsOf(t, c)
  {
    var u := Upserted(t, c, e, id, now);
    UpsertedRows(t, c, e, id, now);
    OthersUndisturbed(t, u, c);
    assert OneDefault(t, c);
    FirstIsDefault(t, u, c, id);
    if wantsDefault || |RowsOf(u, c)| == 1 {
      WithDefaultSettles(u, c, id);
      WithDefaultKeepsInvariant(u, c, id);
    } else {
      assert OneDefault(u, c);
    }
  }

  lemma FirstIsDefault(t: Book, u: Book, c: Id, id: Id)
    requires OneDefault(t, c)
    requires RowsOf(u, c) == RowsOf(t, c) + {id} && DefaultsOf(u, c) == DefaultsOf(t, c)
    ensures RowsOf(t, c) == {} ==> |RowsOf(u, c)| == 1
    ensures RowsOf(t, c) != {} && |RowsOf(u, c)| == 1 ==> DefaultsOf(t, c) == {id}
    ensures RowsOf(t, c) != {} ==> OneDefault(u, c)
  {
    assert DefaultsOf(t, c) <= RowsOf(t, c);
    if |RowsOf(u, c)| == 1 && RowsOf(t, c) != {} {
      OnlyElement(RowsOf(u, c), id);
      assert DefaultsOf(t, c) - {id} == {};
    }
  }

  lemma OnlyElement(s: set<Id>, id: Id)
    requires |s| == 1 && id in s
    ensures s == {id}
  {
    assert |s - {id}| == 0;
  }

  /** Success keeps the invariant; the unique index refuses exactly the fingerprints of the customer's other rows. */
  lemma UpdatedKeepsInvariant(t: Book, c: Id, id: Id, e: Entry, wantsDefault: bool)
    requires Consistent(t) && id in t && t[id].owner == c
    ensures Unique(Updated(t, c, id, e, wantsDefault)) <==> e.fingerprint !in KeysOf(t - {id}, c)
    ensures Unique(Updated(t, c, id, e, wantsDefault)) ==> Consistent(Updated(t, c, id, e, wantsDefault))
    ensures DefaultsOf(Updated(t, c, id, e, wantsDefault), c) == if wantsDefault then {id} else DefaultsOf(t, c)
  {
    var u := t[id := t[id].(key := e.fingerprint, data := t[id].data.(content := e.content))];
    assert RowsOf(u, c) == RowsOf(t, c) && DefaultsOf(u, c) == DefaultsOf(t, c);
    OthersUndisturbed(t, u, c);
    assert OneDefault(t, c);
    RekeyUnique(t, c, id, e);
    WithDefaultSettles(u, c, id);
    if Unique(u) { WithDefaultKeepsInvariant(u, c, id); }
    UpdatedUniqueIff(t, c, id, e, wantsDefault);
  }

  lemma UpdatedUniqueIff(t: Book, c: Id, id: Id, e: Entry, wantsDefault: bool)
    requires Unique(t) && id in t && t[id].owner == c
    ensures Unique(Updated(t, c, id, e, wantsDefault)) <==> e.fingerprint !in KeysOf(t - {id}, c)
  {
    var u := t[id := t[id].(key := e.fingerprint, data := t[id].data.(content := e.content))];
    RekeyUnique(t, c, id, e);
    WithDefaultSettles(u, c, id);
    if wantsDefault && !Unique(u) {
      var i, j :| i in u && j in u && u[i].owner == u[j].owner && u[i].key == u[j].key && i != j;
      var t' := WithDefault(u, c, id);
      assert t'[i].owner == t'[j].owner && t'[i].key == t'[j].key;
    }
  }

  lemma RekeyUnique(t: Book, c: Id, id: Id, e: Entry)
    requires Unique(t) && id in t && t[id].owner == c
    ensures Unique(t[id := t[id].(key := e.fingerprint, data := t[id].data.(content := e.content))]) <==>
      e.fingerprint !in KeysOf(t - {id}, c)
  {
    var u := t[id := t[id].(key := e.fingerprint, data := t[id].data.(content := e.content))];
    if e.fingerprint in KeysOf(t - {id}, c) {
      var j := RowWithKey(t - {id}, c, e.fingerprint);
      assert u[j].owner == u[id].owner && u[j].key == u[id].key;
    } else {
      forall i | i in t - {id} && t[i].owner == c ensures t[i].key != e.fingerprint {
        KeyPresent(t - {id}, c, i);
      }
    }
  }

  lemma RemovedKeepsUnique(t: Book, c: Id, id: Id, t': Book)
    requires Unique(t) && id in t && t[id].owner == c && Removed(t, c, id, t')
    ensures Unique(t')
  {
    var u := t - {id};
    if t' != u {
      var next :| Newest(u, c, next) && t' == WithDefault(u, c, next);
      WithDefaultSettles(u, c, next);
    }
  }

  lemma RemovedKeepsInvariant(t: Book, c: Id, id: Id, t': Book)
    requires Consistent(t) && id in t && t[id].owner == c
    requires Removed(t, c, id, t')
    ensures Consistent(t')
    ensures RowsOf(t', c) == RowsOf(t, c) - {id}
    ensures !t[id].data.isDefault ==> DefaultsOf(t', c) == DefaultsOf(t, c)
  {
    var u := t - {id};
    assert OneDefault(t, c);
    assert RowsOf(u, c) == RowsOf(t, c) - {id};
    assert DefaultsOf(u, c) == DefaultsOf(t, c) - {id};
    OthersUndisturbed(t, u, c);
    if t[id].data.isDefault && RowsOf(u, c) != {} {
      var next :| Newest(u, c, next) && t' == WithDefault(u, c, next);
      WithDefaultSettles(u, c, next);
      WithDefaultKeepsInvariant(u, c, next);
    } else {
      assert OneDefault(u, c);
    }
  }

  /**
   * `ensureSomeDefault` repairs a missing default but not a surplus:
   * it restores the invariant iff there was at most one.
   */
  lemma SomeDefaultRepairs(t: Book, c: Id, t': Book)
    requires SomeDefault(t, c, t')
    ensures OneDefault(t', c) <==> |DefaultsOf(t, c)| <= 1
    ensures RowsOf(t', c) == RowsOf(t, c)
    ensures Unique(t) ==> Unique(t')
  {
    assert DefaultsOf(t, c) <= RowsOf(t, c);
    if DefaultsOf(t, c) == {} && RowsOf(t, c) != {} {
      var id :| Newest(t, c, id) && t' == WithDefault(t, c, id);
      WithDefaultSettles(t, c, id);
    } else if RowsOf(t, c) != {} {
      var d :| d in DefaultsOf(t, c);
      if |DefaultsOf(t, c)| == 1 { OnlyElement(DefaultsOf(t, c), d); }
    }
  }

  lemma ImportKeepsInvariant(t: Book, c: Id, orders: seq<Option<Entry>>, now: Time, u: Book, t': Book)
    requires Consistent(t) && OrdersImported(t, c, orders, now, u) && SomeDefault(u, c, t')
    ensures Consistent(t')
    ensures RowsOf(t, c) != {} ==> DefaultsOf(t', c) == DefaultsOf(t, c)
  {
    assert OneDefault(t, c);
    ImportAddsNoDefault(t, c, orders, now, u);
    SomeDefaultRepairs(u, c, t');
    OthersUndisturbed(t, t', c);
  }

  lemma ImportAddsNoDefault(t: Book, c: Id, orders: seq<Option<Entry>>, now: Time, u: Book)
    requires OrdersImported(t, c, orders, now, u)
    ensures DefaultsOf(u, c) == DefaultsOf(t, c) && RowsOf(t, c) <= RowsOf(u, c)
    ensures RowsOf(t, c) == {} ==> DefaultsOf(t, c) == {}
  {}

  /** The flag change a merge applies: an arriving address is no default if the target has addresses already. */
  function Arriving(targetHasAddress: bool): Address -> Address {
    (a: Address) => if targetHasAddress then a.(isDefault := false) else a
  }

  /** Merging two customers leaves exactly one default: the target's own, or, if it had no address, the source's. */
  lemma MergeKeepsInvariant(t: Book, source: Id, target: Id)
    requires Consistent(t) && source != target
    ensures var t' := MergeRows(t, source, target, Arriving(RowsOf(t, target) != {}));
      && Consistent(t')
      && DefaultsOf(t', target) == if RowsOf(t, target) != {} then DefaultsOf(t, target) else DefaultsOf(t, source)
  {
    var f := Arriving(RowsOf(t, target) != {});
    var t' := MergeRows(t, source, target, f);
    MergeKeepsUnique(t, source, target, f);
    MergeUnitesKeys(t, source, target, f);
    forall d | d != source && d != target ensures OneDefault(t', d) {
      assert OneDefault(t, d);
      assert DefaultsOf(t', d) == DefaultsOf(t, d);
    }
    if RowsOf(t, target) != {} {
      assert OneDefault(t, target);
      assert DefaultsOf(t', target) == DefaultsOf(t, target);
    } else {
      assert OneDefault(t, source);
      if KeysOf(t, target) != {} { KeysNeedRows(t, target); }
      assert Clashing(t, source, target) == {};
      assert RowsOf(t', target) == RowsOf(t, source);
      assert DefaultsOf(t', target) == DefaultsOf(t, source);
    }
  }
}

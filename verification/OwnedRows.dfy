/**
 * Tables whose rows belong to a customer under `@@unique([customerId, key])`: addresses
 * (key = fingerprint), wishlist and recently-viewed items (key = product handle).
 * The customer merge treats all three with one routine.
 */
module OwnedRows {
  import opened Schema

  datatype Row<P> = Row(owner: Id, key: string, data: P)

  type Table<P> = map<Id, Row<P>>

  ghost predicate Unique<P>(t: Table<P>) {
    forall i, j :: i in t && j in t && t[i].owner == t[j].owner && t[i].key == t[j].key ==> i == j
  }

  function RowsOf<P>(t: Table<P>, c: Id): set<Id> {
    set i | i in t && t[i].owner == c
  }

  function KeysOf<P>(t: Table<P>, c: Id): set<string> {
    set i | i in t && t[i].owner == c :: t[i].key
  }

  /** The rows of `source` that the merge deletes: the target already holds their key. */
  function Clashing<P>(t: Table<P>, source: Id, target: Id): set<Id> {
    set i | i in t && t[i].owner == source && t[i].key in KeysOf(t, target)
  }

  /** What the merge leaves of a table: clashing rows gone, the others re-owned, their data passed through `f`. */
  function MergeRows<P>(t: Table<P>, source: Id, target: Id, f: P -> P): Table<P> {
    map i | i in t && i !in Clashing(t, source, target) ::
      if t[i].owner == source then Row(target, t[i].key, f(t[i].data)) else t[i]
  }

  /**
   * Splits the source's rows: one whose key is taken is to be dropped, any other is to be moved
   * and its key becomes taken.
   */
  method Partition<P>(t: Table<P>, source: Id, sourceRows: seq<Id>, target: Id, targetRows: seq<Id>)
    returns (toMove: seq<Id>, toDrop: seq<Id>)
    requires Unique(t) && source != target
    requires forall i :: i in sourceRows <==> i in RowsOf(t, source)
    requires forall k, l :: 0 <= k < l < |sourceRows| ==> sourceRows[k] != sourceRows[l]
    requires forall i :: i in targetRows <==> i in RowsOf(t, target)
    ensures |toMove| + |toDrop| == |sourceRows|
    ensures forall k, l :: 0 <= k < l < |toMove| ==> toMove[k] != toMove[l]
    ensures forall i :: i in toDrop <==> i in Clashing(t, source, target)
    ensures forall i :: i in toMove <==> i in RowsOf(t, source) - Clashing(t, source, target)
  {
    var taken := set i | i in targetRows && i in t :: t[i].key;
    assert taken == KeysOf(t, target);
    toMove, toDrop := [], [];
    for n := 0 to |sourceRows|
      invariant |toMove| + |toDrop| == n
      invariant forall key :: key in taken <==>
        key in KeysOf(t, target) || exists i :: i in toMove && i in t && t[i].key == key
      invariant forall i :: i in toMove ==> i in RowsOf(t, source)
      invariant forall i :: i in toDrop <==> i in sourceRows[..n] && i in Clashing(t, source, target)
      invariant forall i :: i in toMove <==> i in sourceRows[..n] && i !in Clashing(t, source, target)
      invariant forall k, l :: 0 <= k < l < |toMove| ==> toMove[k] != toMove[l]
    {
      var id := sourceRows[n];
      assert id in RowsOf(t, source) && id !in sourceRows[..n];
      assert sourceRows[..n + 1] == sourceRows[..n] + [id];
      if t[id].key in taken {
        assert id in Clashing(t, source, target);
        toDrop := toDrop + [id];
      } else {
        assert id !in Clashing(t, source, target);
        taken := taken + {t[id].key};
        toMove := toMove + [id];
      }
    }
    assert sourceRows[..|sourceRows|] == sourceRows;
  }

  /** "Move, but where it would clash, delete": returns the new table and both counts. */
  method MoveWithDedupe<P>(t: Table<P>, source: Id, target: Id, f: P -> P)
    returns (t': Table<P>, moved: nat, dropped: nat)
    requires Unique(t) && source != target
    ensures t' == MergeRows(t, source, target, f)
    ensures moved + dropped == |RowsOf(t, source)|
    ensures moved == |RowsOf(t', target)| - |RowsOf(t, target)|
    ensures dropped == |t| - |t'|
  {
    var sourceRows := Enumerate(RowsOf(t, source));
    var targetRows := Enumerate(RowsOf(t, target));
    var toMove, toDrop := Partition(t, source, sourceRows, target, targetRows);
    assert Elements(toMove) == RowsOf(t, source) - Clashing(t, source, target);
    assert Elements(toDrop) == Clashing(t, source, target);
    t' := Drop(Move(t, Elements(toMove), target, f), Elements(toDrop));
    moved, dropped := |toMove|, |toDrop|;
    MoveThenDrop(t, source, target, f);
    DistinctCount(toMove);
    ClashingGo(t, source, target, f);
  }

  /** The two bulk statements amount to `MergeRows`. */
  lemma MoveThenDrop<P>(t: Table<P>, source: Id, target: Id, f: P -> P)
    requires source != target
    ensures var clashing := Clashing(t, source, target); var moving := RowsOf(t, source) - clashing;
      && Drop(Move(t, moving, target, f), clashing) == MergeRows(t, source, target, f)
      && RowsOf(MergeRows(t, source, target, f), target) == RowsOf(t, target) + moving
  {
    var clashing := Clashing(t, source, target);
    var moving := RowsOf(t, source) - clashing;
    assert Drop(Move(t, moving, target, f), clashing).Keys == MergeRows(t, source, target, f).Keys;
  }

  /** The rows the merge removes are the clashing ones; all others of the source move. */
  lemma ClashingGo<P>(t: Table<P>, source: Id, target: Id, f: P -> P)
    ensures |Clashing(t, source, target)| == |t| - |MergeRows(t, source, target, f)|
    ensures |RowsOf(t, source) - Clashing(t, source, target)| + |Clashing(t, source, target)| == |RowsOf(t, source)|
  {
    var clashing := Clashing(t, source, target);
    Complement(t.Keys, clashing);
    Complement(RowsOf(t, source), clashing);
    assert MergeRows(t, source, target, f).Keys == t.Keys - clashing;
  }

  lemma Complement(all: set<Id>, part: set<Id>)
    requires part <= all
    ensures |all - part| + |part| == |all|
  {
    assert all == (all - part) + part;
  }

  function Move<P>(t: Table<P>, ids: set<Id>, target: Id, f: P -> P): Table<P> {
    map i | i in t :: if i in ids then Row(target, t[i].key, f(t[i].data)) else t[i]
  }

  function Drop<P>(t: Table<P>, ids: set<Id>): Table<P> {
    map i | i in t && i !in ids :: t[i]
  }

  /** A row that carries the key. */
  lemma RowWithKey<P>(t: Table<P>, c: Id, key: string) returns (i: Id)
    requires key in KeysOf(t, c)
    ensures i in t && t[i].owner == c && t[i].key == key
  {
    i :| i in t && t[i].owner == c && t[i].key == key;
  }

  /** Rows that stay keep their keys in the key set. */
  lemma KeysWithin<P>(t: Table<P>, t': Table<P>, c: Id)
    requires forall i :: i in t && t[i].owner == c ==> i in t' && t'[i].owner == c && t'[i].key == t[i].key
    ensures KeysOf(t, c) <= KeysOf(t', c)
  {
    forall key | key in KeysOf(t, c) ensures key in KeysOf(t', c) {
      var i := RowWithKey(t, c, key);
      assert t'[i].key == key;
    }
  }

  lemma KeysNeedRows<P>(t: Table<P>, c: Id)
    requires KeysOf(t, c) != {}
    ensures RowsOf(t, c) != {}
  {
    var key :| key in KeysOf(t, c);
    var i := RowWithKey(t, c, key);
    assert i in RowsOf(t, c);
  }

  lemma KeyPresent<P>(t: Table<P>, c: Id, i: Id)
    requires i in t && t[i].owner == c
    ensures t[i].key in KeysOf(t, c)
  {}

  /** Adding a row under a key the customer lacks. */
  lemma InsertRow<P>(t: Table<P>, c: Id, key: string, id: Id, data: P)
    requires Unique(t) && id !in t && key !in KeysOf(t, c)
    ensures Unique(t[id := Row(c, key, data)])
    ensures RowsOf(t[id := Row(c, key, data)], c) == RowsOf(t, c) + {id}
    ensures KeysOf(t[id := Row(c, key, data)], c) == KeysOf(t, c) + {key}
  {
    var t' := t[id := Row(c, key, data)];
    forall i | i in t && t[i].owner == c ensures t[i].key != key {
      KeyPresent(t, c, i);
    }
    InsertKey(t, c, key, id, data);
  }

  lemma InsertKey<P>(t: Table<P>, c: Id, key: string, id: Id, data: P)
    requires id !in t
    ensures KeysOf(t[id := Row(c, key, data)], c) == KeysOf(t, c) + {key}
  {
    var t' := t[id := Row(c, key, data)];
    KeysWithin(t, t', c);
    KeyPresent(t', c, id);
    forall k | k in KeysOf(t', c) ensures k in KeysOf(t, c) + {key} {
      var i := RowWithKey(t', c, k);
      if i != id { KeyPresent(t, c, i); }
    }
  }

  // ---------------------------------------------------------------- properties of the merge

  /** The unique index survives. */
  lemma MergeKeepsUnique<P>(t: Table<P>, source: Id, target: Id, f: P -> P)
    requires Unique(t)
    ensures Unique(MergeRows(t, source, target, f))
  {
  }

  /** No key is lost and none is invented; every other customer's rows are untouched. */
  lemma MergeUnitesKeys<P>(t: Table<P>, source: Id, target: Id, f: P -> P)
    requires source != target
    ensures var t' := MergeRows(t, source, target, f);
      && KeysOf(t', target) == KeysOf(t, source) + KeysOf(t, target)
      && RowsOf(t', source) == {}
      && (forall c :: c != source && c != target ==> RowsOf(t', c) == RowsOf(t, c))
      && (forall i :: i in t && t[i].owner != source ==> i in t' && t'[i] == t[i])
  {
    var t' := MergeRows(t, source, target, f);
    forall key | key in KeysOf(t, source) + KeysOf(t, target) ensures key in KeysOf(t', target) {
      if key in KeysOf(t, target) {
        var i := RowWithKey(t, target, key);
        assert t'[i] == t[i];
      } else {
        var i := RowWithKey(t, source, key);
        assert t'[i].key == key;
      }
    }
  }
}

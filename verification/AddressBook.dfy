/**
 * The import of Shopify's address books, which copies Shopify's own default flag without clearing others: what it
 * does to "exactly one default", and whether the import of past orders that follows repairs it.
 */
module AddressBook {
  import opened Schema
  import opened OwnedRows
  import opened Addresses

  /**
   * An entry of an address book; `flagged` if it is the default there, `refused` if its row cannot be created because
   * another one is connected with the same Shopify address.
   */
  datatype BookEntry = BookEntry(fingerprint: string, content: string, flagged: bool, refused: bool)

  function Flattened(books: seq<seq<Option<BookEntry>>>): seq<Option<BookEntry>> {
    if books == [] then [] else Flattened(books[..|books| - 1]) + books[|books| - 1]
  }

  /** Whether the entry brings a row: it could be parsed, its fingerprint is new, and it is not refused. */
  predicate Brings(keys: set<string>, e: Option<BookEntry>) {
    e.Some? && e.value.fingerprint !in keys && !e.value.refused
  }

  /** The loop over the entries; an entry already known, or that cannot be parsed or created, is passed over. */
  function BookImported(t: Book, next: Id, c: Id, entries: seq<Option<BookEntry>>, now: Time): (Book, Id) {
    if entries == [] then (t, next)
    else
      var (u, id) := BookImported(t, next, c, entries[..|entries| - 1], now);
      EntryImported(u, id, c, entries[|entries| - 1], now)
  }

  function EntryImported(t: Book, next: Id, c: Id, e: Option<BookEntry>, now: Time): (Book, Id) {
    if Brings(KeysOf(t, c), e)
    then (t[next := Row(c, e.value.fingerprint, Address(e.value.flagged, now, e.value.content))], next + 1)
    else (t, next)
  }

  // ---------------------------------------------------------------- what can be read off the entries

  /** The fingerprints known after some entries. */
  function KeysAfter(keys: set<string>, entries: seq<Option<BookEntry>>): set<string> {
    if entries == [] then keys
    else
      var known, e := KeysAfter(keys, entries[..|entries| - 1]), entries[|entries| - 1];
      if Brings(known, e) then known + {e.value.fingerprint} else known
  }

  predicate BringsNew(keys: set<string>, entries: seq<Option<BookEntry>>) {
    KeysAfter(keys, entries) != keys
  }

  /** How many of the entries that bring a row are flagged. */
  function FlaggedNew(keys: set<string>, entries: seq<Option<BookEntry>>): nat {
    if entries == [] then 0
    else
      var front, e := entries[..|entries| - 1], entries[|entries| - 1];
      FlaggedNew(keys, front) + if Brings(KeysAfter(keys, front), e) && e.value.flagged then 1 else 0
  }

  // ---------------------------------------------------------------- the effect of the import

  lemma {:induction false} BookInTwo(t: Book, next: Id, c: Id, a: seq<Option<BookEntry>>, b: seq<Option<BookEntry>>,
    now: Time)
    ensures var (u, id) := BookImported(t, next, c, a, now);
      BookImported(t, next, c, a + b, now) == BookImported(u, id, c, b, now)
    decreases |b|
  {
    if b == [] {
      assert a + b == a;
    } else {
      var n := |b| - 1;
      BookInTwo(t, next, c, a, b[..n], now);
      assert (a + b)[..|a + b| - 1] == a + b[..n] && (a + b)[|a + b| - 1] == b[n];
    }
  }

  lemma EntryKeepsSound(t: Book, next: Id, c: Id, e: Option<BookEntry>, now: Time)
    requires Unique(t) && forall i :: i in t ==> i < next
    ensures var (u, id) := EntryImported(t, next, c, e, now); Unique(u) && (forall i :: i in u ==> i < id) && next <= id
  {
    if Brings(KeysOf(t, c), e) {
      InsertRow(t, c, e.value.fingerprint, next, Address(e.value.flagged, now, e.value.content));
    }
  }

  lemma EntryCounts(t: Book, next: Id, c: Id, e: Option<BookEntry>, now: Time)
    requires Unique(t) && (forall i :: i in t ==> i < next) && Brings(KeysOf(t, c), e)
    ensures var u := EntryImported(t, next, c, e, now).0;
      && KeysOf(u, c) == KeysOf(t, c) + {e.value.fingerprint}
      && |DefaultsOf(u, c)| == |DefaultsOf(t, c)| + (if e.value.flagged then 1 else 0)
      && RowsOf(u, c) != {}
      && (forall d :: d != c ==> RowsOf(u, d) == RowsOf(t, d) && DefaultsOf(u, d) == DefaultsOf(t, d))
  {
    var a := Address(e.value.flagged, now, e.value.content);
    InsertRow(t, c, e.value.fingerprint, next, a);
    RowAdded(t, c, e.value.fingerprint, next, a);
  }

  lemma RowAdded(t: Book, c: Id, fingerprint: string, id: Id, a: Address)
    requires id !in t
    ensures var u := t[id := Row(c, fingerprint, a)];
      && |DefaultsOf(u, c)| == |DefaultsOf(t, c)| + (if a.isDefault then 1 else 0)
      && id in RowsOf(u, c)
      && (forall d :: d != c ==> RowsOf(u, d) == RowsOf(t, d) && DefaultsOf(u, d) == DefaultsOf(t, d))
  {
    var u := t[id := Row(c, fingerprint, a)];
    assert id !in DefaultsOf(t, c);
    assert DefaultsOf(u, c) == if a.isDefault then DefaultsOf(t, c) + {id} else DefaultsOf(t, c);
  }

  /** What the whole import does, in terms of the table before and the entries. */
  ghost predicate Accounts(t: Book, c: Id, entries: seq<Option<BookEntry>>, u: Book) {
    && KeysOf(u, c) == KeysAfter(KeysOf(t, c), entries)
    && |DefaultsOf(u, c)| == |DefaultsOf(t, c)| + FlaggedNew(KeysOf(t, c), entries)
    && (BringsNew(KeysOf(t, c), entries) ==> RowsOf(u, c) != {})
    && (!BringsNew(KeysOf(t, c), entries) ==> u == t)
    && (forall d :: d != c ==> RowsOf(u, d) == RowsOf(t, d) && DefaultsOf(u, d) == DefaultsOf(t, d))
  }

  lemma {:induction false} BookAccounts(t: Book, next: Id, c: Id, entries: seq<Option<BookEntry>>, now: Time)
    requires Unique(t) && forall i :: i in t ==> i < next
    ensures var (u, id) := BookImported(t, next, c, entries, now);
      Unique(u) && (forall i :: i in u ==> i < id) && Accounts(t, c, entries, u)
    decreases |entries|
  {
    if entries != [] {
      var front, e := entries[..|entries| - 1], entries[|entries| - 1];
      BookAccounts(t, next, c, front, now);
      KeysOnlyGrow(KeysOf(t, c), front);
      var (u, id) := BookImported(t, next, c, front, now);
      EntryKeepsSound(u, id, c, e, now);
      if Brings(KeysOf(u, c), e) { EntryCounts(u, id, c, e, now); }
    }
  }

  lemma {:induction false} KeysOnlyGrow(keys: set<string>, entries: seq<Option<BookEntry>>)
    ensures keys <= KeysAfter(keys, entries)
    decreases |entries|
  {
    if entries != [] { KeysOnlyGrow(keys, entries[..|entries| - 1]); }
  }

  // ---------------------------------------------------------------- the invariant

  /**
   * The import keeps exactly one default if and only if it brings nothing new, or the old defaults and the new
   * flagged entries make one together.
   */
  lemma BookKeepsInvariantIff(t: Book, next: Id, c: Id, entries: seq<Option<BookEntry>>, now: Time)
    requires Consistent(t) && forall i :: i in t ==> i < next
    ensures Consistent(BookImported(t, next, c, entries, now).0) <==>
      !BringsNew(KeysOf(t, c), entries) || |DefaultsOf(t, c)| + FlaggedNew(KeysOf(t, c), entries) == 1
  {
    var u := BookImported(t, next, c, entries, now).0;
    BookAccounts(t, next, c, entries, now);
    OthersConsistent(t, c, entries, u);
  }

  lemma OthersConsistent(t: Book, c: Id, entries: seq<Option<BookEntry>>, u: Book)
    requires Consistent(t) && Unique(u) && Accounts(t, c, entries, u)
    ensures Consistent(u) <==> OneDefault(u, c)
  {
    forall d | d != c ensures OneDefault(u, d) { assert OneDefault(t, d); }
  }

  /**
   * The import of past orders that follows in a sync repairs a missing
   * default, so the sync keeps it iff there is no surplus.
   */
  lemma SyncKeepsInvariantIff(t: Book, next: Id, c: Id, entries: seq<Option<BookEntry>>, orders: seq<Option<Entry>>,
    now: Time, inserted: Book, t': Book)
    requires Consistent(t) && forall i :: i in t ==> i < next
    requires OrdersImported(BookImported(t, next, c, entries, now).0, c, orders, now, inserted)
    requires SomeDefault(inserted, c, t')
    ensures Consistent(t') <==> |DefaultsOf(t, c)| + FlaggedNew(KeysOf(t, c), entries) <= 1
  {
    var u := BookImported(t, next, c, entries, now).0;
    BookAccounts(t, next, c, entries, now);
    ImportAddsNoDefault(u, c, orders, now, inserted);
    SomeDefaultRepairs(inserted, c, t');
    SyncSparesOthers(t, c, entries, u, orders, now, inserted, t');
  }

  lemma ImportSpares(t: Book, c: Id, orders: seq<Option<Entry>>, now: Time, t': Book, d: Id)
    requires OrdersImported(t, c, orders, now, t') && d != c
    ensures RowsOf(t', d) == RowsOf(t, d) && DefaultsOf(t', d) == DefaultsOf(t, d)
  {}

  lemma SomeDefaultSpares(t: Book, c: Id, t': Book, d: Id)
    requires SomeDefault(t, c, t') && d != c
    ensures RowsOf(t', d) == RowsOf(t, d) && DefaultsOf(t', d) == DefaultsOf(t, d)
  {}

  lemma SyncSparesOthers(t: Book, c: Id, entries: seq<Option<BookEntry>>, u: Book, orders: seq<Option<Entry>>,
    now: Time, inserted: Book, t': Book)
    requires Consistent(t) && Accounts(t, c, entries, u) && OrdersImported(u, c, orders, now, inserted)
    requires SomeDefault(inserted, c, t')
    requires Unique(t')
    ensures Consistent(t') <==> OneDefault(t', c)
  {
    forall d | d != c ensures OneDefault(t', d) {
      assert OneDefault(t, d);
      ImportSpares(u, c, orders, now, inserted, d);
      SomeDefaultSpares(inserted, c, t', d);
    }
  }
}

/**
 * Recently viewed products. The table keeps one row per (customer, handle) with the time of the
 * last view, and is trimmed to 20 rows after each view. Seen from outside it is a bounded
 * most-recently-used list.
 */
module RecentlyViewed {
  import opened Schema
  import opened OwnedRows

  const RECENT_LIMIT := 20

  /** The row data is `viewedAt`. */
  type Views = Table<Time>

  function Take<T>(s: seq<T>, n: nat): seq<T> {
    if |s| <= n then s else s[..n]
  }

  ghost predicate Distinct<T>(s: seq<T>) {
    forall i, j :: 0 <= i < j < |s| ==> s[i] != s[j]
  }

  // ---------------------------------------------------------------- the specification: a bounded MRU list

  function Without<T(==)>(s: seq<T>, x: T): seq<T> {
    if s == [] then [] else if s[0] == x then Without(s[1..], x) else [s[0]] + Without(s[1..], x)
  }

  function MoveToFront<T(==)>(s: seq<T>, x: T): seq<T> {
    Take([x] + Without(s, x), RECENT_LIMIT)
  }

  function AfterViews(recent: seq<string>, views: seq<string>): seq<string>
    decreases |views|
  {
    if views == [] then recent else AfterViews(MoveToFront(recent, views[0]), views[1..])
  }

  // ---------------------------------------------------------------- reading the table

  /** The customer's rows, most recent first: what `orderBy viewedAt desc` yields. */
  ghost predicate IsListing(t: Views, c: Id, s: seq<Id>) {
    && (forall i :: i in s <==> i in RowsOf(t, c))
    && (forall k, l :: 0 <= k < l < |s| ==> s[k] in t && s[l] in t && t[s[k]].data > t[s[l]].data)
  }

  function Handles(t: Views, s: seq<Id>): seq<string> {
    seq(|s|, k requires 0 <= k < |s| => if s[k] in t then t[s[k]].key else "")
  }

  /** What the customer sees: the handles of the 20 most recent rows. */
  ghost predicate Shows(t: Views, c: Id, recent: seq<string>) {
    exists s :: IsListing(t, c, s) && recent == Handles(t, Take(s, RECENT_LIMIT))
  }

  /** Times never repeat among one customer's rows. */
  ghost predicate DistinctTimes(t: Views) {
    forall i, j :: i in t && j in t && i != j ==> t[i].data != t[j].data
  }

  lemma NonemptyHasMember(s: seq<Id>)
    ensures s == [] || exists i :: i in s
  {
    if s != [] { assert s[0] in s; }
  }

  lemma {:induction false} ListingUnique(t: Views, ids: set<Id>, s: seq<Id>, s': seq<Id>)
    requires forall i :: i in s <==> i in ids
    requires forall i :: i in s' <==> i in ids
    requires forall i :: i in ids ==> i in t
    requires forall k, l :: 0 <= k < l < |s| ==> s[k] in t && s[l] in t && t[s[k]].data > t[s[l]].data
    requires forall k, l :: 0 <= k < l < |s'| ==> s'[k] in t && s'[l] in t && t[s'[k]].data > t[s'[l]].data
    ensures s == s'
    decreases |s|
  {
    if s == [] {
      NonemptyHasMember(s');
    } else {
      assert s[0] in ids && s[0] in s';
      assert s'[0] in ids && s'[0] in s;
      assert s[0] == s'[0];
      forall i | i in ids - {s[0]} ensures i in s[1..] && i in s'[1..] {
        assert i in s && i in s';
      }
      forall i | i in s[1..] ensures i in ids - {s[0]} {
        var k :| 0 <= k < |s[1..]| && s[1..][k] == i;
        assert s[k + 1] == i;
      }
      forall i | i in s'[1..] ensures i in ids - {s[0]} {
        var k :| 0 <= k < |s'[1..]| && s'[1..][k] == i;
        assert s'[k + 1] == i;
      }
      ListingUnique(t, ids - {s[0]}, s[1..], s'[1..]);
    }
  }

  /** A table shows a customer one list only. */
  lemma ShowsUnique(t: Views, c: Id, r: seq<string>, r': seq<string>)
    requires Shows(t, c, r) && Shows(t, c, r')
    ensures r == r'
  {
    var s :| IsListing(t, c, s) && r == Handles(t, Take(s, RECENT_LIMIT));
    var s' :| IsListing(t, c, s') && r' == Handles(t, Take(s', RECENT_LIMIT));
    ListingUnique(t, RowsOf(t, c), s, s');
  }

  // ---------------------------------------------------------------- one view

  ghost predicate Slot(t: Views, c: Id, h: string, id: Id) {
    if id in t then t[id].owner == c && t[id].key == h else h !in KeysOf(t, c)
  }

  /** Everything past the customer's 20 most recent rows is deleted. */
  ghost predicate Trimmed(u: Views, c: Id, u': Views) {
    exists s: seq<Id> :: IsListing(u, c, s) && u' == Drop(u, Elements(s[|Take(s, RECENT_LIMIT)|..]))
  }

  /** `recordView`: upsert on (customer, handle), then trim. */
  ghost predicate Viewed(t: Views, c: Id, h: string, now: Time, t': Views) {
    exists id :: Slot(t, c, h, id) && Trimmed(t[id := Row(c, h, now)], c, t')
  }

  lemma {:induction false} WithoutMembers<T>(s: seq<T>, x: T)
    ensures forall y :: y in Without(s, x) <==> y in s && y != x
    ensures x !in s ==> Without(s, x) == s
  {
    if s != [] {
      WithoutMembers(s[1..], x);
      assert s == [s[0]] + s[1..];
    }
  }

  ghost predicate Descending(t: Views, s: seq<Id>) {
    forall k, l :: 0 <= k < l < |s| ==> s[k] in t && s[l] in t && t[s[k]].data > t[s[l]].data
  }

  lemma DescendingAppended(t: Views, s: seq<Id>, id: Id)
    requires Descending(t, s) && id in t && forall i :: i in s ==> i in t && t[i].data > t[id].data
    ensures Descending(t, s + [id])
  {
    forall k, l | 0 <= k < l < |s + [id]|
      ensures (s + [id])[k] in t && (s + [id])[l] in t && t[(s + [id])[k]].data > t[(s + [id])[l]].data
    {
      assert (s + [id])[k] == s[k] && s[k] in s;
    }
  }

  lemma {:induction false} WithoutDescending(t: Views, s: seq<Id>, id: Id)
    requires Descending(t, s)
    ensures Descending(t, Without(s, id))
  {
    if s != [] {
      assert Descending(t, s[1..]) by {
        forall k, l | 0 <= k < l < |s[1..]|
          ensures s[1..][k] in t && s[1..][l] in t && t[s[1..][k]].data > t[s[1..][l]].data
        {
          assert s[1..][k] == s[k + 1] && s[1..][l] == s[l + 1];
        }
      }
      WithoutDescending(t, s[1..], id);
      WithoutMembers(s[1..], id);
      var rest := Without(s[1..], id);
      forall l | 0 <= l < |rest| ensures s[0] in t && rest[l] in t && t[s[0]].data > t[rest[l]].data {
        assert rest[l] in s[1..];
        var k :| 0 <= k < |s[1..]| && s[1..][k] == rest[l];
        assert s[k + 1] == rest[l];
      }
    }
  }

  /** The viewed row moves to the head of the listing. */
  lemma UpsertedListing(t: Views, c: Id, h: string, now: Time, id: Id, s: seq<Id>)
    requires IsListing(t, c, s) && Slot(t, c, h, id)
    requires forall i :: i in t ==> t[i].data < now
    ensures IsListing(t[id := Row(c, h, now)], c, [id] + Without(s, id))
  {
    var u := t[id := Row(c, h, now)];
    var rest := Without(s, id);
    WithoutMembers(s, id);
    WithoutDescending(t, s, id);
    assert forall k :: 0 <= k < |rest| ==> rest[k] in rest && rest[k] in RowsOf(t, c);
    forall k, l | 0 <= k < l < |[id] + rest|
      ensures ([id] + rest)[k] in u && ([id] + rest)[l] in u && u[([id] + rest)[k]].data > u[([id] + rest)[l]].data
    {
      assert ([id] + rest)[l] == rest[l - 1];
      if k > 0 { assert ([id] + rest)[k] == rest[k - 1]; }
    }
  }

  lemma {:induction false} HandlesWithout(t: Views, c: Id, h: string, now: Time, id: Id, s: seq<Id>)
    requires Unique(t) && Slot(t, c, h, id) && forall i :: i in s ==> i in RowsOf(t, c)
    ensures Handles(t[id := Row(c, h, now)], Without(s, id)) == Without(Handles(t, s), h)
  {
    var u := t[id := Row(c, h, now)];
    if s != [] {
      HandlesWithout(t, c, h, now, id, s[1..]);
      assert s[0] in RowsOf(t, c);
      assert Handles(t, s) == [t[s[0]].key] + Handles(t, s[1..]);
      if s[0] != id {
        KeyPresent(t, c, s[0]);
        assert t[s[0]].key != h;
        assert Handles(u, [s[0]] + Without(s[1..], id)) == [t[s[0]].key] + Handles(u, Without(s[1..], id));
      }
    }
  }

  lemma {:induction false} TakeWithout<T>(s: seq<T>, x: T, n: nat)
    requires Distinct(s) && n >= 1
    ensures Take(Without(s, x), n - 1) == Take(Without(Take(s, n), x), n - 1)
  {
    if |s| > n {
      assert s[..n][1..] == s[1..][..n - 1];
      if s[0] == x {
        WithoutMembers(s[1..], x);
        WithoutMembers(s[1..][..n - 1], x);
      } else if n > 1 {
        TakeWithout(s[1..], x, n - 1);
      }
    }
  }

  lemma HandlesDistinct(t: Views, c: Id, s: seq<Id>)
    requires Unique(t) && IsListing(t, c, s)
    ensures Distinct(Handles(t, s))
  {
    forall i, j | 0 <= i < j < |s| ensures Handles(t, s)[i] != Handles(t, s)[j] {
      assert s[i] in RowsOf(t, c) && s[j] in RowsOf(t, c);
    }
  }

  /** Keeping the first rows of a listing leaves exactly those. */
  lemma TrimmedListing(u: Views, c: Id, s: seq<Id>)
    requires IsListing(u, c, s)
    ensures var kept := Take(s, RECENT_LIMIT);
      IsListing(Drop(u, Elements(s[|kept|..])), c, kept)
        && Handles(Drop(u, Elements(s[|kept|..])), kept) == Handles(u, kept)
  {
    var kept := Take(s, RECENT_LIMIT);
    var extras := s[|kept|..];
    assert s == kept + extras;
    forall k | 0 <= k < |kept| ensures kept[k] in RowsOf(u, c) && kept[k] !in extras {
      assert s[k] in s;
    }
    forall i | i in RowsOf(Drop(u, Elements(extras)), c) ensures i in kept {
      assert i in s;
    }
  }

  lemma HandlesOfTake(t: Views, s: seq<Id>, n: nat)
    ensures Handles(t, Take(s, n)) == Take(Handles(t, s), n)
  {}

  lemma HandlesOfFirst(t: Views, id: Id, rest: seq<Id>)
    requires id in t
    ensures Handles(t, [id] + rest) == [t[id].key] + Handles(t, rest)
  {}

  /** Cutting the list before or after the move makes no difference to what is seen. */
  lemma HandlesAfterMove(t: Views, c: Id, h: string, now: Time, id: Id, s: seq<Id>)
    requires Unique(t) && Slot(t, c, h, id) && IsListing(t, c, s)
    ensures Handles(t[id := Row(c, h, now)], Take([id] + Without(s, id), RECENT_LIMIT)) ==
      MoveToFront(Handles(t, Take(s, RECENT_LIMIT)), h)
  {
    var u, all := t[id := Row(c, h, now)], Handles(t, s);
    HandlesWithout(t, c, h, now, id, s);
    HandlesDistinct(t, c, s);
    CutBeforeOrAfter(all, h);
    HandlesOfTake(t, s, RECENT_LIMIT);
    HandlesOfFirst(u, id, Without(s, id));
    HandlesOfTake(u, [id] + Without(s, id), RECENT_LIMIT);
  }

  lemma CutBeforeOrAfter(all: seq<string>, h: string)
    requires Distinct(all)
    ensures Take([h] + Without(all, h), RECENT_LIMIT) == MoveToFront(Take(all, RECENT_LIMIT), h)
  {
    TakeWithout(all, h, RECENT_LIMIT);
    FrontTake(h, Without(all, h), Without(Take(all, RECENT_LIMIT), h));
  }

  /** After a view of `h` the customer sees the MRU list with `h` moved to the front, however many rows there were. */
  lemma ViewMovesToFront(t: Views, c: Id, h: string, now: Time, t': Views, recent: seq<string>)
    requires Unique(t) && (forall i :: i in t ==> t[i].data < now)
    requires Viewed(t, c, h, now, t') && Shows(t, c, recent)
    ensures Shows(t', c, MoveToFront(recent, h))
  {
    var id :| Slot(t, c, h, id) && Trimmed(t[id := Row(c, h, now)], c, t');
    var s :| IsListing(t, c, s) && recent == Handles(t, Take(s, RECENT_LIMIT));
    UpsertedListing(t, c, h, now, id, s);
    TrimmedShows(t[id := Row(c, h, now)], c, [id] + Without(s, id), t');
    HandlesAfterMove(t, c, h, now, id, s);
  }

  /** Trimming leaves what the customer sees. */
  lemma TrimmedShows(u: Views, c: Id, s: seq<Id>, t': Views)
    requires IsListing(u, c, s) && Trimmed(u, c, t')
    ensures Shows(t', c, Handles(u, Take(s, RECENT_LIMIT)))
  {
    var s': seq<Id> :| IsListing(u, c, s') && t' == Drop(u, Elements(s'[|Take(s', RECENT_LIMIT)|..]));
    ListingUnique(u, RowsOf(u, c), s', s);
    TrimmedListing(u, c, s);
    var kept := Take(s, RECENT_LIMIT);
    assert Take(kept, RECENT_LIMIT) == kept;
  }

  lemma FrontTake(h: string, a: seq<string>, b: seq<string>)
    requires Take(a, RECENT_LIMIT - 1) == Take(b, RECENT_LIMIT - 1)
    ensures Take([h] + a, RECENT_LIMIT) == Take([h] + b, RECENT_LIMIT)
  {
    assert Take([h] + a, RECENT_LIMIT) == [h] + Take(a, RECENT_LIMIT - 1);
    assert Take([h] + b, RECENT_LIMIT) == [h] + Take(b, RECENT_LIMIT - 1);
  }

  // ---------------------------------------------------------------- whole runs

  datatype View = View(customer: Id, handle: string, at: Time)

  /** A run of views by any customers, the tables between them in `ts`; the clock strictly advances. */
  ghost predicate IsRun(ts: seq<Views>, views: seq<View>) {
    && |ts| == |views| + 1
    && Unique(ts[0])
    && (forall n, i :: 0 <= n < |views| && i in ts[0] ==> ts[0][i].data < views[n].at)
    && (forall m, n :: 0 <= m < n < |views| ==> views[m].at < views[n].at)
    && (forall n :: 0 <= n < |views| ==> Viewed(ts[n], views[n].customer, views[n].handle, views[n].at, ts[n + 1]))
  }

  function HandlesViewedBy(views: seq<View>, c: Id): seq<string> {
    if views == [] then []
    else (if views[0].customer == c then [views[0].handle] else []) + HandlesViewedBy(views[1..], c)
  }

  lemma ViewKeepsIndex(t: Views, v: View, t': Views)
    requires Unique(t) && Viewed(t, v.customer, v.handle, v.at, t') && forall i :: i in t ==> t[i].data < v.at
    ensures Unique(t') && forall i :: i in t' ==> t'[i].data <= v.at
  {
    var id :| Slot(t, v.customer, v.handle, id) && Trimmed(t[id := Row(v.customer, v.handle, v.at)], v.customer, t');
    if id !in t { InsertRow(t, v.customer, v.handle, id, v.at); }
  }

  /** A view leaves every other customer's list alone. */
  lemma OthersSeeTheSame(t: Views, v: View, t': Views, c: Id, recent: seq<string>)
    requires Viewed(t, v.customer, v.handle, v.at, t') && c != v.customer && Shows(t, c, recent)
    ensures Shows(t', c, recent)
  {
    var id :| Slot(t, v.customer, v.handle, id) && Trimmed(t[id := Row(v.customer, v.handle, v.at)], v.customer, t');
    var u := t[id := Row(v.customer, v.handle, v.at)];
    TrimSparesOthers(u, v.customer, t', c);
    assert RowsOf(u, c) == RowsOf(t, c);
    SameRowsShowTheSame(t, t', c, recent);
  }

  lemma SameRowsShowTheSame(t: Views, t': Views, c: Id, recent: seq<string>)
    requires RowsOf(t', c) == RowsOf(t, c) && (forall i :: i in RowsOf(t, c) ==> t'[i] == t[i]) && Shows(t, c, recent)
    ensures Shows(t', c, recent)
  {
    var l :| IsListing(t, c, l) && recent == Handles(t, Take(l, RECENT_LIMIT));
    forall k | 0 <= k < |l| ensures l[k] in RowsOf(t, c) { assert l[k] in l; }
    assert IsListing(t', c, l);
    assert Handles(t', Take(l, RECENT_LIMIT)) == recent;
  }

  lemma TrimSparesOthers(u: Views, d: Id, u': Views, c: Id)
    requires Trimmed(u, d, u') && c != d
    ensures RowsOf(u', c) == RowsOf(u, c)
    ensures forall i :: i in RowsOf(u, c) ==> i in u' && u'[i] == u[i]
  {
    var s: seq<Id> :| IsListing(u, d, s) && u' == Drop(u, Elements(s[|Take(s, RECENT_LIMIT)|..]));
    forall i | i in RowsOf(u, c) ensures i !in s[|Take(s, RECENT_LIMIT)|..] {
      assert i !in s;
    }
  }

  lemma RunTail(ts: seq<Views>, views: seq<View>)
    requires IsRun(ts, views) && views != []
    ensures Viewed(ts[0], views[0].customer, views[0].handle, views[0].at, ts[1])
    ensures IsRun(ts[1..], views[1..])
  {
    assert Viewed(ts[0], views[0].customer, views[0].handle, views[0].at, ts[0 + 1]);
    ViewKeepsIndex(ts[0], views[0], ts[1]);
    forall n | 0 <= n < |views[1..]|
      ensures Viewed(ts[1..][n], views[1..][n].customer, views[1..][n].handle, views[1..][n].at, ts[1..][n + 1])
    {
      assert Viewed(ts[n + 1], views[n + 1].customer, views[n + 1].handle, views[n + 1].at, ts[n + 1 + 1]);
    }
  }

  /**
   * Over every run of views, from any table (a merge may have left a customer more than 20 rows),
   * what a customer sees is the bounded MRU list of what that customer viewed.
   */
  lemma {:induction false} RunRefinesMru(ts: seq<Views>, views: seq<View>, c: Id, recent: seq<string>)
    requires IsRun(ts, views) && Shows(ts[0], c, recent)
    ensures Shows(ts[|views|], c, AfterViews(recent, HandlesViewedBy(views, c)))
    decreases |views|
  {
    if views != [] {
      var v := views[0];
      RunTail(ts, views);
      if v.customer == c {
        ViewMovesToFront(ts[0], c, v.handle, v.at, ts[1], recent);
        RunRefinesMru(ts[1..], views[1..], c, MoveToFront(recent, v.handle));
        assert HandlesViewedBy(views, c)[1..] == HandlesViewedBy(views[1..], c);
      } else {
        OthersSeeTheSame(ts[0], v, ts[1], c, recent);
        RunRefinesMru(ts[1..], views[1..], c, recent);
        assert HandlesViewedBy(views, c) == HandlesViewedBy(views[1..], c);
      }
    }
  }

  // ---------------------------------------------------------------- the service

  class WishlistService {
    var views: Views
    var next: Id

    ghost predicate Valid() reads this {
      Unique(views) && DistinctTimes(views) && forall i :: i in views ==> i < next
    }

    constructor ()
      ensures Valid() && views == map[]
    {
      views, next := map[], 0;
    }

    /** `findMany(orderBy viewedAt desc)`: repeatedly the latest of the rows not yet listed. */
    method OrderByViewedAt(c: Id) returns (s: seq<Id>)
      requires Valid()
      ensures IsListing(views, c, s)
    {
      s := [];
      var todo := RowsOf(views, c);
      while todo != {}
        invariant todo <= RowsOf(views, c)
        invariant forall i :: i in s <==> i in RowsOf(views, c) - todo
        invariant Descending(views, s)
        invariant forall i, j :: i in s && j in todo ==> views[i].data > views[j].data
        decreases todo
      {
        var latest := Latest(todo);
        DescendingAppended(views, s, latest);
        s, todo := s + [latest], todo - {latest};
      }
    }

    method Latest(ids: set<Id>) returns (latest: Id)
      requires Valid() && ids != {} && ids <= views.Keys
      ensures latest in ids && forall j :: j in ids && j != latest ==> views[latest].data > views[j].data
    {
      latest :| latest in ids;
      var todo := ids - {latest};
      while todo != {}
        invariant latest in ids && todo <= ids
        invariant forall j :: j in ids - todo && j != latest ==> views[latest].data > views[j].data
        decreases todo
      {
        var i :| i in todo;
        todo := todo - {i};
        if views[i].data > views[latest].data { latest := i; }
      }
    }

    method RecordView(c: Id, h: string, now: Time)
      requires Valid() && forall i :: i in views ==> views[i].data < now
      modifies this
      ensures Valid() && Viewed(old(views), c, h, now, views)
    {
      ghost var before := views;
      ghost var id := next;
      if found :| found in views && views[found].owner == c && views[found].key == h {
        id := found;
        views := views[found := views[found].(data := now)];
      } else {
        views, next := views[next := Row(c, h, now)], next + 1;
        InsertRow(before, c, h, id, now);
      }
      assert Slot(before, c, h, id) && views == before[id := Row(c, h, now)];
      TrimRecentlyViewed(c);
      assert Viewed(before, c, h, now, views);
    }

    method TrimRecentlyViewed(c: Id)
      requires Valid()
      modifies `views
      ensures Valid()
      ensures Trimmed(old(views), c, views)
    {
      var s := OrderByViewedAt(c);
      var extras := s[|Take(s, RECENT_LIMIT)|..];
      if |extras| == 0 {
        assert Drop(views, Elements(extras)) == views;
        return;
      }
      views := map i | i in views && i !in extras :: views[i];
      assert views == Drop(old(views), Elements(extras));
    }

    method ListRecentlyViewed(c: Id) returns (recent: seq<string>)
      requires Valid()
      ensures Shows(views, c, recent)
      ensures |recent| <= RECENT_LIMIT
    {
      var s := OrderByViewedAt(c);
      recent := Handles(views, Take(s, RECENT_LIMIT));
    }
  }
}

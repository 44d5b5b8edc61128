/** What the bounded list of recently viewed products means, and which rows a view leaves. */
module ViewOutcome {
  import opened Schema
  import opened OwnedRows
  import opened RecentlyViewed

  // ---------------------------------------------------------------- the meaning of the list

  /** The position of the last view of `h`, or -1. */
  function LastView(views: seq<string>, h: string): int {
    if views == [] then -1
    else if views[|views| - 1] == h then |views| - 1
    else LastView(views[..|views| - 1], h)
  }

  lemma {:induction false} LastViewIs(views: seq<string>, h: string)
    ensures -1 <= LastView(views, h) < |views|
    ensures LastView(views, h) >= 0 ==> views[LastView(views, h)] == h
    ensures forall n :: LastView(views, h) < n < |views| ==> views[n] != h
  {
    if views != [] && views[|views| - 1] != h { LastViewIs(views[..|views| - 1], h); }
  }

  /** Later views come first. */
  ghost predicate ByLastView(views: seq<string>, s: seq<string>) {
    forall k, l :: 0 <= k < l < |s| ==> LastView(views, s[k]) > LastView(views, s[l])
  }

  /** At most 20 products, all viewed, later views first; one that is missing has 20 others viewed since. */
  ghost predicate IsRecent(views: seq<string>, recent: seq<string>) {
    && |recent| <= 20 && ByLastView(views, recent)
    && (forall k :: 0 <= k < |recent| ==> LastView(views, recent[k]) >= 0)
    && (forall h :: LastView(views, h) >= 0 && h !in recent ==> Displaced(views, recent, h))
  }

  ghost predicate Displaced(views: seq<string>, recent: seq<string>, h: string) {
    |recent| == 20 && forall k :: 0 <= k < |recent| ==> LastView(views, recent[k]) > LastView(views, h)
  }

  lemma {:induction false} ViewsInTwo(recent: seq<string>, views: seq<string>, h: string)
    ensures AfterViews(recent, views + [h]) == MoveToFront(AfterViews(recent, views), h)
    decreases |views|
  {
    if views == [] {
      assert views + [h] == [h];
      assert AfterViews(recent, [h]) == AfterViews(MoveToFront(recent, h), []);
    } else {
      assert (views + [h])[1..] == views[1..] + [h];
      ViewsInTwo(MoveToFront(recent, views[0]), views[1..], h);
    }
  }

  lemma {:induction false} WithoutKeepsOrder(views: seq<string>, s: seq<string>, h: string)
    requires ByLastView(views, s)
    ensures ByLastView(views, Without(s, h))
    ensures |Without(s, h)| == |s| - if h in s then 1 else 0
  {
    if s != [] {
      var rest := Without(s[1..], h);
      WithoutMembers(s[1..], h);
      WithoutKeepsOrder(views, s[1..], h);
      HeadIsLatest(views, s);
      assert s == [s[0]] + s[1..];
      forall k | 0 <= k < |rest| ensures LastView(views, s[0]) > LastView(views, rest[k]) { assert rest[k] in rest; }
    }
  }

  lemma HeadIsLatest(views: seq<string>, s: seq<string>)
    requires ByLastView(views, s) && s != []
    ensures forall y :: y in s[1..] ==> LastView(views, y) < LastView(views, s[0])
    ensures s[0] !in s[1..] && ByLastView(views, s[1..])
  {
    forall y | y in s[1..] ensures LastView(views, y) < LastView(views, s[0]) {
      var k :| 0 <= k < |s[1..]| && s[1..][k] == y;
      assert s[k + 1] == y;
    }
  }

  lemma LastViewGrows(views: seq<string>, h: string, y: string)
    ensures LastView(views + [h], y) == if y == h then |views| else LastView(views, y)
    ensures LastView(views, y) < |views|
  {
    assert (views + [h])[..|views|] == views;
    LastViewIs(views, y);
  }

  /** `h` in front of the others, as far as 20 places go. */
  ghost predicate Front(rest: seq<string>, h: string, recent: seq<string>) {
    && |recent| == (if |rest| < 20 then |rest| + 1 else 20)
    && recent[0] == h && forall k :: 0 < k < |recent| ==> recent[k] == rest[k - 1]
  }

  lemma FrontOrdered(views: seq<string>, rest: seq<string>, h: string, recent: seq<string>)
    requires ByLastView(views, rest) && h !in rest && Front(rest, h, recent)
    ensures ByLastView(views + [h], recent)
  {
    forall k, l | 0 <= k < l < |recent| ensures LastView(views + [h], recent[k]) > LastView(views + [h], recent[l]) {
      LastViewGrows(views, h, recent[k]);
      LastViewGrows(views, h, recent[l]);
      assert recent[l] == rest[l - 1] && rest[l - 1] in rest;
      if k > 0 { assert recent[k] == rest[k - 1] && rest[k - 1] in rest; }
    }
  }

  lemma FrontIsViewed(views: seq<string>, recent: seq<string>, rest: seq<string>, h: string, recent': seq<string>)
    requires Front(rest, h, recent') && forall x :: x in rest ==> x in recent
    requires forall k :: 0 <= k < |recent| ==> LastView(views, recent[k]) >= 0
    ensures forall k :: 0 <= k < |recent'| ==> LastView(views + [h], recent'[k]) >= 0
  {
    forall k | 0 <= k < |recent'| ensures LastView(views + [h], recent'[k]) >= 0 {
      LastViewGrows(views, h, recent'[k]);
      if k > 0 {
        assert recent'[k] == rest[k - 1] && rest[k - 1] in rest && rest[k - 1] in recent;
        var j :| 0 <= j < |recent| && recent[j] == rest[k - 1];
      }
    }
  }

  /** One more view keeps the meaning. */
  lemma ViewKeepsRecent(views: seq<string>, recent: seq<string>, h: string)
    requires IsRecent(views, recent)
    ensures IsRecent(views + [h], MoveToFront(recent, h))
  {
    var rest, recent' := Without(recent, h), MoveToFront(recent, h);
    WithoutMembers(recent, h);
    WithoutKeepsOrder(views, recent, h);
    FrontOrdered(views, rest, h, recent');
    FrontIsViewed(views, recent, rest, h, recent');
    forall y | LastView(views + [h], y) >= 0 && y !in recent' ensures Displaced(views + [h], recent', y) {
      LastViewGrows(views, h, y);
      assert y != h by { assert recent'[0] == h; }
      MissingIsDisplaced(views, recent, rest, h, recent', y);
    }
  }

  lemma MissingIsDisplaced(
    views: seq<string>, recent: seq<string>, rest: seq<string>, h: string, recent': seq<string>, y: string)
    requires Front(rest, h, recent') && h !in rest && ByLastView(views, rest) && y != h && y !in recent'
    requires LastView(views, y) >= 0 && (y in recent ==> y in rest) && (forall x :: x in rest ==> x in recent)
    requires |recent| <= |rest| + 1 && (y !in recent ==> Displaced(views, recent, y))
    ensures Displaced(views + [h], recent', y)
  {
    LastViewGrows(views, h, y);
    if y in rest {
      var i :| 0 <= i < |rest| && rest[i] == y;
      assert i + 1 < |recent'| ==> recent'[i + 1] == y;
    }
    forall k | 0 <= k < |recent'| ensures LastView(views + [h], recent'[k]) > LastView(views + [h], y) {
      LastViewGrows(views, h, recent'[k]);
      if k > 0 && y !in rest {
        assert recent'[k] == rest[k - 1] && rest[k - 1] in rest && rest[k - 1] in recent;
      }
    }
  }

  /** The list kept over any views is what it is taken to be; and there is only one such list. */
  lemma {:induction false} ListIsRecent(views: seq<string>)
    ensures IsRecent(views, AfterViews([], views))
  {
    if views != [] {
      var n := |views| - 1;
      ListIsRecent(views[..n]);
      ViewKeepsRecent(views[..n], AfterViews([], views[..n]), views[n]);
      ViewsInTwo([], views[..n], views[n]);
      assert views[..n] + [views[n]] == views;
    }
  }

  lemma RecentHead(views: seq<string>, a: seq<string>, b: seq<string>, k: nat)
    requires IsRecent(views, a) && IsRecent(views, b) && k <= |a| && k <= |b| && a[..k] == b[..k] && k < |a|
    ensures k < |b| && LastView(views, b[k]) >= LastView(views, a[k])
  {
    forall j | 0 <= j < k ensures b[j] != a[k] { assert a[..k][j] == b[..k][j]; }
    if a[k] in b {
      var j :| 0 <= j < |b| && b[j] == a[k];
    } else {
      assert Displaced(views, b, a[k]);
    }
  }

  lemma {:induction false} RecentAgrees(views: seq<string>, a: seq<string>, b: seq<string>, k: nat)
    requires IsRecent(views, a) && IsRecent(views, b) && k <= |a| && k <= |b| && a[..k] == b[..k]
    ensures a == b
    decreases |a| - k
  {
    if k < |a| {
      RecentHead(views, a, b, k);
      RecentHead(views, b, a, k);
      LastViewIs(views, a[k]);
      LastViewIs(views, b[k]);
      assert a[..k + 1] == a[..k] + [a[k]] && b[..k + 1] == b[..k] + [b[k]];
      RecentAgrees(views, a, b, k + 1);
    } else if k < |b| {
      RecentHead(views, b, a, k);
    } else {
      assert a == a[..k] && b == b[..k];
    }
  }

  lemma RecentIsUnique(views: seq<string>, recent: seq<string>)
    requires IsRecent(views, recent)
    ensures recent == AfterViews([], views)
  {
    ListIsRecent(views);
    RecentAgrees(views, recent, AfterViews([], views), 0);
  }

  // ---------------------------------------------------------------- the rows

  /** The product's row has the time of this view, and every other row is as it was. */
  ghost predicate HasViewed(t: Views, c: Id, h: string, now: Time, t': Views, id: Id) {
    && id in t' && t'[id] == Row(c, h, now) && (id in t ==> t[id].owner == c && t[id].key == h)
    && forall i :: i in t' && i != id ==> i in t && t'[i] == t[i]
  }

  /** A row that went is the viewer's, and older than each of the 20 that stayed. */
  ghost predicate Outlived(t: Views, c: Id, t': Views, i: Id)
    requires i in t
  {
    t[i].owner == c && |RowsOf(t', c)| == 20 && forall j :: j in RowsOf(t', c) ==> t'[j].data > t[i].data
  }

  /** A view stores its time and leaves the viewer at most 20 rows, the latest. */
  lemma ViewStores(t: Views, c: Id, h: string, now: Time, t': Views)
    requires Unique(t) && (forall i :: i in t ==> t[i].data < now) && Viewed(t, c, h, now, t')
    ensures |RowsOf(t', c)| <= 20
    ensures exists id :: HasViewed(t, c, h, now, t', id)
    ensures forall i :: i in t && i !in t' ==> Outlived(t, c, t', i)
  {
    var id :| Slot(t, c, h, id) && Trimmed(t[id := Row(c, h, now)], c, t');
    var u := t[id := Row(c, h, now)];
    var s: seq<Id> :| IsListing(u, c, s) && t' == Drop(u, Elements(s[|Take(s, RECENT_LIMIT)|..]));
    RowsLeft(u, c, s, t');
    ViewedStays(u, c, s, id, t');
    assert HasViewed(t, c, h, now, t', id);
    forall i | i in t && i !in t' ensures Outlived(t, c, t', i) { RowOutlived(u, c, s, t', i); }
  }

  lemma ViewedStays(u: Views, c: Id, s: seq<Id>, id: Id, u': Views)
    requires IsListing(u, c, s) && u' == Drop(u, Elements(s[|Take(s, RECENT_LIMIT)|..]))
    requires id in RowsOf(u, c) && forall i :: i in u && i != id ==> u[i].data < u[id].data
    ensures id in u' && u'[id] == u[id]
  {
    LatestIsFirst(u, c, s, id);
    RowsLeft(u, c, s, u');
    assert s[..|Take(s, RECENT_LIMIT)|][0] == id;
    assert id in Elements(s[..|Take(s, RECENT_LIMIT)|]);
  }

  lemma LatestIsFirst(u: Views, c: Id, s: seq<Id>, id: Id)
    requires IsListing(u, c, s) && id in RowsOf(u, c) && forall i :: i in u && i != id ==> u[i].data < u[id].data
    ensures s != [] && s[0] == id
  {
    assert id in s;
    var k :| 0 <= k < |s| && s[k] == id;
  }

  /** Trimming keeps the first 20 of the listing. */
  lemma RowsLeft(u: Views, c: Id, s: seq<Id>, u': Views)
    requires IsListing(u, c, s) && u' == Drop(u, Elements(s[|Take(s, RECENT_LIMIT)|..]))
    ensures var n := |Take(s, RECENT_LIMIT)|;
      && n == (if |s| < 20 then |s| else 20)
      && RowsOf(u', c) == Elements(s[..n]) && |RowsOf(u', c)| == n
      && forall i :: i in u' ==> i in u && u'[i] == u[i]
  {
    var n := |Take(s, RECENT_LIMIT)|;
    assert s == s[..n] + s[n..];
    forall i | i in s[..n] ensures i !in s[n..] { KeptOrGone(u, c, s, n, i); }
    forall i ensures i in RowsOf(u', c) <==> i in s[..n] {
      assert i in s <==> i in RowsOf(u, c);
    }
    assert RowsOf(u', c) == Elements(s[..n]);
    DistinctCount(s[..n]);
  }

  lemma KeptOrGone(u: Views, c: Id, s: seq<Id>, n: nat, i: Id)
    requires IsListing(u, c, s) && n <= |s| && i in s[..n]
    ensures i !in s[n..]
  {
    var k :| 0 <= k < n && s[k] == i;
    forall l | n <= l < |s| ensures s[l] != i {
      assert s[k] in s && s[l] in s;
      assert u[s[k]].data > u[s[l]].data;
    }
  }

  lemma RowOutlived(u: Views, c: Id, s: seq<Id>, u': Views, i: Id)
    requires IsListing(u, c, s) && u' == Drop(u, Elements(s[|Take(s, RECENT_LIMIT)|..])) && i in u && i !in u'
    ensures Outlived(u, c, u', i)
  {
    var n := |Take(s, RECENT_LIMIT)|;
    RowsLeft(u, c, s, u');
    assert i in s[n..];
    var l :| 0 <= l < |s[n..]| && s[n..][l] == i;
    assert s[n + l] == i && i in s;
    forall j | j in RowsOf(u', c) ensures u'[j].data > u[i].data {
      var k :| 0 <= k < n && s[..n][k] == j;
      assert u[s[k]].data > u[s[n + l]].data;
    }
  }
}

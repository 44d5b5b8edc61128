/**
 * Where every row is after a merge of customer `s` into `t`, table by table and column by column: what moved and with
 * which data, what was dropped because `t` had its key, and that the report counts just that.
 */
module MergeOutcome {
  import opened Schema
  import opened OwnedRows
  import opened Customers
  import opened CustomerMerge
  import opened RefreshTokens
  import Addresses
  import Carts

  ghost predicate Happened(st: State, s: Id, t: Id, now: Time, st': State) {
    s != t && s in st.db.customers && t in st.db.customers && Executed(st, s, t, now, st')
  }

  ghost predicate HasRow<P>(table: Table<P>, c: Id) {
    exists i :: i in table && table[i].owner == c
  }

  ghost predicate HasKey<P>(table: Table<P>, c: Id, key: string) {
    exists i :: i in table && table[i].owner == c && table[i].key == key
  }

  /** A row is dropped if it is the source's and the target has its key; every other stays under its id and key. */
  ghost predicate RowsStay<P>(table: Table<P>, s: Id, t: Id, table': Table<P>) {
    && (forall i :: i in table' <==> i in table && !(table[i].owner == s && HasKey(table, t, table[i].key)))
    && (forall i :: i in table' ==>
         table'[i].key == table[i].key && table'[i].owner == if table[i].owner == s then t else table[i].owner)
  }

  lemma MergedRowsStay<P>(table: Table<P>, s: Id, t: Id, f: P -> P)
    ensures RowsStay(table, s, t, MergeRows(table, s, t, f))
    ensures forall i :: i in MergeRows(table, s, t, f) ==>
      MergeRows(table, s, t, f)[i].data == if table[i].owner == s then f(table[i].data) else table[i].data
  {
    forall i | i in table && table[i].owner == s
      ensures HasKey(table, t, table[i].key) <==> table[i].key in KeysOf(table, t)
    {
      if table[i].key in KeysOf(table, t) { var j := RowWithKey(table, t, table[i].key); }
      if HasKey(table, t, table[i].key) {
        var j :| j in table && table[j].owner == t && table[j].key == table[i].key;
        KeyPresent(table, t, j);
      }
    }
  }

  /** Addresses keep content and age; one that arrives keeps its default flag only if the target had no address. */
  lemma AddressesAfter(st: State, s: Id, t: Id, now: Time, st': State)
    requires Happened(st, s, t, now, st')
    ensures RowsStay(st.addresses, s, t, st'.addresses)
    ensures forall i :: i in st'.addresses ==>
      var before, after := st.addresses[i].data, st'.addresses[i].data;
      && after.content == before.content && after.createdAt == before.createdAt
      && after.isDefault == (before.isDefault && !(st.addresses[i].owner == s && HasRow(st.addresses, t)))
  {
    assert HasRow(st.addresses, t) <==> RowsOf(st.addresses, t) != {} by {
      if i :| i in st.addresses && st.addresses[i].owner == t { assert i in RowsOf(st.addresses, t); }
      if i :| i in RowsOf(st.addresses, t) { assert st.addresses[i].owner == t; }
    }
    MergedRowsStay(st.addresses, s, t, Addresses.Arriving(RowsOf(st.addresses, t) != {}));
  }

  /** Wishlist and recently viewed products keep the time they were added or seen. */
  lemma TimesAfter(st: State, s: Id, t: Id, now: Time, st': State)
    requires Happened(st, s, t, now, st')
    ensures RowsStay(st.wishlist, s, t, st'.wishlist)
    ensures forall i :: i in st'.wishlist ==> st'.wishlist[i].data == st.wishlist[i].data
    ensures RowsStay(st.viewed, s, t, st'.viewed)
    ensures forall i :: i in st'.viewed ==> st'.viewed[i].data == st.viewed[i].data
  {
    MergedRowsStay(st.wishlist, s, t, Same);
    MergedRowsStay(st.viewed, s, t, Same);
  }

  /** What names the source names the target, and nothing else changes hands. */
  ghost predicate ChangesHands<K>(owners: map<K, Id>, s: Id, t: Id, owners': map<K, Id>) {
    && owners'.Keys == owners.Keys
    && forall k :: k in owners ==> owners'[k] == if owners[k] == s then t else owners[k]
  }

  /** One-time codes issued to nobody yet stay so. */
  lemma OwnersAfter(st: State, s: Id, t: Id, now: Time, st': State)
    requires Happened(st, s, t, now, st')
    ensures ChangesHands(st.db.identities, s, t, st'.db.identities)
    ensures ChangesHands(st.devices, s, t, st'.devices)
    ensures st'.otps.Keys == st.otps.Keys
    ensures forall k :: k in st.otps ==> st'.otps[k] == if st.otps[k] == Some(s) then Some(t) else st.otps[k]
  {}

  /** The source is marked, and its Shopify id moves if the target has none; no other column of any row changes. */
  lemma CustomersAfter(st: State, s: Id, t: Id, now: Time, st': State)
    requires Happened(st, s, t, now, st')
    ensures var source, target := st.db.customers[s], st.db.customers[t];
      var kept := if target.shopifyId.None? then (None, source.shopifyId) else (source.shopifyId, target.shopifyId);
      && st'.db.customers.Keys == st.db.customers.Keys && st'.db.next == st.db.next
      && st'.db.customers[s] == Customer(source.phone, source.email, Merged, kept.0, Some(t))
      && st'.db.customers[t] == Customer(target.phone, target.email, target.status, kept.1, target.mergedInto)
      && forall c :: c in st.db.customers && c != s && c != t ==> st'.db.customers[c] == st.db.customers[c]
  {}

  /** Links change hands, and one to the source's primary record is the target's, whoever held it. */
  lemma LinksAfter(st: State, s: Id, t: Id, now: Time, st': State)
    requires Happened(st, s, t, now, st')
    ensures var primary := st.db.customers[s].shopifyId;
      && (forall x :: x in st'.db.links <==> x in st.db.links || primary == Some(x))
      && (forall x :: x in st'.db.links ==>
           st'.db.links[x] == if primary == Some(x) || st.db.links[x] == s then t else st.db.links[x])
  {
    forall x ensures x in st'.db.links <==> x in st.db.links || st.db.customers[s].shopifyId == Some(x) {
      LinkAfterMerge(st.db, s, t, x);
    }
  }

  /** The source's live sessions end now; no other column of any session changes, not even its owner. */
  lemma SessionsAfter(st: State, s: Id, t: Id, now: Time, st': State)
    requires Happened(st, s, t, now, st')
    ensures |st'.tokens| == |st.tokens|
    ensures forall i :: 0 <= i < |st.tokens| ==>
      var k := st.tokens[i];
      st'.tokens[i] == if k.customer == s && k.revokedAt.None?
        then Token(k.hash, k.customer, k.family, k.expiresAt, Some(now), k.replacedBy) else k
  {}

  /**
   * The cart: per variant the target has what both had, each line with variant and price of a line one of them had, and
   * the source has no cart.
   */
  lemma CartAfter(st: State, s: Id, t: Id, now: Time, st': State, v: string, i: Id)
    requires Happened(st, s, t, now, st')
    ensures Carts.Quantity(st'.carts, t, v) == Carts.Quantity(st.carts, s, v) + Carts.Quantity(st.carts, t, v)
    ensures i in st'.carts.lines && BelongsTo(st'.carts, t, i) ==> exists j ::
      j in st.carts.lines && (BelongsTo(st.carts, s, j) || BelongsTo(st.carts, t, j))
      && SameArticle(st.carts.lines[j], st'.carts.lines[i])
    ensures forall k :: k in st'.carts.carts ==> st'.carts.carts[k].customer != s
  {
    assert Carts.VariantMerged(st.carts, s, t, st'.carts, v);
    if i in st'.carts.lines && BelongsTo(st'.carts, t, i) {
      assert i in Carts.LinesFor(st'.carts, t);
      if i in Carts.LinesFor(st.carts, t) {
        assert BelongsTo(st.carts, t, i) && SameArticle(st.carts.lines[i], st'.carts.lines[i]);
      } else {
        var j :| j in Carts.LinesFor(st.carts, s) && Carts.SameItem(st.carts.lines[j], st'.carts.lines[i]);
        assert BelongsTo(st.carts, s, j) && SameArticle(st.carts.lines[j], st'.carts.lines[i]);
      }
    }
  }

  /** A cart of anyone else, and any line in one, is as it was. */
  lemma OtherCartsAfter(st: State, s: Id, t: Id, now: Time, st': State, k: Id, i: Id)
    requires Happened(st, s, t, now, st')
    ensures k in st.carts.carts && st.carts.carts[k].customer !in {s, t} ==>
      k in st'.carts.carts && st'.carts.carts[k] == st.carts.carts[k]
    ensures i in st.carts.lines && BelongsToOther(st.carts, s, t, i) ==>
      i in st'.carts.lines && st'.carts.lines[i] == st.carts.lines[i]
  {
    if k in st.carts.carts && st.carts.carts[k].customer !in {s, t} {
      var c := st.carts.carts[k].customer;
      assert Carts.SameCart(st.carts, st'.carts, c) && Carts.OwnsCart(st.carts, c, k);
    }
    if i in st.carts.lines && BelongsToOther(st.carts, s, t, i) {
      var c := st.carts.carts[st.carts.lines[i].cart].customer;
      assert Carts.SameCart(st.carts, st'.carts, c) && i in Carts.LinesFor(st.carts, c);
    }
  }

  predicate BelongsTo(d: Carts.Tables, c: Id, i: Id)
    requires i in d.lines
  {
    d.lines[i].cart in d.carts && d.carts[d.lines[i].cart].customer == c
  }

  predicate BelongsToOther(d: Carts.Tables, s: Id, t: Id, i: Id)
    requires i in d.lines
  {
    d.lines[i].cart in d.carts && d.carts[d.lines[i].cart].customer !in {s, t}
  }

  predicate SameArticle(a: Carts.Line, b: Carts.Line) {
    a.variant == b.variant && a.priceAmount == b.priceAmount && a.priceCurrency == b.priceCurrency
  }

  function CartRows(d: Carts.Tables, c: Id): set<Id> {
    set i | i in d.lines && exists k :: k in d.carts && k == d.lines[i].cart && d.carts[k].customer == c
  }

  /** The dry run counts the source's rows, table by table, and its live sessions. */
  lemma PlanCountsRows(st: State, s: Id)
    ensures var p := PlanOf(st, s);
      && p.identities == |set k | k in st.db.identities && st.db.identities[k] == s|
      && p.links == |set x | x in st.db.links && st.db.links[x] == s|
      && p.addresses == |set i | i in st.addresses && st.addresses[i].owner == s|
      && p.wishlist == |set i | i in st.wishlist && st.wishlist[i].owner == s|
      && p.viewed == |set i | i in st.viewed && st.viewed[i].owner == s|
      && p.devices == |set d | d in st.devices && st.devices[d] == s|
      && p.revokedSessions == |LiveOf(st.tokens, s)|
      && p.skippedAddresses == p.skippedWishlist == p.skippedViewed == 0
    ensures PlanOf(st, s).cartItems == |CartRows(st.carts, s)|
  {
    assert RowsOf(st.addresses, s) == set i | i in st.addresses && st.addresses[i].owner == s;
    assert RowsOf(st.wishlist, s) == set i | i in st.wishlist && st.wishlist[i].owner == s;
    assert RowsOf(st.viewed, s) == set i | i in st.viewed && st.viewed[i].owner == s;
    assert Carts.LinesFor(st.carts, s) == CartRows(st.carts, s);
  }
}

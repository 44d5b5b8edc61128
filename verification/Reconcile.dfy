/**
 * What happens between the local tables and Shopify once an identifier is verified: Shopify records are linked,
 * and after an e-mail is verified its old record takes over from the one the app created, which is deleted, merged
 * or kept. Shopify is an environment whose answers are parameters.
 */
module Reconcile {
  import opened Schema
  import opened Customers
  import opened Login

  /** A Shopify customer record; an order belongs to one record. */
  datatype Record = Record(email: Option<string>, phone: Option<string>, orders: set<Id>, appCreated: bool)

  type Shop = map<string, Record>

  /** A record found by a verified identifier. */
  datatype Match = Match(id: string, phone: Option<string>, orderCount: nat)

  /** The search answers truly: existing records with their phone and number of orders. */
  ghost predicate TrueMatches(shop: Shop, matches: seq<Match>) {
    forall i :: 0 <= i < |matches| ==>
      matches[i].id in shop && matches[i].phone == shop[matches[i].id].phone
        && matches[i].orderCount == |shop[matches[i].id].orders|
  }

  ghost predicate OrdersApart(shop: Shop) {
    forall x, y, o :: OnRecord(shop, x, o) && OnRecord(shop, y, o) ==> x == y
  }

  predicate OnRecord(shop: Shop, x: string, o: Id) {
    x in shop && o in shop[x].orders
  }

  /** An order the customer can see: on a record linked to it or its primary. */
  ghost predicate Reaches(db: Db, shop: Shop, c: Id, o: Id) {
    exists x :: x in Visible(db, c) && OnRecord(shop, x, o)
  }

  // ---------------------------------------------------------------- the best match

  /** The head of a stable sort by falling number of orders. */
  function Best(matches: seq<Match>): (b: Match)
    requires matches != []
  {
    var rest := matches[..|matches| - 1];
    var last := matches[|matches| - 1];
    if rest == [] then last else if last.orderCount > Best(rest).orderCount then last else Best(rest)
  }

  lemma {:induction false} BestHasMostOrders(matches: seq<Match>) returns (k: nat)
    requires matches != []
    ensures k < |matches| && matches[k] == Best(matches)
    ensures forall i :: 0 <= i < |matches| ==> matches[i].orderCount <= Best(matches).orderCount
    ensures forall i :: 0 <= i < k ==> matches[i].orderCount < Best(matches).orderCount
  {
    var n := |matches| - 1;
    if n == 0 { return 0; }
    k := BestHasMostOrders(matches[..n]);
    if matches[n].orderCount > Best(matches[..n]).orderCount { k := n; }
  }

  // ---------------------------------------------------------------- linking the records found

  predicate LinkedElsewhere(db: Db, c: Id, x: string) {
    x in db.links && db.links[x] != c
  }

  // ---------------------------------------------------------------- Shopify's answers

  /** To the deletion of an empty record: done, refused with a message, or no answer at all. */
  datatype DeletionReply = Accepted | Refused(reason: string) | Unreachable

  /** To the merge of two records, which Shopify decides to keep one of, or not to merge. */
  datatype MergeReply = KeepsFirst | KeepsSecond | NotMerged

  datatype Replies = Replies(deletion: DeletionReply, merge: MergeReply, contactUpdated: bool)

  datatype Deletion = Gone | Kept(reason: string) | Threw

  const HAS_ORDERS := "has orders"

  /** `deleteCustomerIfEmpty`: only an existing, order-free record the app created is given up for deletion. */
  function DeletionOf(shop: Shop, x: string, reply: DeletionReply): Deletion {
    if reply.Unreachable? then Threw
    else if x !in shop then Kept("not found")
    else if |shop[x].orders| > 0 then Kept(HAS_ORDERS)
    else if !shop[x].appCreated then Kept("not app-created")
    else if reply.Refused? then Kept(reply.reason)
    else Gone
  }

  /** `mergeCustomers`: the surviving record, if the two are merged. */
  function Survivor(shop: Shop, keep: string, from: string, reply: MergeReply): Option<string> {
    if keep == from then Some(keep)
    else if keep !in shop || from !in shop || reply == NotMerged then None
    else Some(if reply == KeepsFirst then keep else from)
  }

  /** A merge moves all orders to the survivor and removes the other; the phone is kept from the record asked for. */
  function MergedShop(shop: Shop, keep: string, from: string, survivor: string, keepPhoneFrom: Option<string>): Shop
    requires keep in shop && from in shop && survivor in shop
  {
    var record := shop[survivor].(
      orders := shop[keep].orders + shop[from].orders,
      phone := if keepPhoneFrom.Some? && keepPhoneFrom.value in shop then shop[keepPhoneFrom.value].phone
        else shop[survivor].phone);
    (shop - {if survivor == keep then from else keep})[survivor := record]
  }

  // ---------------------------------------------------------------- reconciliation

  /** What becomes of the record that was the primary before. */
  datatype Fate = NoOrphan | Deleted | MergedInto(survivor: string) | LeftAlone | Aborted

  function OrphanOf(db: Db, c: Id, existing: string): Option<string>
    requires c in db.customers
  {
    var primary := db.customers[c].shopifyId;
    if primary.Some? && primary.value != existing then primary else None
  }

  function FateOf(shop: Shop, existing: string, orphan: Option<string>, r: Replies): Fate {
    if orphan.None? then NoOrphan
    else
      match DeletionOf(shop, orphan.value, r.deletion)
      case Threw => Aborted
      case Gone => Deleted
      case Kept(reason) =>
        var survivor := Survivor(shop, existing, orphan.value, r.merge);
        if reason == HAS_ORDERS && survivor.Some? then MergedInto(survivor.value) else LeftAlone
  }

  /** What a request that goes through reports. */
  function FateFor(db: Db, shop: Shop, c: Id, matches: seq<Match>, r: Replies): Fate
    requires c in db.customers
  {
    if matches == [] then NoOrphan else FateOf(shop, Best(matches).id, OrphanOf(db, c, Best(matches).id), r)
  }

  /** The record that no longer exists. */
  function GoneRecord(existing: string, orphan: Option<string>, fate: Fate): Option<string> {
    match fate
    case Deleted => orphan
    case MergedInto(survivor) => if orphan == Some(survivor) then Some(existing) else orphan
    case _ => None
  }

  function PrimaryAfter(existing: string, fate: Fate): string {
    if fate.MergedInto? then fate.survivor else existing
  }

  function ShopAfter(shop: Shop, existing: Match, orphan: Option<string>, phone: Option<string>, fate: Fate): Shop {
    match fate
    case Deleted => if orphan.Some? then shop - {orphan.value} else shop
    case MergedInto(survivor) =>
      if orphan.Some? && existing.id in shop && orphan.value in shop && survivor in shop
      then MergedShop(shop, existing.id, orphan.value, survivor,
        if phone.Some? && existing.phone.None? then orphan else None)
      else shop
    case _ => shop
  }

  function Unlinked(links: map<string, Id>, gone: Option<string>): map<string, Id> {
    if gone.Some? then links - {gone.value} else links
  }

  function DbAfter(db: Db, c: Id, primary: string, gone: Option<string>): Db
    requires c in db.customers
  {
    db.(customers := WithShopifyId(db.customers, c, primary), links := LinkAdded(Unlinked(db.links, gone), primary, c))
  }

  function ContactSet(shop: Shop, x: string, email: Option<string>, phone: Option<string>, success: bool): Shop {
    if !success || x !in shop then shop
    else
      var record := shop[x];
      shop[x := record.(
        email := if email.Some? then email else record.email,
        phone := if phone.Some? then phone else record.phone)]
  }

  /** `threw` after Shopify was changed when the local update violates a unique column. */
  datatype Outcome = Outcome(db: Db, shop: Shop, threw: bool, gone: Option<string>, phoneUpdate: bool)

  ghost function Reconciled(db: Db, shop: Shop, c: Id, email: string, matches: seq<Match>, r: Replies): Outcome
    requires c in db.customers
  {
    var row := db.customers[c];
    if matches == [] then
      var shop' :=
        if row.shopifyId.None? then shop
        else ContactSet(shop, row.shopifyId.value, Some(email), None, r.contactUpdated);
      Outcome(db, shop', false, None, false)
    else
      var existing := Best(matches);
      var orphan := OrphanOf(db, c, existing.id);
      var fate := FateOf(shop, existing.id, orphan, r);
      var primary, gone := PrimaryAfter(existing.id, fate), GoneRecord(existing.id, orphan, fate);
      var shop1 := ShopAfter(shop, existing, orphan, row.phone, fate);
      if fate.Aborted? || TakenElsewhere(db.customers, c, primary) then Outcome(db, shop1, true, gone, false)
      else
        var updatesPhone := row.phone.Some? && existing.phone.None? && (fate.NoOrphan? || fate.Deleted?);
        var shop2 := if updatesPhone then ContactSet(shop1, primary, None, row.phone, r.contactUpdated) else shop1;
        Outcome(DbAfter(db, c, primary, gone), shop2, false, gone, updatesPhone)
  }

  // ---------------------------------------------------------------- no order history is lost

  predicate Linked(db: Db, c: Id, x: string) {
    x in db.links && db.links[x] == c
  }

  /**
   * What a caller can check beforehand: the old primary has no orders, or they will stay in sight. For that it must be
   * linked to the customer; but if another customer has the new record as its primary, so that the local update will
   * fail, it is the new record that must be linked to the customer.
   */
  ghost predicate Prepared(db: Db, shop: Shop, c: Id, existing: string)
    requires c in db.customers
  {
    var orphan := OrphanOf(db, c, existing);
    orphan.Some? && orphan.value in shop && shop[orphan.value].orders != {} ==>
      Linked(db, c, if TakenElsewhere(db.customers, c, existing) then existing else orphan.value)
  }

  lemma ContactKeepsOrders(shop: Shop, x: string, email: Option<string>, phone: Option<string>, success: bool)
    ensures ContactSet(shop, x, email, phone, success).Keys == shop.Keys
    ensures forall y, o :: OnRecord(ContactSet(shop, x, email, phone, success), y, o) <==> OnRecord(shop, y, o)
  {}

  /** Where an order is after Shopify's part: still on its record, or on the survivor of a merge. */
  function RecordAfter(existing: string, orphan: Option<string>, fate: Fate, x: string): string {
    if fate.MergedInto? && (x == existing || orphan == Some(x)) then fate.survivor else x
  }

  lemma OrdersMove(shop: Shop, existing: Match, orphan: Option<string>, phone: Option<string>, r: Replies,
    x: string, o: Id)
    requires existing.id in shop && orphan != Some(existing.id) && OnRecord(shop, x, o)
    ensures var fate := FateOf(shop, existing.id, orphan, r);
      OnRecord(ShopAfter(shop, existing, orphan, phone, fate), RecordAfter(existing.id, orphan, fate, x), o)
  {
    if orphan == Some(x) { NonEmptyStays(shop, existing.id, x, r, o); }
  }

  /** A record with an order is never deleted. */
  lemma NonEmptyStays(shop: Shop, existing: string, orphan: string, r: Replies, o: Id)
    requires OnRecord(shop, orphan, o)
    ensures !FateOf(shop, existing, Some(orphan), r).Deleted?
  {
    assert shop[orphan].orders != {};
  }

  /** What the customer sees after the update: the links it had, but the one to the gone record, and the primary. */
  lemma SeenAfter(db: Db, c: Id, primary: string, gone: Option<string>, x: string)
    requires c in db.customers
    ensures x in Visible(DbAfter(db, c, primary, gone), c) <==> x == primary || (Linked(db, c, x) && gone != Some(x))
  {}

  /** An order in sight stays in sight when the local update goes through ... */
  lemma OrderStays(db: Db, shop: Shop, c: Id, email: string, matches: seq<Match>, r: Replies, x: string, o: Id)
    requires c in db.customers && matches != [] && TrueMatches(shop, matches) && Prepared(db, shop, c, Best(matches).id)
    requires x in Visible(db, c) && OnRecord(shop, x, o)
    requires !Reconciled(db, shop, c, email, matches, r).threw
    ensures var out := Reconciled(db, shop, c, email, matches, r); Reaches(out.db, out.shop, c, o)
  {
    var existing, row := Best(matches), db.customers[c];
    var k := BestHasMostOrders(matches);
    var orphan := OrphanOf(db, c, existing.id);
    var fate := FateOf(shop, existing.id, orphan, r);
    var primary, gone := PrimaryAfter(existing.id, fate), GoneRecord(existing.id, orphan, fate);
    OrdersMove(shop, existing, orphan, row.phone, r, x, o);
    ContactKeepsOrders(ShopAfter(shop, existing, orphan, row.phone, fate), primary, None, row.phone, r.contactUpdated);
    var y := RecordAfter(existing.id, orphan, fate, x);
    if orphan == Some(x) { NonEmptyStays(shop, existing.id, x, r, o); }
    SeenAfter(db, c, primary, gone, y);
    assert y in Visible(DbAfter(db, c, primary, gone), c);
  }

  /** ... and when it fails. */
  lemma OrderStaysOnFailure(db: Db, shop: Shop, c: Id, email: string, matches: seq<Match>, r: Replies, x: string, o: Id)
    requires UniqueColumns(db.customers) && c in db.customers && matches != [] && TrueMatches(shop, matches)
    requires Prepared(db, shop, c, Best(matches).id)
    requires x in Visible(db, c) && OnRecord(shop, x, o)
    requires Reconciled(db, shop, c, email, matches, r).threw
    ensures var out := Reconciled(db, shop, c, email, matches, r); Reaches(out.db, out.shop, c, o)
  {
    var existing, row := Best(matches), db.customers[c];
    var k := BestHasMostOrders(matches);
    var orphan := OrphanOf(db, c, existing.id);
    var fate := FateOf(shop, existing.id, orphan, r);
    OrdersMove(shop, existing, orphan, row.phone, r, x, o);
    var y := RecordAfter(existing.id, orphan, fate, x);
    if fate.MergedInto? && y != x {
      OwnIsNotElsewhere(db.customers, c, y);
      assert orphan == Some(x) && y == existing.id && o in shop[x].orders;
    }
    assert y in Visible(db, c);
  }

  lemma OwnIsNotElsewhere(cs: CustomerTable, c: Id, x: string)
    requires UniqueColumns(cs) && c in cs
    ensures cs[c].shopifyId == Some(x) ==> !TakenElsewhere(cs, c, x)
  {
    if cs[c].shopifyId == Some(x) {
      forall o | o in cs && cs[o].shopifyId == Some(x) ensures o == c { assert ShopifyIdDistinct(cs, o, c); }
    }
  }

  /** Every order in sight before is in sight after. */
  ghost predicate KeepsOrders(db: Db, shop: Shop, c: Id, out: Outcome) {
    forall o :: Reaches(db, shop, c, o) ==> Reaches(out.db, out.shop, c, o)
  }

  lemma PreparedKeepsOrders(db: Db, shop: Shop, c: Id, email: string, matches: seq<Match>, r: Replies)
    requires UniqueColumns(db.customers) && c in db.customers && TrueMatches(shop, matches)
    requires matches != [] ==> Prepared(db, shop, c, Best(matches).id)
    ensures KeepsOrders(db, shop, c, Reconciled(db, shop, c, email, matches, r))
  {
    var out := Reconciled(db, shop, c, email, matches, r);
    forall o | Reaches(db, shop, c, o) ensures Reaches(out.db, out.shop, c, o) {
      var x :| x in Visible(db, c) && OnRecord(shop, x, o);
      if matches == [] {
        if db.customers[c].shopifyId.Some? {
          ContactKeepsOrders(shop, db.customers[c].shopifyId.value, Some(email), None, r.contactUpdated);
        }
        assert OnRecord(out.shop, x, o);
      } else if out.threw {
        OrderStaysOnFailure(db, shop, c, email, matches, r, x, o);
      } else {
        OrderStays(db, shop, c, email, matches, r, x, o);
      }
    }
  }

  /**
   * The answer that loses orders when the caller is not prepared: no
   * merge, or a merge into a record that cannot become primary.
   */
  ghost function WorstReplies(db: Db, c: Id, existing: string): Replies {
    Replies(Accepted, if TakenElsewhere(db.customers, c, existing) then KeepsFirst else NotMerged, false)
  }

  lemma UnpreparedLoses(db: Db, shop: Shop, c: Id, email: string, matches: seq<Match>, o: Id)
    requires c in db.customers && matches != [] && TrueMatches(shop, matches) && OrdersApart(shop)
    requires var existing := Best(matches).id; var orphan := OrphanOf(db, c, existing);
      && orphan.Some? && OnRecord(shop, orphan.value, o)
      && !Linked(db, c, if TakenElsewhere(db.customers, c, existing) then existing else orphan.value)
    ensures Reaches(db, shop, c, o)
    ensures var out := Reconciled(db, shop, c, email, matches, WorstReplies(db, c, Best(matches).id));
      !Reaches(out.db, out.shop, c, o)
  {
    var existing, row := Best(matches), db.customers[c];
    var k := BestHasMostOrders(matches);
    var orphan := OrphanOf(db, c, existing.id);
    var r := WorstReplies(db, c, existing.id);
    assert orphan.value in Visible(db, c);
    assert shop[orphan.value].orders != {};
    var fate := FateOf(shop, existing.id, orphan, r);
    var out := Reconciled(db, shop, c, email, matches, r);
    assert forall x :: OnRecord(out.shop, x, o) && x != existing.id ==> OnRecord(shop, x, o);
    assert forall x :: OnRecord(shop, x, o) ==> x == orphan.value;
    forall x | OnRecord(out.shop, x, o) ensures x !in Visible(out.db, c) {
      if TakenElsewhere(db.customers, c, existing.id) {
        assert fate == MergedInto(existing.id);
        assert x == existing.id;
      } else {
        assert fate == LeftAlone;
        assert OnRecord(shop, x, o);
        SeenAfter(db, c, existing.id, None, x);
      }
    }
  }

  /** Whatever Shopify answers, no order history is lost if and only if the caller was prepared. */
  lemma NothingLostIff(db: Db, shop: Shop, c: Id, email: string, matches: seq<Match>)
    requires UniqueColumns(db.customers) && c in db.customers && matches != [] && TrueMatches(shop, matches)
    requires OrdersApart(shop)
    ensures (forall r :: KeepsOrders(db, shop, c, Reconciled(db, shop, c, email, matches, r))) <==>
      Prepared(db, shop, c, Best(matches).id)
  {
    if Prepared(db, shop, c, Best(matches).id) {
      forall r
        ensures KeepsOrders(db, shop, c, Reconciled(db, shop, c, email, matches, r))
      {
        PreparedKeepsOrders(db, shop, c, email, matches, r);
      }
    } else {
      var o :| o in shop[OrphanOf(db, c, Best(matches).id).value].orders;
      UnpreparedLoses(db, shop, c, email, matches, o);
      assert !KeepsOrders(db, shop, c, Reconciled(db, shop, c, email, matches, WorstReplies(db, c, Best(matches).id)));
    }
  }

  predicate Deletable(shop: Shop, x: string, r: Replies) {
    x in shop && shop[x].orders == {} && shop[x].appCreated && r.deletion.Accepted?
  }

  /**
   * A reconciliation that goes through also brings the old record's orders into sight, leaves a primary that exists,
   * and no link to a record it deleted or merged away; the phone is written only if there is no other record of the
   * app's making, or that one was deleted.
   */
  lemma ReconcileCompletes(db: Db, shop: Shop, c: Id, email: string, matches: seq<Match>, r: Replies)
    requires c in db.customers && matches != [] && TrueMatches(shop, matches)
    requires !Reconciled(db, shop, c, email, matches, r).threw
    ensures var out, existing := Reconciled(db, shop, c, email, matches, r), Best(matches);
      var orphan := OrphanOf(db, c, existing.id);
      && out.db.customers[c].shopifyId.Some? && out.db.customers[c].shopifyId.value in out.shop
      && (forall o :: OnRecord(shop, existing.id, o) ==> Reaches(out.db, out.shop, c, o))
      && (out.gone.Some? ==> out.gone.value !in out.shop && out.gone.value !in out.db.links)
      && (forall x :: x in shop && x !in out.shop ==> out.gone == Some(x))
      && (out.phoneUpdate <==>
           db.customers[c].phone.Some? && existing.phone.None? && (orphan.None? || Deletable(shop, orphan.value, r)))
  {
    var out, existing, row := Reconciled(db, shop, c, email, matches, r), Best(matches), db.customers[c];
    var k := BestHasMostOrders(matches);
    var orphan := OrphanOf(db, c, existing.id);
    var fate := FateOf(shop, existing.id, orphan, r);
    var primary, gone := PrimaryAfter(existing.id, fate), GoneRecord(existing.id, orphan, fate);
    var shop1 := ShopAfter(shop, existing, orphan, row.phone, fate);
    ContactKeepsOrders(shop1, primary, None, row.phone, r.contactUpdated);
    assert primary in shop1 && (gone.Some? ==> gone.value !in shop1);
    SeenAfter(db, c, primary, gone, primary);
    forall o | OnRecord(shop, existing.id, o) ensures Reaches(out.db, out.shop, c, o) {
      OrdersMove(shop, existing, orphan, row.phone, r, existing.id, o);
      assert OnRecord(out.shop, primary, o);
    }
  }

  /** A merge does not lose the phone: if only the app's record had one, the survivor has it. */
  lemma MergeKeepsPhone(db: Db, shop: Shop, c: Id, email: string, matches: seq<Match>, r: Replies)
    requires c in db.customers && db.customers[c].phone.Some? && matches != [] && TrueMatches(shop, matches)
    requires Best(matches).phone.None?
    requires FateOf(shop, Best(matches).id, OrphanOf(db, c, Best(matches).id), r).MergedInto?
    ensures var out, orphan := Reconciled(db, shop, c, email, matches, r), OrphanOf(db, c, Best(matches).id);
      var survivor := FateOf(shop, Best(matches).id, orphan, r).survivor;
      && orphan.Some? && survivor in {Best(matches).id, orphan.value} && survivor in out.shop
      && out.shop[survivor].phone == shop[orphan.value].phone
      && out.shop[survivor].orders == shop[Best(matches).id].orders + shop[orphan.value].orders
  {
    var k := BestHasMostOrders(matches);
  }

  /** The customer sees the gone record by a link and not as its primary. */
  predicate OnlyLinkTo(db: Db, d: Id, x: string, gone: Option<string>) {
    gone == Some(x) && Linked(db, d, x) && !(d in db.customers && db.customers[d].shopifyId == Some(x))
  }

  /** Other customers keep their primary and see what they saw, but for a link to the gone record. */
  lemma OthersSeeTheSame(db: Db, shop: Shop, c: Id, email: string, matches: seq<Match>, r: Replies, d: Id)
    requires c in db.customers && d != c
    ensures var out := Reconciled(db, shop, c, email, matches, r);
      && (d in out.db.customers <==> d in db.customers)
      && (d in db.customers ==> out.db.customers[d] == db.customers[d])
      && (forall x :: x in Visible(out.db, d) <==>
           x in Visible(db, d) && !(!out.threw && OnlyLinkTo(db, d, x, out.gone)))
  {}

  /** Reconciliation keeps the unique columns, the merge forest and the references. */
  lemma ReconcileKeepsValid(db: Db, shop: Shop, c: Id, email: string, matches: seq<Match>, r: Replies)
    requires Valid(db) && c in db.customers
    ensures Valid(Reconciled(db, shop, c, email, matches, r).db)
  {
    ReconcilingIsARun(db, shop, c, email, matches, r);
    RunKeepsValid(db, ReconcilingSteps(db, shop, c, email, matches, r));
  }

  // ---------------------------------------------------------------- linking what a verified identifier finds

  function AllLinked(links: map<string, Id>, matches: seq<Match>, c: Id): map<string, Id> {
    if matches == [] then links
    else LinkAdded(AllLinked(links, matches[..|matches| - 1], c), matches[|matches| - 1].id, c)
  }

  /** Records found are linked unless someone holds them; no link ever changes hands. */
  lemma {:induction false} LinksOnlyGrow(links: map<string, Id>, matches: seq<Match>, c: Id)
    ensures var links' := AllLinked(links, matches, c);
      && (forall x :: x in links ==> x in links' && links'[x] == links[x])
      && (forall x :: x in links' && x !in links ==>
           links'[x] == c && exists i :: 0 <= i < |matches| && matches[i].id == x)
      && (forall i :: 0 <= i < |matches| ==> matches[i].id in links')
  {
    if matches != [] {
      var n := |matches| - 1;
      LinksOnlyGrow(links, matches[..n], c);
      assert forall i :: 0 <= i < n ==> matches[..n][i] == matches[i];
    }
  }

  /** The primary is set only where there was none, to the best match, if no other customer has it. */
  ghost function PrimarySet(cs: CustomerTable, c: Id, matches: seq<Match>): CustomerTable
    requires c in cs
  {
    if matches != [] && !TakenElsewhere(cs, c, Best(matches).id) && cs[c].shopifyId.None?
    then WithShopifyId(cs, c, Best(matches).id) else cs
  }

  /** `linkShopifyRecords`. */
  ghost function RecordsLinked(db: Db, c: Id, matches: seq<Match>): Db
    requires c in db.customers
  {
    db.(links := AllLinked(db.links, matches, c), customers := PrimarySet(db.customers, c, matches))
  }

  lemma LinkingKeepsValid(db: Db, c: Id, matches: seq<Match>)
    requires Valid(db) && c in db.customers
    ensures Valid(RecordsLinked(db, c, matches))
  {
    LinkingIsARun(db, c, matches);
    RunKeepsValid(db, LinkingSteps(c, matches));
  }

  /** The writes of `linkShopifyRecords`: a link for each record found, then the empty primary. */
  function LinkSteps(c: Id, matches: seq<Match>): seq<Step> {
    seq(|matches|, i requires 0 <= i < |matches| => LinkRecord(c, matches[i].id))
  }

  function LinkingSteps(c: Id, matches: seq<Match>): seq<Step> {
    LinkSteps(c, matches) + if matches == [] then [] else [FillPrimary(c, Best(matches).id)]
  }

  lemma OneStep(db: Db, step: Step)
    ensures Run(db, [step]) == Apply(db, step)
  {
    assert Run(db, [step]) == Run(Apply(db, step), []);
  }

  lemma {:induction false} LinksAreARun(db: Db, c: Id, matches: seq<Match>)
    requires c in db.customers
    ensures Run(db, LinkSteps(c, matches)) == db.(links := AllLinked(db.links, matches, c))
  {
    if matches != [] {
      var n := |matches| - 1;
      LinksAreARun(db, c, matches[..n]);
      assert LinkSteps(c, matches) == LinkSteps(c, matches[..n]) + [LinkRecord(c, matches[n].id)];
      RunSplits(db, LinkSteps(c, matches[..n]), [LinkRecord(c, matches[n].id)]);
      OneStep(db.(links := AllLinked(db.links, matches[..n], c)), LinkRecord(c, matches[n].id));
    }
  }

  /** Linking is a run of the steps of module Login, and so keeps what every run of them keeps. */
  lemma LinkingIsARun(db: Db, c: Id, matches: seq<Match>)
    requires c in db.customers
    ensures Run(db, LinkingSteps(c, matches)) == RecordsLinked(db, c, matches)
  {
    LinksAreARun(db, c, matches);
    if matches == [] {
      assert LinkingSteps(c, matches) == [];
    } else {
      var fill := FillPrimary(c, Best(matches).id);
      RunSplits(db, LinkSteps(c, matches), [fill]);
      OneStep(db.(links := AllLinked(db.links, matches, c)), fill);
    }
  }

  /** The local writes of a reconciliation, up to the one that fails. */
  ghost function ReconcilingSteps(db: Db, shop: Shop, c: Id, email: string, matches: seq<Match>, r: Replies): seq<Step>
    requires c in db.customers
  {
    var out := Reconciled(db, shop, c, email, matches, r);
    if matches == [] || out.threw then []
    else
      var primary := PrimaryAfter(Best(matches).id,
        FateOf(shop, Best(matches).id, OrphanOf(db, c, Best(matches).id), r));
      AdoptingSteps(c, primary, out.gone)
  }

  function AdoptingSteps(c: Id, primary: string, gone: Option<string>): seq<Step> {
    [ReplacePrimary(c, primary)] + (if gone.Some? then [UnlinkRecord(gone.value)] else []) + [LinkRecord(c, primary)]
  }

  lemma AdoptingIsARun(db: Db, c: Id, primary: string, gone: Option<string>)
    requires c in db.customers && !TakenElsewhere(db.customers, c, primary)
    ensures Run(db, AdoptingSteps(c, primary, gone)) == DbAfter(db, c, primary, gone)
  {
    var replace, link := ReplacePrimary(c, primary), LinkRecord(c, primary);
    var unlink := if gone.Some? then [UnlinkRecord(gone.value)] else [];
    var db1 := Apply(db, replace);
    var db2 := db1.(links := Unlinked(db1.links, gone));
    RunSplits(db, [replace] + unlink, [link]);
    RunSplits(db, [replace], unlink);
    OneStep(db, replace);
    if gone.Some? { OneStep(db1, UnlinkRecord(gone.value)); }
    assert Run(db1, unlink) == db2;
    OneStep(db2, link);
  }

  lemma ReconcilingIsARun(db: Db, shop: Shop, c: Id, email: string, matches: seq<Match>, r: Replies)
    requires c in db.customers
    ensures Run(db, ReconcilingSteps(db, shop, c, email, matches, r)) == Reconciled(db, shop, c, email, matches, r).db
  {
    var out := Reconciled(db, shop, c, email, matches, r);
    if matches != [] && !out.threw {
      var fate := FateOf(shop, Best(matches).id, OrphanOf(db, c, Best(matches).id), r);
      AdoptingIsARun(db, c, PrimaryAfter(Best(matches).id, fate), out.gone);
    }
  }

  /** Linking shows the customer every record found that nobody else had linked, and takes nothing from anyone. */
  lemma LinkingShowsRecords(db: Db, c: Id, matches: seq<Match>)
    requires c in db.customers
    ensures var db' := RecordsLinked(db, c, matches);
      && (forall x :: x in Visible(db, c) ==> x in Visible(db', c))
      && (forall i :: 0 <= i < |matches| && !LinkedElsewhere(db, c, matches[i].id) ==> matches[i].id in Visible(db', c))
      && (forall d :: d != c ==> Visible(db', d) == Visible(db, d))
  {
    LinksOnlyGrow(db.links, matches, c);
    var db' := RecordsLinked(db, c, matches);
    forall d | d != c ensures Visible(db', d) == Visible(db, d) {
      assert forall x :: Linked(db', d, x) <==> Linked(db, d, x);
    }
    forall i | 0 <= i < |matches| && !LinkedElsewhere(db, c, matches[i].id) ensures matches[i].id in Visible(db', c) {
      assert Linked(db', c, matches[i].id);
    }
  }

  // ---------------------------------------------------------------- the service

  /** The Shopify half of the identity service, with Shopify itself as a table. */
  class ShopifyIdentityService {
    var customers: CustomerTable
    var identities: map<Identifier, Id>
    var links: map<string, Id>
    var next: Id
    var shop: Shop

    ghost function Tables(): Db
      reads this
    {
      Db(customers, identities, links, next)
    }

    constructor (db: Db, shop: Shop)
      ensures Tables() == db && this.shop == shop
    {
      customers, identities, links, next := db.customers, db.identities, db.links, db.next;
      this.shop := shop;
    }

    method BestMatch(matches: seq<Match>) returns (best: Match)
      requires matches != []
      ensures best == Best(matches)
    {
      best := matches[0];
      for i := 1 to |matches|
        invariant best == Best(matches[..i])
      {
        assert matches[..i + 1][..i] == matches[..i];
        if matches[i].orderCount > best.orderCount { best := matches[i]; }
      }
      assert matches[..|matches|] == matches;
    }

    method LinkShopifyRecords(c: Id, matches: seq<Match>) returns (linkedCount: nat)
      requires c in customers
      modifies `customers, `links
      ensures Tables() == RecordsLinked(old(Tables()), c, matches)
      ensures linkedCount == |links| - |old(links)|
    {
      linkedCount := 0;
      if matches == [] { return; }
      links, linkedCount := CreateLinks(links, c, matches);
      SetPrimaryShopifyCustomer(c, matches);
    }

    /** Only an empty primary is set, as the conditional update says. */
    method SetPrimaryShopifyCustomer(c: Id, matches: seq<Match>)
      requires c in customers
      modifies `customers
      ensures customers == PrimarySet(old(customers), c, matches)
    {
      if matches == [] { return; }
      var primary := BestMatch(matches);
      if o :| o in customers && o != c && customers[o].shopifyId == Some(primary.id) { return; }
      if customers[c].shopifyId.None? { customers := WithShopifyId(customers, c, primary.id); }
    }

    /** `createMany` with `skipDuplicates`. */
    method CreateLinks(links0: map<string, Id>, c: Id, matches: seq<Match>) returns (links: map<string, Id>, count: nat)
      ensures links == AllLinked(links0, matches, c) && count == |links| - |links0|
    {
      links, count := links0, 0;
      for i := 0 to |matches|
        invariant links == AllLinked(links0, matches[..i], c) && count == |links| - |links0|
      {
        assert matches[..i + 1][..i] == matches[..i];
        if matches[i].id !in links { links, count := links[matches[i].id := c], count + 1; }
      }
      assert matches[..|matches|] == matches;
    }

    method DeleteCustomerIfEmpty(x: string, reply: DeletionReply) returns (outcome: Deletion)
      modifies `shop
      ensures outcome == DeletionOf(old(shop), x, reply)
      ensures shop == if outcome.Gone? then old(shop) - {x} else old(shop)
    {
      if reply.Unreachable? { return Threw; }
      if x !in shop { return Kept("not found"); }
      if |shop[x].orders| > 0 { return Kept(HAS_ORDERS); }
      if !shop[x].appCreated { return Kept("not app-created"); }
      if reply.Refused? { return Kept(reply.reason); }
      shop := shop - {x};
      outcome := Gone;
    }

    method MergeCustomers(keep: string, from: string, keepPhoneFrom: Option<string>, reply: MergeReply)
      returns (survivor: Option<string>)
      modifies `shop
      ensures survivor == Survivor(old(shop), keep, from, reply)
      ensures shop == if survivor.Some? && keep != from
        then MergedShop(old(shop), keep, from, survivor.value, keepPhoneFrom) else old(shop)
    {
      if keep == from { return Some(keep); }
      if keep !in shop || from !in shop || reply == NotMerged { return None; }
      survivor := Some(if reply == KeepsFirst then keep else from);
      var record := shop[survivor.value].(orders := shop[keep].orders + shop[from].orders);
      if keepPhoneFrom.Some? && keepPhoneFrom.value in shop {
        record := record.(phone := shop[keepPhoneFrom.value].phone);
      }
      shop := (shop - {keep, from})[survivor.value := record];
    }

    method UpdateContact(x: string, email: Option<string>, phone: Option<string>, success: bool)
      modifies `shop
      ensures shop == ContactSet(old(shop), x, email, phone, success)
    {
      if !success || x !in shop { return; }
      var record := shop[x];
      if email.Some? { record := record.(email := email); }
      if phone.Some? { record := record.(phone := phone); }
      shop := shop[x := record];
    }

    /** Shopify's side first: which record survives is only known after a merge. */
    method SettleOrphan(existing: Match, orphan: Option<string>, phone: Option<string>, r: Replies) returns (fate: Fate)
      requires existing.id in shop && orphan != Some(existing.id)
      modifies `shop
      ensures fate == FateOf(old(shop), existing.id, orphan, r)
      ensures shop == ShopAfter(old(shop), existing, orphan, phone, fate)
    {
      if orphan.None? { return NoOrphan; }
      var deletion := DeleteCustomerIfEmpty(orphan.value, r.deletion);
      if deletion.Threw? { return Aborted; }
      if deletion.Gone? { return Deleted; }
      fate := LeftAlone;
      if deletion.reason == HAS_ORDERS {
        // The phone is on the app's record only; without this a merge would lose it.
        var survivor := MergeCustomers(existing.id, orphan.value,
          if phone.Some? && existing.phone.None? then orphan else None, r.merge);
        if survivor.Some? { fate := MergedInto(survivor.value); }
      }
    }

    /** The local side, with the orphan's fate known. */
    method AdoptPrimary(c: Id, primary: string, gone: Option<string>) returns (clash: bool)
      requires c in customers
      modifies `customers, `links
      ensures clash <==> TakenElsewhere(old(customers), c, primary)
      ensures Tables() == if clash then old(Tables()) else DbAfter(old(Tables()), c, primary, gone)
    {
      if o :| o in customers && o != c && customers[o].shopifyId == Some(primary) { return true; }
      customers := WithShopifyId(customers, c, primary);
      if gone.Some? { links := links - {gone.value}; }
      if primary !in links { links := links[primary := c]; }
      clash := false;
    }

    /** An error stands for a call to Shopify, or the local update, that throws. */
    method ReconcileAfterEmailVerified(c: Id, email: string, matches: seq<Match>, r: Replies)
      returns (result: Result<Fate>)
      requires c in customers && TrueMatches(shop, matches)
      modifies this
      ensures var out := Reconciled(old(Tables()), old(shop), c, email, matches, r);
        Tables() == out.db && shop == out.shop && (result.Err? <==> out.threw)
      ensures result.Ok? ==> result.value == FateFor(old(Tables()), old(shop), c, matches, r)
      ensures result.Err? ==> result.error == Internal
    {
      var customer := customers[c];
      if matches == [] {
        if customer.shopifyId.Some? { UpdateContact(customer.shopifyId.value, Some(email), None, r.contactUpdated); }
        return Ok(NoOrphan);
      }
      var existing := BestMatch(matches);
      ghost var k := BestHasMostOrders(matches);
      var orphan := if customer.shopifyId.Some? && customer.shopifyId.value != existing.id then customer.shopifyId
        else None;
      var fate := SettleOrphan(existing, orphan, customer.phone, r);
      if fate.Aborted? { return Err(Internal); }
      var primary := if fate.MergedInto? then fate.survivor else existing.id;
      var gone :=
        if fate.Deleted? then orphan
        else if fate.MergedInto? then (if Some(primary) == orphan then Some(existing.id) else orphan)
        else None;
      var clash := AdoptPrimary(c, primary, gone);
      if clash { return Err(Internal); }
      if customer.phone.Some? && existing.phone.None? && !fate.MergedInto? && (orphan.None? || fate.Deleted?) {
        UpdateContact(primary, None, customer.phone, r.contactUpdated);
      }
      result := Ok(fate);
    }
  }
}

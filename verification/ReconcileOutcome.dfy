/**
 * Every outcome of a reconciliation, record by record and column by column: which requests end how, what Shopify then
 * holds, and what the local tables hold. Case by case, in terms of the request and Shopify's answers alone.
 */
module ReconcileOutcome {
  import opened Schema
  import opened Customers
  import opened Reconcile

  /** Only customer `c`'s Shopify id changes, and only the link of `gone` and one for `primary`, if missing. */
  ghost predicate Adopts(db: Db, c: Id, primary: string, gone: Option<string>, db': Db)
    requires c in db.customers
  {
    var row := db.customers[c];
    && db'.customers == db.customers[c := Customer(row.phone, row.email, row.status, Some(primary), row.mergedInto)]
    && db'.identities == db.identities && db'.next == db.next
    && (forall x :: x in db'.links <==> x == primary || (x in db.links && gone != Some(x)))
    && (forall x :: x in db'.links ==>
         db'.links[x] == if x in db.links && gone != Some(x) then db.links[x] else c)
  }

  /** The primary of another customer is refused by the unique column, after Shopify was changed. */
  ghost predicate Settles(db: Db, c: Id, primary: string, gone: Option<string>, out: Outcome)
    requires c in db.customers
  {
    && out.gone == gone
    && (out.threw <==> TakenElsewhere(db.customers, c, primary))
    && (if out.threw then out.db == db else Adopts(db, c, primary, gone, out.db))
  }

  /** The phone reaches the record `x` and nothing else changes; a refused update changes nothing. */
  predicate PhoneReaches(shop: Shop, x: string, phone: Option<string>, accepted: bool, shop': Shop)
    requires x in shop
  {
    shop' == if accepted then shop[x := Record(shop[x].email, phone, shop[x].orders, shop[x].appCreated)] else shop
  }

  /** The phone is missing on the record the e-mail led to. */
  predicate LacksPhone(c: Customer, existing: Match) {
    c.phone.Some? && existing.phone.None?
  }

  /** Without a match the e-mail reaches the customer's own record, if there is one, and nothing else changes. */
  lemma EmailReachesOwnRecord(db: Db, shop: Shop, c: Id, email: string, r: Replies)
    requires c in db.customers
    ensures var out, x := Reconciled(db, shop, c, email, [], r), db.customers[c].shopifyId;
      && out.db == db && !out.threw && out.gone == None && !out.phoneUpdate
      && out.shop == if x.Some? && x.value in shop && r.contactUpdated
        then shop[x.value := Record(Some(email), shop[x.value].phone, shop[x.value].orders, shop[x.value].appCreated)]
        else shop
    ensures FateFor(db, shop, c, [], r) == NoOrphan
  {}

  /** The record found is the primary already, or the customer had none: the phone is added to it. */
  lemma PrimaryIsFound(db: Db, shop: Shop, c: Id, email: string, matches: seq<Match>, r: Replies)
    requires c in db.customers && matches != [] && TrueMatches(shop, matches)
    requires db.customers[c].shopifyId in {None, Some(Best(matches).id)}
    ensures var out, x := Reconciled(db, shop, c, email, matches, r), Best(matches).id;
      && x in shop && Settles(db, c, x, None, out)
      && (out.phoneUpdate <==> !out.threw && LacksPhone(db.customers[c], Best(matches)))
      && PhoneReaches(shop, x, db.customers[c].phone, out.phoneUpdate && r.contactUpdated, out.shop)
    ensures FateFor(db, shop, c, matches, r) == NoOrphan
  {
    var k := BestHasMostOrders(matches);
  }

  /** The customer's record is another one, and the deletion of it gets no answer: nothing is changed anywhere. */
  lemma UnreachableAborts(db: Db, shop: Shop, c: Id, email: string, matches: seq<Match>, r: Replies)
    requires c in db.customers && matches != [] && r.deletion.Unreachable?
    requires db.customers[c].shopifyId !in {None, Some(Best(matches).id)}
    ensures Reconciled(db, shop, c, email, matches, r) == Outcome(db, shop, true, None, false)
  {}

  /** It was the app's own and without orders: Shopify deletes it, and the phone moves to the record found. */
  lemma EmptyRecordIsDeleted(db: Db, shop: Shop, c: Id, email: string, matches: seq<Match>, r: Replies)
    requires c in db.customers && matches != [] && TrueMatches(shop, matches)
    requires db.customers[c].shopifyId !in {None, Some(Best(matches).id)}
    requires Deletable(shop, db.customers[c].shopifyId.value, r)
    ensures var out, x, former :=
      Reconciled(db, shop, c, email, matches, r), Best(matches).id, db.customers[c].shopifyId;
      && x in shop - {former.value} && Settles(db, c, x, former, out)
      && (out.phoneUpdate <==> !out.threw && LacksPhone(db.customers[c], Best(matches)))
      && PhoneReaches(shop - {former.value}, x, db.customers[c].phone, out.phoneUpdate && r.contactUpdated, out.shop)
    ensures FateFor(db, shop, c, matches, r) == Deleted
  {
    assert db.customers[c].shopifyId == Some(db.customers[c].shopifyId.value);
    var k := BestHasMostOrders(matches);
  }

  /** The old record stands in the way of a deletion by its orders, as found out or as answered. */
  predicate HasOrders(shop: Shop, x: string, reply: DeletionReply) {
    && !reply.Unreachable? && x in shop
    && (shop[x].orders != {} || (shop[x].appCreated && reply == Refused(HAS_ORDERS)))
  }

  /**
   * It has orders, and Shopify merges: the record it keeps has the orders of both and its own e-mail; its phone is the
   * old record's if only that one had the customer's phone, else its own. The other record is gone.
   */
  lemma RecordsAreMerged(db: Db, shop: Shop, c: Id, email: string, matches: seq<Match>, r: Replies)
    requires c in db.customers && matches != [] && TrueMatches(shop, matches) && !r.merge.NotMerged?
    requires db.customers[c].shopifyId !in {None, Some(Best(matches).id)}
    requires HasOrders(shop, db.customers[c].shopifyId.value, r.deletion)
    ensures var out, x, y :=
      Reconciled(db, shop, c, email, matches, r), Best(matches).id, db.customers[c].shopifyId.value;
      var (kept, gone) := if r.merge.KeepsFirst? then (x, y) else (y, x);
      && x in shop && Settles(db, c, kept, Some(gone), out) && !out.phoneUpdate
      && var phone := if LacksPhone(db.customers[c], Best(matches)) then shop[y].phone else shop[kept].phone;
      out.shop == (shop - {gone})[
        kept := Record(shop[kept].email, phone, shop[x].orders + shop[y].orders, shop[kept].appCreated)]
    ensures FateFor(db, shop, c, matches, r) ==
      MergedInto(if r.merge.KeepsFirst? then Best(matches).id else db.customers[c].shopifyId.value)
  {
    var k := BestHasMostOrders(matches);
    var x, y := Best(matches).id, db.customers[c].shopifyId.value;
    DeletionAnswers(shop, y, r.deletion);
    assert FateOf(shop, x, Some(y), r) == MergedInto(if r.merge.KeepsFirst? then x else y);
  }

  /** Otherwise it stays: it is unknown to Shopify, not the app's own, refused for another reason, or not merged. */
  lemma OldRecordStays(db: Db, shop: Shop, c: Id, email: string, matches: seq<Match>, r: Replies)
    requires c in db.customers && matches != [] && TrueMatches(shop, matches) && !r.deletion.Unreachable?
    requires db.customers[c].shopifyId !in {None, Some(Best(matches).id)}
    requires var y := db.customers[c].shopifyId.value;
      !Deletable(shop, y, r) && (HasOrders(shop, y, r.deletion) ==> r.merge.NotMerged?)
    ensures var out := Reconciled(db, shop, c, email, matches, r);
      Settles(db, c, Best(matches).id, None, out) && !out.phoneUpdate && out.shop == shop
    ensures FateFor(db, shop, c, matches, r) == LeftAlone
  {
    var k := BestHasMostOrders(matches);
    var y := db.customers[c].shopifyId.value;
    DeletionAnswers(shop, y, r.deletion);
    assert FateOf(shop, Best(matches).id, Some(y), r) == LeftAlone;
  }

  /** A single deletion: given up only for an existing record of the app's own without orders, else with the reason. */
  lemma DeletionAnswers(shop: Shop, x: string, reply: DeletionReply)
    ensures var d := DeletionOf(shop, x, reply);
      && (d == Threw <==> reply == Unreachable)
      && (d == Gone <==> x in shop && shop[x].orders == {} && shop[x].appCreated && reply == Accepted)
      && (x !in shop && d != Threw ==> d == Kept("not found"))
      && (x in shop && shop[x].orders != {} && d != Threw ==> d == Kept("has orders"))
      && (x in shop && shop[x].orders == {} && !shop[x].appCreated && d != Threw ==> d == Kept("not app-created"))
      && (x in shop && shop[x].orders == {} && shop[x].appCreated && reply.Refused? ==> d == Kept(reply.reason))
  {
    if x in shop && shop[x].orders != {} { assert |shop[x].orders| > 0; }
  }
}

/**
 * Merging two customer records: every table that names the source is rewritten in one transaction,
 * and the source is kept, marked as merged.
 */
module CustomerMerge {
  import opened Schema
  import opened OwnedRows
  import opened Customers
  import Addresses
  import Carts
  import RecentlyViewed
  import RefreshTokens

  datatype State = State(
    db: Db,
    addresses: Addresses.Book,
    wishlist: Table<Time>,
    viewed: RecentlyViewed.Views,
    devices: map<string, Id>,
    otps: map<Id, Option<Id>>,
    carts: Carts.Tables,
    tokens: seq<RefreshTokens.Token>)

  /** Counts reported to the admin; `skipped` are rows the target already had. */
  datatype Plan = Plan(
    identities: nat, links: nat, addresses: nat, wishlist: nat, viewed: nat, devices: nat, cartItems: nat,
    skippedAddresses: nat, skippedWishlist: nat, skippedViewed: nat, revokedSessions: nat)

  ghost predicate StateValid(st: State) {
    && Valid(st.db)
    && Addresses.Consistent(st.addresses)
    && Unique(st.wishlist)
    && Unique(st.viewed)
    && Carts.Valid(st.carts)
  }

  function OwnedBy<K>(owners: map<K, Id>, c: Id): set<K> {
    set k | k in owners && owners[k] == c
  }

  function MovedOtps(otps: map<Id, Option<Id>>, s: Id, t: Id): map<Id, Option<Id>> {
    map k | k in otps :: if otps[k] == Some(s) then Some(t) else otps[k]
  }

  /** The dry run: source rows per table, without looking for duplicates. */
  function PlanOf(st: State, s: Id): Plan {
    Plan(
      |OwnedBy(st.db.identities, s)|, |OwnedBy(st.db.links, s)|, |RowsOf(st.addresses, s)|, |RowsOf(st.wishlist, s)|,
      |RowsOf(st.viewed, s)|, |OwnedBy(st.devices, s)|, |Carts.LinesFor(st.carts, s)|, 0, 0, 0,
        |RefreshTokens.LiveOf(st.tokens, s)|)
  }

  /** The tables after the transaction. */
  ghost predicate Executed(st: State, s: Id, t: Id, now: Time, st': State)
    requires s in st.db.customers && t in st.db.customers
  {
    && st'.db == MergedDb(st.db, s, t)
    && st'.addresses == MergeRows(st.addresses, s, t, Addresses.Arriving(RowsOf(st.addresses, t) != {}))
    && st'.wishlist == MergeRows(st.wishlist, s, t, Same)
    && st'.viewed == MergeRows(st.viewed, s, t, Same)
    && st'.devices == Reowned(st.devices, s, t)
    && st'.otps == MovedOtps(st.otps, s, t)
    && Carts.CartsMerged(st.carts, s, t, st'.carts) && Carts.PricesCarryOver(st.carts, s, t, st'.carts)
    && st'.tokens == RefreshTokens.RevokeWhere(st.tokens, RefreshTokens.OfCustomer(s), now)
  }

  function Same(at: Time): Time { at }

  /** What a report calls skipped is what is missing from the table afterwards. */
  predicate CountsSkipped(st: State, st': State, result: Plan) {
    && result.skippedAddresses == |st.addresses| - |st'.addresses|
    && result.skippedWishlist == |st.wishlist| - |st'.wishlist|
    && result.skippedViewed == |st.viewed| - |st'.viewed|
  }

  /** The real run reports what the dry run announced, the rows announced splitting into moved and skipped. */
  ghost predicate Fulfils(result: Plan, plan: Plan) {
    && result.identities == plan.identities
    && result.links == plan.links
    && result.addresses + result.skippedAddresses == plan.addresses
    && result.wishlist + result.skippedWishlist == plan.wishlist
    && result.viewed + result.skippedViewed == plan.viewed
    && result.devices == plan.devices
    && result.cartItems == plan.cartItems
    && result.revokedSessions == plan.revokedSessions
  }

  // ---------------------------------------------------------------- what a merge guarantees

  /** Every unique constraint, the merge forest, one default address and one line per variant survive. */
  lemma ExecuteKeepsValid(st: State, s: Id, t: Id, now: Time, st': State)
    requires StateValid(st) && MergeCheck(st.db, s, t).Ok? && Executed(st, s, t, now, st')
    ensures StateValid(st')
  {
    MergeKeepsValid(st.db, s, t);
    Addresses.MergeKeepsInvariant(st.addresses, s, t);
    MergeKeepsUnique(st.wishlist, s, t, Same);
    MergeKeepsUnique(st.viewed, s, t, Same);
  }

  /**
   * Addresses, wishlist and recently viewed: the target gets both key
   * sets, the source none, and no other row changes.
   */
  lemma CollectionsUnite(st: State, s: Id, t: Id, now: Time, st': State)
    requires s in st.db.customers && t in st.db.customers && s != t && Executed(st, s, t, now, st')
    ensures KeysOf(st'.addresses, t) == KeysOf(st.addresses, s) + KeysOf(st.addresses, t)
    ensures RowsOf(st'.addresses, s) == {}
    ensures KeysOf(st'.wishlist, t) == KeysOf(st.wishlist, s) + KeysOf(st.wishlist, t) && RowsOf(st'.wishlist, s) == {}
    ensures KeysOf(st'.viewed, t) == KeysOf(st.viewed, s) + KeysOf(st.viewed, t) && RowsOf(st'.viewed, s) == {}
    ensures forall c :: c != s && c != t ==>
      && RowsOf(st'.addresses, c) == RowsOf(st.addresses, c)
      && RowsOf(st'.wishlist, c) == RowsOf(st.wishlist, c)
      && RowsOf(st'.viewed, c) == RowsOf(st.viewed, c)
    ensures forall i :: i in st.addresses && st.addresses[i].owner != s ==>
      i in st'.addresses && st'.addresses[i] == st.addresses[i]
  {
    MergeUnitesKeys(st.addresses, s, t, Addresses.Arriving(RowsOf(st.addresses, t) != {}));
    MergeUnitesKeys(st.wishlist, s, t, Same);
    MergeUnitesKeys(st.viewed, s, t, Same);
  }

  /** Sessions: the source's end, nobody else's change. */
  lemma SessionsEnd(st: State, s: Id, t: Id, now: Time, st': State)
    requires s in st.db.customers && t in st.db.customers && Executed(st, s, t, now, st')
    ensures RefreshTokens.LiveOf(st'.tokens, s) == {}
    ensures forall c :: c != s ==> RefreshTokens.LiveOf(st'.tokens, c) == RefreshTokens.LiveOf(st.tokens, c)
  {}

  /** The target ends up with everything both had, and the source with nothing but its own row. */
  lemma TargetInheritsEverything(st: State, s: Id, t: Id, now: Time, st': State)
    requires StateValid(st) && MergeCheck(st.db, s, t).Ok? && Executed(st, s, t, now, st')
    ensures Visible(st'.db, t) == Visible(st.db, s) + Visible(st.db, t)
    ensures KeysOf(st'.addresses, t) == KeysOf(st.addresses, s) + KeysOf(st.addresses, t)
    ensures RowsOf(st'.addresses, s) == {}
    ensures KeysOf(st'.wishlist, t) == KeysOf(st.wishlist, s) + KeysOf(st.wishlist, t) && RowsOf(st'.wishlist, s) == {}
    ensures KeysOf(st'.viewed, t) == KeysOf(st.viewed, s) + KeysOf(st.viewed, t) && RowsOf(st'.viewed, s) == {}
    ensures OwnedBy(st'.db.identities, t) == OwnedBy(st.db.identities, s) + OwnedBy(st.db.identities, t)
    ensures OwnedBy(st'.db.identities, s) == {}
    ensures OwnedBy(st'.devices, t) == OwnedBy(st.devices, s) + OwnedBy(st.devices, t) && OwnedBy(st'.devices, s) == {}
    ensures OwnedBy(st'.db.links, s) == {}
    ensures Carts.NoCart(st'.carts, s)
    ensures RefreshTokens.LiveOf(st'.tokens, s) == {}
    ensures RefreshTokens.LiveOf(st'.tokens, t) == RefreshTokens.LiveOf(st.tokens, t)
  {
    MergeUnitesVisible(st.db, s, t);
    CollectionsUnite(st, s, t, now, st');
    SessionsEnd(st, s, t, now, st');
    ReownedUnites(st.db.identities, s, t);
    ReownedUnites(st.devices, s, t);
    SourceHasNoLinks(st.db, s, t);
  }

  lemma ReownedUnites<K>(owners: map<K, Id>, s: Id, t: Id)
    requires s != t
    ensures OwnedBy(Reowned(owners, s, t), t) == OwnedBy(owners, s) + OwnedBy(owners, t)
    ensures OwnedBy(Reowned(owners, s, t), s) == {}
    ensures forall c :: c != s && c != t ==> OwnedBy(Reowned(owners, s, t), c) == OwnedBy(owners, c)
  {}

  lemma SourceHasNoLinks(db: Db, s: Id, t: Id)
    requires s in db.customers && s != t
    ensures OwnedBy(MergedLinks(db, s, t), s) == {}
  {
    forall x | x in MergedLinks(db, s, t) ensures MergedLinks(db, s, t)[x] != s { LinkAfterMerge(db, s, t, x); }
  }

  /** Customers outside the merge keep their rows, carts, devices and sessions untouched. */
  lemma BystandersUntouched(st: State, s: Id, t: Id, now: Time, st': State, c: Id)
    requires StateValid(st) && MergeCheck(st.db, s, t).Ok? && Executed(st, s, t, now, st') && c != s && c != t
    ensures c in st.db.customers ==> c in st'.db.customers && st'.db.customers[c] == st.db.customers[c]
    ensures RowsOf(st'.addresses, c) == RowsOf(st.addresses, c)
    ensures RowsOf(st'.wishlist, c) == RowsOf(st.wishlist, c) && RowsOf(st'.viewed, c) == RowsOf(st.viewed, c)
    ensures forall i :: i in RowsOf(st.addresses, c) ==> st'.addresses[i] == st.addresses[i]
    ensures OwnedBy(st'.db.identities, c) == OwnedBy(st.db.identities, c)
    ensures OwnedBy(st'.devices, c) == OwnedBy(st.devices, c)
    ensures Carts.SameCart(st.carts, st'.carts, c)
    ensures RefreshTokens.LiveOf(st'.tokens, c) == RefreshTokens.LiveOf(st.tokens, c)
  {
    CollectionsUnite(st, s, t, now, st');
    SessionsEnd(st, s, t, now, st');
    ReownedUnites(st.db.identities, s, t);
    ReownedUnites(st.devices, s, t);
  }

  // ---------------------------------------------------------------- the service

  class AdminCustomerMergeService {
    var db: Db
    var addresses: Addresses.Book
    var wishlist: Table<Time>
    var viewed: RecentlyViewed.Views
    var devices: map<string, Id>
    var otps: map<Id, Option<Id>>
    var carts: Carts.Tables
    var tokens: seq<RefreshTokens.Token>

    function Tables(): State reads this {
      State(db, addresses, wishlist, viewed, devices, otps, carts, tokens)
    }

    constructor (st: State)
      ensures Tables() == st
    {
      db, addresses, wishlist, viewed := st.db, st.addresses, st.wishlist, st.viewed;
      devices, otps, carts, tokens := st.devices, st.otps, st.carts, st.tokens;
    }

    method Merge(s: Id, t: Id, dryRun: bool, now: Time) returns (r: Result<Plan>)
      requires StateValid(Tables())
      modifies this
      ensures StateValid(Tables())
      ensures var check := MergeCheck(old(Tables()).db, s, t);
        if check.Err? then r == Err(check.error) && Tables() == old(Tables())
        else if dryRun then r == Ok(PlanOf(old(Tables()), s)) && Tables() == old(Tables())
        else
          && r.Ok? && Executed(old(Tables()), s, t, now, Tables())
          && Fulfils(r.value, PlanOf(old(Tables()), s)) && CountsSkipped(old(Tables()), Tables(), r.value)
    {
      if s == t { return Err(BadRequest); }
      if s !in db.customers { return Err(NotFound); }
      if t !in db.customers { return Err(NotFound); }
      if db.customers[s].status == Merged { return Err(BadRequest); }
      if db.customers[t].status == Merged { return Err(BadRequest); }
      if db.customers[t].status == Blocked { return Err(BadRequest); }
      if dryRun { return Ok(PlanOf(Tables(), s)); }
      var result := Execute(s, t, now);
      ExecuteKeepsValid(old(Tables()), s, t, now, Tables());
      r := Ok(result);
    }

    /** The transaction, step by step; it relies on the indexes only. */
    method Execute(s: Id, t: Id, now: Time) returns (result: Plan)
      requires s != t && s in db.customers && t in db.customers
      requires Unique(addresses) && Unique(wishlist) && Unique(viewed) && Carts.Valid(carts)
      modifies this
      ensures Executed(old(Tables()), s, t, now, Tables())
      ensures Fulfils(result, PlanOf(old(Tables()), s)) && CountsSkipped(old(Tables()), Tables(), result)
    {
      var identities, links := MoveRecords(s, t);
      var a, sa, w, sw, v, sv := MoveCollections(s, t);
      var movedDevices, cartItems, revoked := MoveRest(s, t, now);
      // 11: last, the source is marked.
      db := db.(customers := db.customers[s := db.customers[s].(status := Merged, mergedInto := Some(t))]);
      result := Plan(identities, links, a, w, v, movedDevices, cartItems, sa, sw, sv, revoked);
    }

    /** Steps 4 to 6: move what the target lacks, drop the rest. */
    method MoveCollections(s: Id, t: Id)
      returns (a: nat, skippedA: nat, w: nat, skippedW: nat, v: nat, skippedV: nat)
      requires s != t && Unique(addresses) && Unique(wishlist) && Unique(viewed)
      modifies `addresses, `wishlist, `viewed
      ensures addresses == MergeRows(old(addresses), s, t, Addresses.Arriving(RowsOf(old(addresses), t) != {}))
      ensures wishlist == MergeRows(old(wishlist), s, t, Same)
      ensures viewed == MergeRows(old(viewed), s, t, Same)
      ensures a + skippedA == |RowsOf(old(addresses), s)| && w + skippedW == |RowsOf(old(wishlist), s)|
      ensures v + skippedV == |RowsOf(old(viewed), s)|
      ensures skippedA == |old(addresses)| - |addresses| && skippedW == |old(wishlist)| - |wishlist|
      ensures skippedV == |old(viewed)| - |viewed|
    {
      var targetHasAddress := RowsOf(addresses, t) != {};
      addresses, a, skippedA := MoveWithDedupe(addresses, s, t, Addresses.Arriving(targetHasAddress));
      wishlist, w, skippedW := MoveWithDedupe(wishlist, s, t, Same);
      viewed, v, skippedV := MoveWithDedupe(viewed, s, t, Same);
    }

    /** Steps 7 to 10: devices and one-time codes change hands, carts are added up, the source's sessions end. */
    method MoveRest(s: Id, t: Id, now: Time) returns (movedDevices: nat, cartItems: nat, revoked: nat)
      requires s != t && Carts.Valid(carts)
      modifies `devices, `otps, `carts, `tokens
      ensures devices == Reowned(old(devices), s, t) && movedDevices == |OwnedBy(old(devices), s)|
      ensures otps == MovedOtps(old(otps), s, t)
      ensures Carts.CartsMerged(old(carts), s, t, carts) && Carts.PricesCarryOver(old(carts), s, t, carts)
      ensures cartItems == |Carts.LinesFor(old(carts), s)|
      ensures tokens == RefreshTokens.RevokeWhere(old(tokens), RefreshTokens.OfCustomer(s), now)
      ensures revoked == |RefreshTokens.LiveOf(old(tokens), s)|
    {
      movedDevices, revoked := |OwnedBy(devices, s)|, |RefreshTokens.LiveOf(tokens, s)|;
      devices := Reowned(devices, s, t);
      otps := MovedOtps(otps, s, t);
      carts, cartItems := Carts.MergeCarts(carts, s, t);
      tokens := RefreshTokens.RevokeWhere(tokens, RefreshTokens.OfCustomer(s), now);
    }

    /** Steps 1 to 3: the primary id is unique, so it leaves the source before it reaches the target. */
    method MoveRecords(s: Id, t: Id) returns (identities: nat, links: nat)
      requires s != t && s in db.customers && t in db.customers
      modifies `db
      ensures s in db.customers
      ensures identities == |OwnedBy(old(db).identities, s)| && links == |OwnedBy(old(db).links, s)|
      ensures db.(customers := db.customers[s := db.customers[s].(status := Merged, mergedInto := Some(t))]) ==
        MergedDb(old(db), s, t)
    {
      var source, target := db.customers[s], db.customers[t];
      var customers := db.customers;
      identities, links := |OwnedBy(db.identities, s)|, |OwnedBy(db.links, s)|;
      var owners := Reowned(db.links, s, t);
      if source.shopifyId.Some? {
        owners := owners[source.shopifyId.value := t];
        if target.shopifyId.None? {
          customers := customers[s := customers[s].(shopifyId := None)];
          customers := customers[t := customers[t].(shopifyId := source.shopifyId)];
        }
      }
      db := Db(customers, Reowned(db.identities, s, t), owners, db.next);
    }
  }
}

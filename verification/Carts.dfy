/**
 * Carts and their lines: one cart per customer, one line per (cart, variant). Adding a variant
 * again raises the quantity of its line, and merging two customers adds their carts up.
 */
module Carts {
  import opened Schema

  datatype Cart = Cart(customer: Id, discountCode: Option<string>)

  /** A cart line; `priceAmount`/`priceCurrency` are the price as it was when first added. */
  datatype Line = Line(cart: Id, variant: string, quantity: int, priceAmount: string, priceCurrency: string)

  type Lines = map<Id, Line>

  /** `next` bounds every id in use, so it is a new one. */
  datatype Tables = Tables(carts: map<Id, Cart>, lines: Lines, next: Id)

  ghost predicate UniqueLines(lines: Lines) {
    forall i, j ::
      i in lines && j in lines && lines[i].cart == lines[j].cart && lines[i].variant == lines[j].variant ==> i == j
  }

  ghost predicate Valid(d: Tables) {
    && (forall i, j :: i in d.carts && j in d.carts && d.carts[i].customer == d.carts[j].customer ==> i == j)
    && UniqueLines(d.lines)
    && (forall i :: i in d.lines ==> d.lines[i].cart in d.carts)
    && (forall i :: i in d.carts ==> i < d.next)
    && (forall i :: i in d.lines ==> i < d.next)
  }

  // ---------------------------------------------------------------- quantities

  function LinesOf(lines: Lines, cart: Id): set<Id> {
    set i | i in lines && lines[i].cart == cart
  }

  function LinesAt(lines: Lines, cart: Id, variant: string): set<Id> {
    set i | i in lines && lines[i].cart == cart && lines[i].variant == variant
  }

  /** The summed quantity of some lines. */
  ghost function Sum(lines: Lines, ids: set<Id>): int
    requires ids <= lines.Keys
  {
    if ids == {} then 0 else var i :| i in ids; lines[i].quantity + Sum(lines, ids - {i})
  }

  lemma {:induction false} SumRemove(lines: Lines, ids: set<Id>, j: Id)
    requires ids <= lines.Keys && j in ids
    ensures Sum(lines, ids) == lines[j].quantity + Sum(lines, ids - {j})
    decreases ids
  {
    var i :| i in ids && Sum(lines, ids) == lines[i].quantity + Sum(lines, ids - {i});
    if i != j {
      SumRemove(lines, ids - {i}, j);
      SumRemove(lines, ids - {j}, i);
      assert ids - {i} - {j} == ids - {j} - {i};
    }
  }

  lemma {:induction false} SumAgrees(lines: Lines, lines': Lines, ids: set<Id>)
    requires ids <= lines.Keys && ids <= lines'.Keys
    requires forall i :: i in ids ==> lines'[i].quantity == lines[i].quantity
    ensures Sum(lines', ids) == Sum(lines, ids)
    decreases ids
  {
    if ids != {} {
      var i :| i in ids;
      SumRemove(lines, ids, i);
      SumRemove(lines', ids, i);
      SumAgrees(lines, lines', ids - {i});
    }
  }

  // ---------------------------------------------------------------- the upsert of one line

  /** Upsert on (cart, variant): `id` is the line found there, or a new id. */
  function Placed(lines: Lines, id: Id, line: Line): Lines {
    if id in lines then lines[id := lines[id].(quantity := lines[id].quantity + line.quantity)] else lines[id := line]
  }

  predicate Slot(lines: Lines, id: Id, line: Line) {
    if id in lines then lines[id].cart == line.cart && lines[id].variant == line.variant
    else LinesAt(lines, line.cart, line.variant) == {}
  }

  /** `cartItem.upsert` with its choice of an id: the line found, or a new one. */
  ghost predicate Upserted(lines: Lines, next: Id, line: Line, lines': Lines, next': Id) {
    exists id :: UpsertedAt(lines, next, line, id, lines', next')
  }

  predicate UpsertedAt(lines: Lines, next: Id, line: Line, id: Id, lines': Lines, next': Id) {
    && Slot(lines, id, line) && (id in lines || id == next)
    && lines' == Placed(lines, id, line) && next' == if id in lines then next else next + 1
  }

  /** Placing a line adds its quantity to every selection of lines it belongs to, and to no other. */
  lemma PlacedSum(lines: Lines, id: Id, line: Line, ids: set<Id>)
    requires ids <= lines.Keys
    ensures id in ids ==> Sum(Placed(lines, id, line), ids) == Sum(lines, ids) + line.quantity
    ensures id !in ids ==> Sum(Placed(lines, id, line), ids) == Sum(lines, ids)
    ensures id !in lines ==> Sum(Placed(lines, id, line), ids + {id}) == Sum(lines, ids) + line.quantity
  {
    var placed := Placed(lines, id, line);
    SumAgrees(lines, placed, ids - {id});
    if id in ids {
      SumRemove(lines, ids, id);
      SumRemove(placed, ids, id);
    } else {
      assert ids - {id} == ids;
      SumRemove(placed, ids + {id}, id);
      assert ids + {id} - {id} == ids;
    }
  }

  lemma PlacedQuantities(lines: Lines, id: Id, line: Line, cart: Id, variant: string)
    requires Slot(lines, id, line)
    ensures var placed := Placed(lines, id, line);
      && Sum(placed, LinesOf(placed, cart)) ==
        Sum(lines, LinesOf(lines, cart)) + (if cart == line.cart then line.quantity else 0)
      && Sum(placed, LinesAt(placed, cart, variant)) ==
         Sum(lines, LinesAt(lines, cart, variant))
           + (if cart == line.cart && variant == line.variant then line.quantity else 0)
  {
    var placed := Placed(lines, id, line);
    var all, at := LinesOf(lines, cart), LinesAt(lines, cart, variant);
    PlacedSum(lines, id, line, all);
    PlacedSum(lines, id, line, at);
    if id in lines {
      assert LinesOf(placed, cart) == all && LinesAt(placed, cart, variant) == at;
    } else {
      assert LinesOf(placed, cart) == if cart == line.cart then all + {id} else all;
      assert LinesAt(placed, cart, variant) == if cart == line.cart && variant == line.variant then at + {id} else at;
    }
  }

  lemma PlacedKeepsUnique(lines: Lines, id: Id, line: Line)
    requires UniqueLines(lines) && Slot(lines, id, line)
    ensures UniqueLines(Placed(lines, id, line))
  {
    if id !in lines {
      forall i | i in lines ensures lines[i].cart != line.cart || lines[i].variant != line.variant {
        assert i !in LinesAt(lines, line.cart, line.variant);
      }
    }
  }

  // ---------------------------------------------------------------- what a customer has in the cart

  function LinesFor(d: Tables, c: Id): set<Id> {
    set i | i in d.lines && d.lines[i].cart in d.carts && d.carts[d.lines[i].cart].customer == c
  }

  function LinesForAt(d: Tables, c: Id, variant: string): set<Id> {
    set i | i in d.lines && d.lines[i].variant == variant && d.lines[i].cart in d.carts
      && d.carts[d.lines[i].cart].customer == c
  }

  ghost function ItemCount(d: Tables, c: Id): int {
    Sum(d.lines, LinesFor(d, c))
  }

  ghost function Quantity(d: Tables, c: Id, variant: string): int {
    Sum(d.lines, LinesForAt(d, c, variant))
  }

  ghost predicate NoCart(d: Tables, c: Id) {
    forall k :: k in d.carts ==> d.carts[k].customer != c
  }

  predicate OwnsCart(d: Tables, c: Id, k: Id) {
    k in d.carts && d.carts[k].customer == c
  }

  lemma CustomerLines(d: Tables, c: Id, k: Id, variant: string)
    requires Valid(d) && OwnsCart(d, c, k)
    ensures LinesFor(d, c) == LinesOf(d.lines, k) && LinesForAt(d, c, variant) == LinesAt(d.lines, k, variant)
  {}

  lemma NoCartNoLines(d: Tables, c: Id, variant: string)
    requires NoCart(d, c)
    ensures LinesFor(d, c) == {} && LinesForAt(d, c, variant) == {}
  {}

  // ---------------------------------------------------------------- merging the lines of two carts

  /** Lines have been added to the target cart, or their quantity raised; nothing else has changed. */
  ghost predicate OnlyGrew(lines: Lines, target: Id, lines': Lines) {
    && UniqueLines(lines')
    && (forall i :: i in lines && lines[i].cart != target ==> i in lines' && lines'[i] == lines[i])
    && (forall i :: i in lines && lines[i].cart == target ==>
         i in lines' && lines'[i] == lines[i].(quantity := lines'[i].quantity))
    && (forall i :: i in lines' && i !in lines ==> lines'[i].cart == target)
  }

  /** The quantities in the target cart are the old ones plus those of the lines in `done`. */
  ghost predicate Poured(lines: Lines, done: set<Id>, target: Id, lines': Lines)
    requires done <= lines.Keys
  {
    && Sum(lines', LinesOf(lines', target)) == Sum(lines, LinesOf(lines, target)) + Sum(lines, done)
    && (forall v :: PouredAt(lines, done, target, lines', v))
  }

  ghost predicate PouredAt(lines: Lines, done: set<Id>, target: Id, lines': Lines, v: string) {
    Sum(lines', LinesAt(lines', target, v)) ==
      Sum(lines, LinesAt(lines, target, v)) + Sum(lines, AtVariant(lines, done, v))
  }

  function AtVariant(lines: Lines, ids: set<Id>, variant: string): set<Id> {
    set i | i in ids && i in lines && lines[i].variant == variant
  }

  lemma PourStep(lines: Lines, done: set<Id>, target: Id, lines': Lines, i: Id, id: Id)
    requires done <= lines.Keys && Poured(lines, done, target, lines')
    requires i in lines && i !in done
    requires Slot(lines', id, lines[i].(cart := target))
    ensures Poured(lines, done + {i}, target, Placed(lines', id, lines[i].(cart := target)))
  {
    var line := lines[i].(cart := target);
    PlacedQuantities(lines', id, line, target, line.variant);
    SumRemove(lines, done + {i}, i);
    assert done + {i} - {i} == done;
    forall v ensures PouredAt(lines, done + {i}, target, Placed(lines', id, line), v) {
      assert PouredAt(lines, done, target, lines', v);
      PlacedQuantities(lines', id, line, target, v);
      VariantStep(lines, done, i, v);
    }
  }

  lemma VariantStep(lines: Lines, done: set<Id>, i: Id, v: string)
    requires done <= lines.Keys && i in lines && i !in done
    ensures Sum(lines, AtVariant(lines, done + {i}, v)) ==
      Sum(lines, AtVariant(lines, done, v)) + if v == lines[i].variant then lines[i].quantity else 0
  {
    if v == lines[i].variant {
      SumRemove(lines, AtVariant(lines, done + {i}, v), i);
      assert AtVariant(lines, done + {i}, v) - {i} == AtVariant(lines, done, v);
    } else {
      assert AtVariant(lines, done + {i}, v) == AtVariant(lines, done, v);
    }
  }

  function InCart(line: Line, cart: Id): Line {
    line.(cart := cart)
  }

  /** Every row is upserted into the target cart, one after another: the tables before and after each are in `ls`. */
  ghost predicate Pouring(lines: Lines, rows: seq<Id>, target: Id, ls: seq<Lines>, ns: seq<Id>)
    requires forall i :: i in rows ==> i in lines
  {
    && |ls| == |ns| == |rows| + 1 && ls[0] == lines
    && forall n :: 0 <= n < |rows| ==> Upserted(ls[n], ns[n], InCart(lines[rows[n]], target), ls[n + 1], ns[n + 1])
  }

  ghost predicate PouredInto(lines: Lines, next: Id, rows: seq<Id>, target: Id, lines': Lines, next': Id)
    requires forall i :: i in rows ==> i in lines
  {
    exists ls: seq<Lines>, ns: seq<Id> ::
      Pouring(lines, rows, target, ls, ns) && ns[0] == next && ls[|rows|] == lines' && ns[|rows|] == next'
  }

  /** What pouring comes to: the target cart's quantities grow by the rows', and nothing else changes. */
  lemma PouringAdds(lines: Lines, next: Id, rows: seq<Id>, target: Id, lines': Lines, next': Id)
    requires UniqueLines(lines) && (forall i :: i in lines ==> i < next)
    requires forall i :: i in rows ==> i in lines && lines[i].cart != target
    requires forall k, l :: 0 <= k < l < |rows| ==> rows[k] != rows[l]
    requires PouredInto(lines, next, rows, target, lines', next')
    ensures OnlyGrew(lines, target, lines') && Elements(rows) <= lines.Keys
    ensures Poured(lines, Elements(rows), target, lines')
    ensures (forall i :: i in lines' ==> i < next') && next <= next'
  {
    var ls: seq<Lines>, ns: seq<Id> :|
      Pouring(lines, rows, target, ls, ns) && ns[0] == next && ls[|rows|] == lines' && ns[|rows|] == next';
    PouredSoFar(lines, rows, target, ls, ns, |rows|);
    assert rows[..|rows|] == rows;
  }

  lemma {:induction false} PouredSoFar(lines: Lines, rows: seq<Id>, target: Id, ls: seq<Lines>, ns: seq<Id>, n: nat)
    requires forall i :: i in rows ==> i in lines && lines[i].cart != target
    requires forall k, l :: 0 <= k < l < |rows| ==> rows[k] != rows[l]
    requires UniqueLines(lines) && Pouring(lines, rows, target, ls, ns) && n <= |rows|
    requires forall i :: i in lines ==> i < ns[0]
    ensures Elements(rows[..n]) <= lines.Keys
    ensures OnlyGrew(lines, target, ls[n]) && Poured(lines, Elements(rows[..n]), target, ls[n])
    ensures (forall i :: i in ls[n] ==> i < ns[n]) && ns[0] <= ns[n]
    decreases n
  {
    if n == 0 {
      NothingPoured(lines, target);
      assert Elements(rows[..0]) == {};
    } else {
      PouredSoFar(lines, rows, target, ls, ns, n - 1);
      assert rows[n - 1] !in rows[..n - 1];
      PourNext(lines, rows, n - 1, target, ls[n - 1], ns[n - 1], ls[n], ns[n]);
    }
  }

  lemma NothingPoured(lines: Lines, target: Id)
    requires UniqueLines(lines)
    ensures OnlyGrew(lines, target, lines) && Poured(lines, {}, target, lines)
  {
    assert forall v :: AtVariant(lines, {}, v) == {};
    forall v ensures PouredAt(lines, {}, target, lines, v) {}
  }

  lemma PourNext(lines0: Lines, rows: seq<Id>, n: nat, target: Id, lines: Lines, next: Id, lines': Lines, next': Id)
    requires n < |rows| && Elements(rows[..n]) <= lines0.Keys && rows[n] in lines0 && rows[n] !in rows[..n]
    requires OnlyGrew(lines0, target, lines) && Poured(lines0, Elements(rows[..n]), target, lines)
    requires forall i :: i in lines ==> i < next
    requires Upserted(lines, next, InCart(lines0[rows[n]], target), lines', next')
    ensures Elements(rows[..n + 1]) <= lines0.Keys
    ensures OnlyGrew(lines0, target, lines') && Poured(lines0, Elements(rows[..n + 1]), target, lines')
    ensures (forall i :: i in lines' ==> i < next') && next <= next'
  {
    var item := InCart(lines0[rows[n]], target);
    var id :| UpsertedAt(lines, next, item, id, lines', next');
    assert rows[..n + 1] == rows[..n] + [rows[n]];
    assert Elements(rows[..n + 1]) == Elements(rows[..n]) + {rows[n]};
    PlacedKeepsUnique(lines, id, item);
    PourStep(lines0, Elements(rows[..n]), target, lines, rows[n], id);
    PlacedOnlyGrows(lines0, target, lines, id, item);
  }

  lemma PlacedOnlyGrows(lines0: Lines, target: Id, lines: Lines, id: Id, item: Line)
    requires OnlyGrew(lines0, target, lines) && item.cart == target && Slot(lines, id, item)
    requires UniqueLines(Placed(lines, id, item))
    ensures OnlyGrew(lines0, target, Placed(lines, id, item))
  {}

  /** The loop of `mergeCarts`: every source line is upserted into the target cart. */
  method PourLines(lines0: Lines, next0: Id, source: Id, target: Id) returns (rows: seq<Id>, lines: Lines, next: Id)
    requires source != target && forall i :: i in lines0 ==> i < next0
    ensures (forall i :: i in rows <==> i in LinesOf(lines0, source)) && |rows| == |LinesOf(lines0, source)|
    ensures forall k, l :: 0 <= k < l < |rows| ==> rows[k] != rows[l]
    ensures PouredInto(lines0, next0, rows, target, lines, next)
  {
    lines, next := lines0, next0;
    rows := Enumerate(LinesOf(lines0, source));
    ghost var ls, ns := [lines], [next];
    for n := 0 to |rows|
      invariant forall i :: i in rows[..n] ==> i in lines0
      invariant Pouring(lines0, rows[..n], target, ls, ns) && ns[0] == next0 && ls[n] == lines && ns[n] == next
      invariant forall i :: i in lines ==> i < next
    {
      assert rows[..n + 1] == rows[..n] + [rows[n]] && rows[n] in LinesOf(lines0, source);
      lines, next := PlaceLine(lines, next, InCart(lines0[rows[n]], target));
      ls, ns := ls + [lines], ns + [next];
    }
    assert rows[..|rows|] == rows;
  }

  method PlaceLine(lines0: Lines, next0: Id, line: Line) returns (lines: Lines, next: Id)
    requires forall i :: i in lines0 ==> i < next0
    ensures Upserted(lines0, next0, line, lines, next) && forall i :: i in lines ==> i < next
  {
    lines, next := lines0, next0;
    if found :| found in lines && lines[found].cart == line.cart && lines[found].variant == line.variant {
      lines := lines[found := lines[found].(quantity := lines[found].quantity + line.quantity)];
      assert UpsertedAt(lines0, next0, line, found, lines, next);
    } else {
      lines, next := lines[next := line], next + 1;
      assert LinesAt(lines0, line.cart, line.variant) == {};
      assert UpsertedAt(lines0, next0, line, next0, lines, next);
    }
  }

  // ---------------------------------------------------------------- merging two customers' carts

  /** The outcome a merge of two customers promises for their carts. */
  ghost predicate CartsMerged(d: Tables, source: Id, target: Id, d': Tables) {
    && Valid(d')
    && NoCart(d', source)
    && ItemCount(d', target) == ItemCount(d, source) + ItemCount(d, target)
    && (forall v :: VariantMerged(d, source, target, d', v))
    && (forall i :: i in LinesFor(d, target) ==>
         i in LinesFor(d', target) && d'.lines[i] == d.lines[i].(quantity := d'.lines[i].quantity))
    && (forall c :: c != source && c != target ==> SameCart(d, d', c))
  }

  predicate SameItem(a: Line, b: Line) {
    a.variant == b.variant && a.priceAmount == b.priceAmount && a.priceCurrency == b.priceCurrency
  }

  /** The line repeats variant and price of one of the customer's lines. */
  ghost predicate RepeatsLineOf(d: Tables, c: Id, line: Line) {
    exists j :: j in LinesFor(d, c) && SameItem(d.lines[j], line)
  }

  /** Lines new to the target carry the source's prices, and the target's cart keeps the discount code it had. */
  ghost predicate PricesCarryOver(d: Tables, source: Id, target: Id, d': Tables) {
    && (forall k :: OwnsCart(d', target, k) ==> k in d.carts && d'.carts[k] == Cart(target, d.carts[k].discountCode))
    && (forall i :: i in LinesFor(d', target) && i !in LinesFor(d, target) ==> RepeatsLineOf(d, source, d'.lines[i]))
  }

  ghost predicate VariantMerged(d: Tables, source: Id, target: Id, d': Tables, v: string) {
    Quantity(d', target, v) == Quantity(d, source, v) + Quantity(d, target, v)
  }

  ghost predicate SameCart(d: Tables, d': Tables, c: Id) {
    && (forall k :: OwnsCart(d, c, k) || OwnsCart(d', c, k) ==>
         k in d.carts && k in d'.carts && d'.carts[k] == d.carts[k])
    && LinesFor(d', c) == LinesFor(d, c)
    && forall i :: i in LinesFor(d, c) ==> d'.lines[i] == d.lines[i]
  }

  /** A customer's quantities depend on that customer's lines only. */
  lemma SameCartSameQuantities(d: Tables, d': Tables, c: Id, variant: string)
    requires SameCart(d, d', c)
    ensures ItemCount(d', c) == ItemCount(d, c) && Quantity(d', c, variant) == Quantity(d, c, variant)
  {
    SumAgrees(d.lines, d'.lines, LinesFor(d, c));
    assert forall i :: i in LinesForAt(d, c, variant) ==> i in LinesFor(d, c);
    assert forall i :: i in LinesForAt(d', c, variant) ==> i in LinesFor(d', c);
    assert LinesForAt(d', c, variant) == LinesForAt(d, c, variant);
    SumAgrees(d.lines, d'.lines, LinesForAt(d, c, variant));
  }

  class CartService {
    var carts: map<Id, Cart>
    var lines: Lines
    var next: Id

    ghost function Db(): Tables reads this {
      Tables(carts, lines, next)
    }

    constructor ()
      ensures Valid(Db()) && carts == map[] && lines == map[]
    {
      carts, lines, next := map[], map[], 0;
    }

    /** `stock` is the product lookup: no such variant, out of stock, or available. */
    method AddItem(c: Id, variant: string, quantity: int, priceAmount: string, priceCurrency: string,
      stock: Option<bool>) returns (r: Result<()>)
      requires Valid(Db())
      modifies this
      ensures r ==
        match stock { case None => Err(NotFound) case Some(inStock) => if inStock then Ok(()) else Err(BadRequest) }
      ensures r.Err? ==> Db() == old(Db())
      ensures r.Ok? ==> Adds(old(Db()), c, Item(variant, quantity, priceAmount, priceCurrency), Db())
      ensures r.Ok? ==> Added(old(Db()), c, Item(variant, quantity, priceAmount, priceCurrency), Db())
    {
      if stock.None? { return Err(NotFound); }
      if !stock.value { return Err(BadRequest); }
      ghost var item := Item(variant, quantity, priceAmount, priceCurrency);
      var k := EnsureCart(c);
      lines, next := PlaceLine(lines, next, Line(k, variant, quantity, priceAmount, priceCurrency));
      assert AddsTo(old(Db()), c, item, Db(), k);
      AddingAdds(old(Db()), c, item, Db());
      r := Ok(());
    }

    method EnsureCart(c: Id) returns (k: Id)
      requires Valid(Db())
      modifies this
      ensures Valid(Db()) && OwnsCart(Db(), c, k)
      ensures Db() == WithCart(old(Db()), c)
    {
      if found :| found in carts && carts[found].customer == c {
        k := found;
      } else {
        k := next;
        carts, next := carts[k := Cart(c, None)], next + 1;
      }
    }

    /** Addressed by line id, but only a line in the caller's own cart is found. */
    method UpdateItem(c: Id, id: Id, quantity: int) returns (r: Result<()>)
      requires Valid(Db())
      modifies this
      ensures Valid(Db())
      ensures r == if id in LinesFor(old(Db()), c) then Ok(()) else Err(NotFound)
      ensures Db() == if r.Ok? then old(Db()).(lines := old(lines)[id := old(lines)[id].(quantity := quantity)])
        else old(Db())
      ensures r.Ok? ==> Quantity(Db(), c, old(lines)[id].variant) == quantity
    {
      if id !in lines || lines[id].cart !in carts || carts[lines[id].cart].customer != c { return Err(NotFound); }
      lines := lines[id := lines[id].(quantity := quantity)];
      OneLine(Db(), c, id);
      r := Ok(());
    }

    method RemoveItem(c: Id, id: Id) returns (r: Result<()>)
      requires Valid(Db())
      modifies this
      ensures Valid(Db())
      ensures r == if id in LinesFor(old(Db()), c) then Ok(()) else Err(NotFound)
      ensures Db() == if r.Ok? then old(Db()).(lines := old(lines) - {id}) else old(Db())
    {
      if id !in lines || lines[id].cart !in carts || carts[lines[id].cart].customer != c { return Err(NotFound); }
      lines := lines - {id};
      r := Ok(());
    }

    method Clear(c: Id)
      requires Valid(Db())
      modifies this
      ensures Valid(Db())
      ensures Db() == old(Db()).(lines := old(lines) - LinesFor(old(Db()), c))
      ensures ItemCount(Db(), c) == 0
    {
      ghost var d := Db();
      lines := map i | i in lines && !(lines[i].cart in carts && carts[lines[i].cart].customer == c) :: lines[i];
      assert lines == d.lines - LinesFor(d, c);
      assert LinesFor(Db(), c) == {};
    }
  }

  /** What `mergeCarts` does: nothing, drop an empty cart, hand the cart over, or pour its lines into the target's. */
  ghost predicate Merges(d: Tables, source: Id, target: Id, d': Tables) {
    if NoCart(d, source) then d' == d
    else exists sc :: OwnsCart(d, source, sc) && MergesCart(d, sc, target, d')
  }

  ghost predicate MergesCart(d: Tables, sc: Id, target: Id, d': Tables)
    requires sc in d.carts
  {
    if LinesOf(d.lines, sc) == {} then d' == d.(carts := d.carts - {sc})
    else if NoCart(d, target) then d' == d.(carts := d.carts[sc := d.carts[sc].(customer := target)])
    else exists tc, rows: seq<Id>, poured: Lines, next: Id :: PoursInto(d, sc, target, tc, rows, poured, next, d')
  }

  /** The lines are upserted one by one, and the source cart goes with its own. */
  ghost predicate PoursInto(d: Tables, sc: Id, target: Id, tc: Id, rows: seq<Id>, poured: Lines, next: Id, d': Tables) {
    && OwnsCart(d, target, tc)
    && (forall i :: i in rows <==> i in LinesOf(d.lines, sc))
    && (forall k, l :: 0 <= k < l < |rows| ==> rows[k] != rows[l])
    && PouredInto(d.lines, d.next, rows, tc, poured, next)
    && d' == Tables(d.carts - {sc}, map i | i in poured && poured[i].cart != sc :: poured[i], next)
  }

  /** `mergeCarts`: returns the tables afterwards and how many source lines were moved or added up. */
  method MergeCarts(d: Tables, source: Id, target: Id) returns (d': Tables, count: nat)
    requires Valid(d) && source != target
    ensures Merges(d, source, target, d')
    ensures CartsMerged(d, source, target, d') && PricesCarryOver(d, source, target, d')
    ensures count == |LinesFor(d, source)|
  {
    d' := d;
    if sc :| sc in d.carts && d.carts[sc].customer == source {
      assert OwnsCart(d, source, sc);
      CustomerLines(d, source, sc, "");
      count := |LinesOf(d.lines, sc)|;
      if count == 0 {
        d' := d.(carts := d.carts - {sc});
      } else if tc :| tc in d.carts && d.carts[tc].customer == target {
        var rows, poured, next := PourLines(d.lines, d.next, sc, tc);
        d' := Tables(d.carts - {sc}, map i | i in poured && poured[i].cart != sc :: poured[i], next);
        assert PoursInto(d, sc, target, tc, rows, poured, next, d');
      } else {
        d' := d.(carts := d.carts[sc := d.carts[sc].(customer := target)]);
      }
      assert MergesCart(d, sc, target, d');
    } else {
      count := 0;
      NothingToMerge(d, source, target);
    }
    MergingMerges(d, source, target, d');
    MergingKeepsPrices(d, source, target, d');
  }

  lemma {:induction false} PouredPrices(lines: Lines, rows: seq<Id>, target: Id, ls: seq<Lines>, ns: seq<Id>, n: nat)
    requires (forall i :: i in rows ==> i in lines) && Pouring(lines, rows, target, ls, ns) && n <= |rows|
    ensures forall i :: i in lines ==> i in ls[n] && SameItem(lines[i], ls[n][i])
    ensures forall i :: i in ls[n] && i !in lines ==> exists j :: j in rows && SameItem(lines[j], ls[n][i])
    decreases n
  {
    if n > 0 {
      PouredPrices(lines, rows, target, ls, ns, n - 1);
      var line := InCart(lines[rows[n - 1]], target);
      var id :| UpsertedAt(ls[n - 1], ns[n - 1], line, id, ls[n], ns[n]);
      assert SameItem(lines[rows[n - 1]], line);
    }
  }

  lemma PouringKeepsPrices(d: Tables, source: Id, target: Id, sc: Id, tc: Id, rows: seq<Id>, poured: Lines, next: Id,
    d': Tables)
    requires Valid(d) && source != target && OwnsCart(d, source, sc)
    requires PoursInto(d, sc, target, tc, rows, poured, next, d')
    ensures PricesCarryOver(d, source, target, d')
  {
    var ls: seq<Lines>, ns: seq<Id> :|
      Pouring(d.lines, rows, tc, ls, ns) && ns[0] == d.next && ls[|rows|] == poured && ns[|rows|] == next;
    PouredPrices(d.lines, rows, tc, ls, ns, |rows|);
    PouringAdds(d.lines, d.next, rows, tc, poured, next);
    forall i | i in LinesFor(d', target) && i !in LinesFor(d, target) ensures RepeatsLineOf(d, source, d'.lines[i]) {
      var j :| j in rows && SameItem(d.lines[j], poured[i]);
      assert j in LinesFor(d, source);
    }
  }

  /** On every branch of a merge prices and discount code carry over. */
  lemma MergingKeepsPrices(d: Tables, source: Id, target: Id, d': Tables)
    requires Valid(d) && source != target && Merges(d, source, target, d')
    ensures PricesCarryOver(d, source, target, d')
  {
    if !NoCart(d, source) {
      var sc :| OwnsCart(d, source, sc) && MergesCart(d, sc, target, d');
      if LinesOf(d.lines, sc) != {} && !NoCart(d, target) {
        var tc, rows: seq<Id>, poured: Lines, next: Id :| PoursInto(d, sc, target, tc, rows, poured, next, d');
        PouringKeepsPrices(d, source, target, sc, tc, rows, poured, next, d');
      } else if LinesOf(d.lines, sc) != {} {
        forall i | i in LinesFor(d', target) ensures RepeatsLineOf(d, source, d'.lines[i]) {
          assert i in LinesFor(d, source) && SameItem(d.lines[i], d'.lines[i]);
        }
      }
    }
  }

  /** And so the carts are merged as promised. */
  lemma MergingMerges(d: Tables, source: Id, target: Id, d': Tables)
    requires Valid(d) && source != target && Merges(d, source, target, d')
    ensures CartsMerged(d, source, target, d')
  {
    if NoCart(d, source) {
      NothingToMerge(d, source, target);
    } else {
      var sc :| OwnsCart(d, source, sc) && MergesCart(d, sc, target, d');
      if LinesOf(d.lines, sc) == {} {
        EmptyCartDropped(d, source, target, sc, d');
      } else if NoCart(d, target) {
        CartMoved(d, source, target, sc, d');
      } else {
        var tc, rows: seq<Id>, poured: Lines, next: Id :| PoursInto(d, sc, target, tc, rows, poured, next, d');
        PouringMerges(d, source, target, sc, tc, rows, poured, next, d');
      }
    }
  }

  lemma PouringMerges(d: Tables, source: Id, target: Id, sc: Id, tc: Id, rows: seq<Id>, poured: Lines, next: Id,
    d': Tables)
    requires Valid(d) && source != target && OwnsCart(d, source, sc)
    requires PoursInto(d, sc, target, tc, rows, poured, next, d')
    ensures CartsMerged(d, source, target, d')
  {
    PouringAdds(d.lines, d.next, rows, tc, poured, next);
    assert Elements(rows) == LinesOf(d.lines, sc);
    PouredMerges(d, source, target, sc, tc, poured, d');
  }

  lemma NothingToMerge(d: Tables, source: Id, target: Id)
    requires Valid(d) && NoCart(d, source)
    ensures CartsMerged(d, source, target, d)
    ensures LinesFor(d, source) == {}
  {
    NoCartNoLines(d, source, "");
    forall v ensures VariantMerged(d, source, target, d, v) { NoCartNoLines(d, source, v); }
  }

  lemma EmptyCartDropped(d: Tables, source: Id, target: Id, sc: Id, d': Tables)
    requires Valid(d) && source != target && OwnsCart(d, source, sc) && LinesOf(d.lines, sc) == {}
    requires d' == d.(carts := d.carts - {sc})
    ensures CartsMerged(d, source, target, d')
    ensures LinesFor(d, source) == {}
  {
    assert forall i :: i in d.lines ==> i !in LinesOf(d.lines, sc);
    assert forall c :: c != source ==> LinesFor(d', c) == LinesFor(d, c);
    CustomerLines(d, source, sc, "");
    forall v ensures VariantMerged(d, source, target, d', v) {
      CustomerLines(d, source, sc, v);
      assert LinesForAt(d, source, v) == {};
      assert LinesForAt(d', target, v) == LinesForAt(d, target, v);
    }
  }

  lemma CartMoved(d: Tables, source: Id, target: Id, sc: Id, d': Tables)
    requires Valid(d) && source != target && OwnsCart(d, source, sc) && NoCart(d, target)
    requires d' == d.(carts := d.carts[sc := d.carts[sc].(customer := target)])
    ensures CartsMerged(d, source, target, d')
  {
    NoCartNoLines(d, target, "");
    CustomerLines(d, source, sc, "");
    CustomerLines(d', target, sc, "");
    forall v ensures VariantMerged(d, source, target, d', v) {
      NoCartNoLines(d, target, v);
      CustomerLines(d, source, sc, v);
      CustomerLines(d', target, sc, v);
    }
    forall c | c != source && c != target ensures SameCart(d, d', c) {
      assert LinesFor(d', c) == LinesFor(d, c);
    }
  }

  lemma PouredMerges(d: Tables, source: Id, target: Id, sc: Id, tc: Id, poured: Lines, d': Tables)
    requires Valid(d) && source != target && OwnsCart(d, source, sc) && OwnsCart(d, target, tc)
    requires OnlyGrew(d.lines, tc, poured) && Poured(d.lines, LinesOf(d.lines, sc), tc, poured)
    requires d'.carts == d.carts - {sc} && d'.lines == (map i | i in poured && poured[i].cart != sc :: poured[i])
    requires forall i :: i in poured ==> i < d'.next
    requires d.next <= d'.next
    ensures CartsMerged(d, source, target, d')
  {
    PouredValid(d, sc, tc, poured, d');
    CustomerLines(d, source, sc, "");
    CustomerLines(d, target, tc, "");
    CustomerLines(d', target, tc, "");
    assert LinesOf(d'.lines, tc) == LinesOf(poured, tc);
    SumAgrees(poured, d'.lines, LinesOf(poured, tc));
    forall v ensures VariantMerged(d, source, target, d', v) {
      PouredVariant(d, source, target, sc, tc, poured, d', v);
    }
    PouredOthers(d, source, target, sc, tc, poured, d');
  }

  lemma PouredValid(d: Tables, sc: Id, tc: Id, poured: Lines, d': Tables)
    requires Valid(d) && sc != tc && sc in d.carts && tc in d.carts && OnlyGrew(d.lines, tc, poured)
    requires d'.carts == d.carts - {sc} && d'.lines == (map i | i in poured && poured[i].cart != sc :: poured[i])
    requires (forall i :: i in poured ==> i < d'.next) && d.next <= d'.next
    ensures Valid(d')
  {}

  lemma PouredVariant(d: Tables, source: Id, target: Id, sc: Id, tc: Id, poured: Lines, d': Tables, v: string)
    requires Valid(d) && Valid(d') && source != target && OwnsCart(d, source, sc) && OwnsCart(d, target, tc)
    requires Poured(d.lines, LinesOf(d.lines, sc), tc, poured)
    requires d'.carts == d.carts - {sc} && d'.lines == (map i | i in poured && poured[i].cart != sc :: poured[i])
    ensures VariantMerged(d, source, target, d', v)
  {
    CustomerLines(d, source, sc, v);
    CustomerLines(d, target, tc, v);
    CustomerLines(d', target, tc, v);
    assert PouredAt(d.lines, LinesOf(d.lines, sc), tc, poured, v);
    assert AtVariant(d.lines, LinesOf(d.lines, sc), v) == LinesAt(d.lines, sc, v);
    assert LinesAt(d'.lines, tc, v) == LinesAt(poured, tc, v);
    SumAgrees(poured, d'.lines, LinesAt(poured, tc, v));
  }

  lemma PouredOthers(d: Tables, source: Id, target: Id, sc: Id, tc: Id, poured: Lines, d': Tables)
    requires Valid(d) && source != target && OwnsCart(d, source, sc) && OwnsCart(d, target, tc)
    requires OnlyGrew(d.lines, tc, poured)
    requires d'.carts == d.carts - {sc} && d'.lines == (map i | i in poured && poured[i].cart != sc :: poured[i])
    ensures forall c :: c != source && c != target ==> SameCart(d, d', c)
    ensures NoCart(d', source)
    ensures forall i :: i in LinesFor(d, target) ==>
      i in LinesFor(d', target) && d'.lines[i] == d.lines[i].(quantity := d'.lines[i].quantity)
  {
    forall c | c != source && c != target
      ensures SameCart(d, d', c)
    {
      PouredSpares(d, source, target, sc, tc, poured, d', c);
    }
    PouredTarget(d, source, target, sc, tc, poured, d');
  }

  lemma PouredTarget(d: Tables, source: Id, target: Id, sc: Id, tc: Id, poured: Lines, d': Tables)
    requires Valid(d) && source != target && OwnsCart(d, source, sc) && OwnsCart(d, target, tc)
    requires OnlyGrew(d.lines, tc, poured)
    requires d'.carts == d.carts - {sc} && d'.lines == (map i | i in poured && poured[i].cart != sc :: poured[i])
    ensures NoCart(d', source)
    ensures forall i :: i in LinesFor(d, target) ==>
      i in LinesFor(d', target) && d'.lines[i] == d.lines[i].(quantity := d'.lines[i].quantity)
  {}

  lemma PouredSpares(d: Tables, source: Id, target: Id, sc: Id, tc: Id, poured: Lines, d': Tables, c: Id)
    requires Valid(d) && OwnsCart(d, source, sc) && OwnsCart(d, target, tc) && c != source && c != target
    requires OnlyGrew(d.lines, tc, poured)
    requires d'.carts == d.carts - {sc} && d'.lines == (map i | i in poured && poured[i].cart != sc :: poured[i])
    ensures SameCart(d, d', c)
  {
    assert LinesFor(d', c) == LinesFor(d, c);
  }

  // ---------------------------------------------------------------- the customer's own operations

  /** In a valid state the quantity of a variant is the quantity on its one line. */
  lemma OneLine(d: Tables, c: Id, i: Id)
    requires Valid(d) && i in LinesFor(d, c)
    ensures Quantity(d, c, d.lines[i].variant) == d.lines[i].quantity
  {
    CustomerLines(d, c, d.lines[i].cart, d.lines[i].variant);
    assert LinesForAt(d, c, d.lines[i].variant) == {i};
    SumRemove(d.lines, {i}, i);
    assert {i} - {i} == {};
  }

  /** What is put into a cart. */
  datatype Item = Item(variant: string, quantity: int, priceAmount: string, priceCurrency: string)

  function LineOf(cart: Id, item: Item): Line {
    Line(cart, item.variant, item.quantity, item.priceAmount, item.priceCurrency)
  }

  /** `addItem`: one variant's quantity grows by what was added, every other quantity and every other cart stands. */
  ghost predicate Added(d: Tables, c: Id, item: Item, d': Tables) {
    Increased(d, c, item, d') && CartKept(d, c, d')
  }

  ghost predicate Increased(d: Tables, c: Id, item: Item, d': Tables) {
    && Valid(d')
    && ItemCount(d', c) == ItemCount(d, c) + item.quantity
    && (forall v :: Quantity(d', c, v) == Quantity(d, c, v) + if v == item.variant then item.quantity else 0)
    && LinesKept(d, c, item, d')
    && (forall o :: o != c ==> SameCart(d, d', o))
  }

  /** A line keeps the price it was first added with; only a new line carries the new price. */
  ghost predicate LinesKept(d: Tables, c: Id, item: Item, d': Tables) {
    && (forall i :: i in LinesFor(d, c) ==>
         i in LinesFor(d', c) && d'.lines[i] == d.lines[i].(quantity := d'.lines[i].quantity))
    && (forall i :: i in LinesFor(d', c) && i !in LinesFor(d, c) ==> d'.lines[i] == LineOf(d'.lines[i].cart, item))
  }

  /** A cart that is new has no discount code; an old one keeps its own. */
  ghost predicate CartKept(d: Tables, c: Id, d': Tables) {
    && (forall k :: OwnsCart(d', c, k) ==> d'.carts[k] == if OwnsCart(d, c, k) then d.carts[k] else Cart(c, None))
    && (forall k :: OwnsCart(d, c, k) ==> OwnsCart(d', c, k))
    && exists k :: OwnsCart(d', c, k)
  }

  /** `ensureCart`. */
  ghost function WithCart(d: Tables, c: Id): Tables {
    if NoCart(d, c) then Tables(d.carts[d.next := Cart(c, None)], d.lines, d.next + 1) else d
  }

  /** What `addItem` does: make sure of a cart and upsert one line into it. */
  ghost predicate Adds(d: Tables, c: Id, item: Item, d': Tables) {
    exists k :: AddsTo(d, c, item, d', k)
  }

  ghost predicate AddsTo(d: Tables, c: Id, item: Item, d': Tables, k: Id) {
    var u := WithCart(d, c);
    OwnsCart(u, c, k) && d'.carts == u.carts && Upserted(u.lines, u.next, LineOf(k, item), d'.lines, d'.next)
  }

  /** And so the item is added as promised. */
  lemma AddingAdds(d: Tables, c: Id, item: Item, d': Tables)
    requires Valid(d) && Adds(d, c, item, d')
    ensures Added(d, c, item, d')
  {
    AddingIncreases(d, c, item, d');
    AddingKeepsCart(d, c, item, d');
  }

  lemma AddingKeepsCart(d: Tables, c: Id, item: Item, d': Tables)
    requires Valid(d) && Adds(d, c, item, d')
    ensures CartKept(d, c, d')
  {
    var k :| AddsTo(d, c, item, d', k);
    assert OwnsCart(d', c, k);
  }

  lemma AddingIncreases(d: Tables, c: Id, item: Item, d': Tables)
    requires Valid(d) && Adds(d, c, item, d')
    ensures Increased(d, c, item, d')
  {
    var k :| AddsTo(d, c, item, d', k);
    CartIsEnsured(d, c);
    if NoCart(d, c) {
      UpsertingAdds(WithCart(d, c), c, k, item, d');
      NewCartIsEmpty(d, WithCart(d, c), c, item, d');
    } else {
      UpsertingAdds(d, c, k, item, d');
    }
  }

  lemma CartIsEnsured(d: Tables, c: Id)
    requires Valid(d)
    ensures Valid(WithCart(d, c))
  {}

  lemma UpsertingAdds(u: Tables, c: Id, k: Id, item: Item, d': Tables)
    requires Valid(u) && OwnsCart(u, c, k) && d'.carts == u.carts
    requires Upserted(u.lines, u.next, LineOf(k, item), d'.lines, d'.next)
    ensures Increased(u, c, item, d')
  {
    var id :| UpsertedAt(u.lines, u.next, LineOf(k, item), id, d'.lines, d'.next);
    PlacedKeepsUnique(u.lines, id, LineOf(k, item));
    PlacedAdds(u, c, k, item, id, d');
  }

  lemma PlacedAdds(d: Tables, c: Id, k: Id, item: Item, id: Id, d': Tables)
    requires Valid(d) && OwnsCart(d, c, k) && Slot(d.lines, id, LineOf(k, item))
    requires d' == Tables(d.carts, Placed(d.lines, id, LineOf(k, item)), d'.next) && Valid(d')
    ensures Increased(d, c, item, d')
  {
    PlacedLines(d, c, k, item, id, d');
    CustomerLines(d, c, k, "");
    CustomerLines(d', c, k, "");
    PlacedQuantities(d.lines, id, LineOf(k, item), k, "");
    forall v ensures Quantity(d', c, v) == Quantity(d, c, v) + if v == item.variant then item.quantity else 0 {
      CustomerLines(d, c, k, v);
      CustomerLines(d', c, k, v);
      PlacedQuantities(d.lines, id, LineOf(k, item), k, v);
    }
  }

  lemma PlacedLines(d: Tables, c: Id, k: Id, item: Item, id: Id, d': Tables)
    requires Valid(d) && OwnsCart(d, c, k) && Slot(d.lines, id, LineOf(k, item))
    requires d' == Tables(d.carts, Placed(d.lines, id, LineOf(k, item)), d'.next)
    ensures LinesKept(d, c, item, d')
    ensures forall o :: o != c ==> SameCart(d, d', o)
  {
    forall o | o != c ensures SameCart(d, d', o) { PlacedSpares(d, c, k, item, id, d', o); }
  }

  lemma PlacedSpares(d: Tables, c: Id, k: Id, item: Item, id: Id, d': Tables, o: Id)
    requires OwnsCart(d, c, k) && Slot(d.lines, id, LineOf(k, item)) && o != c
    requires d' == Tables(d.carts, Placed(d.lines, id, LineOf(k, item)), d'.next)
    ensures SameCart(d, d', o)
  {
    assert LinesFor(d', o) == LinesFor(d, o);
  }

  /** `ensureCart` changes nobody's lines. */
  lemma NewCartIsEmpty(d: Tables, u: Tables, c: Id, item: Item, d': Tables)
    requires Valid(d) && NoCart(d, c) && u == WithCart(d, c) && Increased(u, c, item, d')
    ensures Increased(d, c, item, d')
  {
    assert LinesFor(u, c) == LinesFor(d, c) == {};
    forall v ensures Quantity(d', c, v) == Quantity(d, c, v) + if v == item.variant then item.quantity else 0 {
      assert LinesForAt(u, c, v) == LinesForAt(d, c, v) == {};
    }
    forall o | o != c ensures SameCart(d, d', o) { OthersLackNewCart(d, u, c, d', o); }
  }

  lemma OthersLackNewCart(d: Tables, u: Tables, c: Id, d': Tables, o: Id)
    requires Valid(d) && NoCart(d, c) && u == WithCart(d, c) && SameCart(u, d', o) && o != c
    ensures SameCart(d, d', o)
  {
    assert LinesFor(u, o) == LinesFor(d, o);
  }
}

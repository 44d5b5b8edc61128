/** Runs of the requests on carts: what each does, and what holds over all of them. */
module CartRuns {
  import opened Schema
  import opened Carts

  datatype Request =
    | Add(customer: Id, item: Item)
    | SetQuantity(customer: Id, line: Id, quantity: int)
    | RemoveLine(customer: Id, line: Id)
    | ClearCart(customer: Id)
    | Merge(source: Id, target: Id)

  /** What a request that is not refused does to the tables. */
  ghost predicate Next(d: Tables, r: Request, d': Tables) {
    match r
    case Add(c, item) => Adds(d, c, item, d')
    case SetQuantity(c, i, q) => i in LinesFor(d, c) && d' == d.(lines := d.lines[i := d.lines[i].(quantity := q)])
    case RemoveLine(c, i) => i in LinesFor(d, c) && d' == d.(lines := d.lines - {i})
    case ClearCart(c) => d' == d.(lines := d.lines - LinesFor(d, c))
    case Merge(s, t) => s != t && Merges(d, s, t, d')
  }

  /** Every request keeps one cart per customer and one line per cart and variant. */
  lemma StepKeepsValid(d: Tables, r: Request, d': Tables)
    requires Valid(d) && Next(d, r, d')
    ensures Valid(d')
  {
    match r {
      case Add(c, item) => AddingAdds(d, c, item, d');
      case Merge(s, t) => MergingMerges(d, s, t, d');
      case _ =>
    }
  }

  /** So does every run. */
  lemma {:induction false} RunKeepsOneLine(ds: seq<Tables>, rs: seq<Request>)
    requires |ds| == |rs| + 1 && Valid(ds[0]) && forall n :: 0 <= n < |rs| ==> Next(ds[n], rs[n], ds[n + 1])
    ensures Valid(ds[|rs|])
    decreases |rs|
  {
    if rs != [] {
      var n := |rs| - 1;
      RunKeepsOneLine(ds[..n + 1], rs[..n]);
      StepKeepsValid(ds[n], rs[n], ds[n + 1]);
    }
  }

  /** What a request adds to a customer's quantity of a variant. */
  ghost function Change(d: Tables, r: Request, c: Id, variant: string): int {
    match r
    case Add(o, item) => if o == c && item.variant == variant then item.quantity else 0
    case SetQuantity(_, i, q) => if i in LinesForAt(d, c, variant) then q - d.lines[i].quantity else 0
    case RemoveLine(_, i) => if i in LinesForAt(d, c, variant) then -d.lines[i].quantity else 0
    case ClearCart(o) => if o == c then -Quantity(d, c, variant) else 0
    case Merge(s, t) => if c == t then Quantity(d, s, variant) else if c == s then -Quantity(d, s, variant) else 0
  }

  /**
   * Every request moves every customer's quantity of every variant
   * by just that: nothing is lost or doubled anywhere.
   */
  lemma QuantitiesAddUp(d: Tables, r: Request, d': Tables, c: Id, variant: string)
    requires Valid(d) && Next(d, r, d')
    ensures Quantity(d', c, variant) == Quantity(d, c, variant) + Change(d, r, c, variant)
  {
    match r {
      case Add(o, item) => AddMoves(d, o, item, d', c, variant);
      case SetQuantity(_, i, q) => LineChanged(d, i, q, d', c, variant);
      case RemoveLine(_, i) => LineRemoved(d, i, d', c, variant);
      case ClearCart(o) =>
        if o == c { assert LinesForAt(d', c, variant) == {}; }
        else {
          assert LinesForAt(d', c, variant) == LinesForAt(d, c, variant);
          SumAgrees(d.lines, d'.lines, LinesForAt(d, c, variant));
        }
      case Merge(s, t) => MergeMoves(d, s, t, d', c, variant);
    }
  }

  lemma AddMoves(d: Tables, o: Id, item: Item, d': Tables, c: Id, variant: string)
    requires Valid(d) && Adds(d, o, item, d')
    ensures Quantity(d', c, variant) ==
      Quantity(d, c, variant) + if o == c && item.variant == variant then item.quantity else 0
  {
    AddingAdds(d, o, item, d');
    if o != c { SameCartSameQuantities(d, d', c, variant); }
  }

  lemma MergeMoves(d: Tables, s: Id, t: Id, d': Tables, c: Id, variant: string)
    requires Valid(d) && s != t && Merges(d, s, t, d')
    ensures Quantity(d', c, variant) == Quantity(d, c, variant) + Change(d, Merge(s, t), c, variant)
  {
    MergingMerges(d, s, t, d');
    if c == t { assert VariantMerged(d, s, t, d', variant); }
    else if c == s { NoCartNoLines(d', s, variant); }
    else { assert SameCart(d, d', c); SameCartSameQuantities(d, d', c, variant); }
  }

  lemma LineChanged(d: Tables, i: Id, q: int, d': Tables, c: Id, variant: string)
    requires i in d.lines && d' == d.(lines := d.lines[i := d.lines[i].(quantity := q)])
    ensures Quantity(d', c, variant) ==
      Quantity(d, c, variant) + if i in LinesForAt(d, c, variant) then q - d.lines[i].quantity else 0
  {
    var ids := LinesForAt(d, c, variant);
    assert LinesForAt(d', c, variant) == ids;
    SumAgrees(d.lines, d'.lines, ids - {i});
    if i in ids {
      SumRemove(d.lines, ids, i);
      SumRemove(d'.lines, ids, i);
    } else {
      assert ids - {i} == ids;
    }
  }

  lemma LineRemoved(d: Tables, i: Id, d': Tables, c: Id, variant: string)
    requires i in d.lines && d' == d.(lines := d.lines - {i})
    ensures Quantity(d', c, variant) ==
      Quantity(d, c, variant) - if i in LinesForAt(d, c, variant) then d.lines[i].quantity else 0
  {
    var ids := LinesForAt(d, c, variant);
    assert LinesForAt(d', c, variant) == ids - {i};
    SumAgrees(d.lines, d'.lines, ids - {i});
    if i in ids { SumRemove(d.lines, ids, i); } else { assert ids - {i} == ids; }
  }
}

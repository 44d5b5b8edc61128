/** The totals of a cart as the API shows them: computed on doubles in minor units, printed as decimal strings. */
module CartTotals {
  import opened Schema
  import opened Money

  datatype Item = Item(amount: string, currency: string, quantity: int)

  /** `fractionDigits` as a function of the currency; no currency has more than 22 digits. */
  type Digits = string -> nat

  ghost predicate Supported(digits: Digits) {
    forall c :: digits(c) <= MAX_DIGITS
  }

  /** Per line the unit price and the line total, the number of pieces, and the subtotal with its currency. */
  datatype Totals = Totals(units: seq<string>, lines: seq<string>, count: int, subtotal: string, currency: string)

  /**
   * A price that does not read as a number gives NaN in the original;
   * here, and only outside the theorems, it counts 0.
   */
  function Unit(fl: Rounding, digits: Digits, i: Item): int {
    var m := ToMinor(fl, i.amount, digits(i.currency));
    if m.Some? then m.value else 0
  }

  function Line(fl: Rounding, digits: Digits, i: Item): int {
    Unit(fl, digits, i) * i.quantity
  }

  /** The lines in minor units, each a rounded product. */
  function LineMinors(fl: Rounding, digits: Digits, items: seq<Item>): seq<real> {
    seq(|items|, i requires 0 <= i < |items| => fl(Line(fl, digits, items[i]) as real))
  }

  /** The `reduce`, one rounded addition per line. */
  function Reduced(fl: Rounding, minors: seq<real>): real {
    if minors == [] then 0.0 else fl(Reduced(fl, minors[..|minors| - 1]) + minors[|minors| - 1])
  }

  function Currency(items: seq<Item>): string {
    if items == [] then "INR" else items[0].currency
  }

  function Pieces(items: seq<Item>): int {
    if items == [] then 0 else Pieces(items[..|items| - 1]) + items[|items| - 1].quantity
  }

  /** `toDto`. */
  function ToDto(fl: Rounding, digits: Digits, items: seq<Item>): Totals {
    var minors := LineMinors(fl, digits, items);
    Totals(
      seq(|items|, i requires 0 <= i < |items| =>
        FromMinor(fl, Unit(fl, digits, items[i]) as real, digits(items[i].currency))),
      seq(|items|, i requires 0 <= i < |items| => FromMinor(fl, minors[i], digits(items[i].currency))),
      Pieces(items),
      FromMinor(fl, Reduced(fl, minors), digits(Currency(items))),
      Currency(items))
  }

  // ---------------------------------------------------------------- exactness

  /** The lines in whole minor units, and the digits each is printed with. */
  function Lines(fl: Rounding, digits: Digits, items: seq<Item>): seq<int> {
    seq(|items|, i requires 0 <= i < |items| => Line(fl, digits, items[i]))
  }

  function LineDigits(digits: Digits, items: seq<Item>): seq<nat> {
    seq<nat>(|items|, i requires 0 <= i < |items| => digits(items[i].currency))
  }

  function Total(lines: seq<int>): int {
    if lines == [] then 0 else Total(lines[..|lines| - 1]) + lines[|lines| - 1]
  }

  /** No line is negative, and together they stay within 2^50 minor units. */
  ghost predicate InRange(lines: seq<int>) {
    (forall i :: 0 <= i < |lines| ==> lines[i] >= 0) && Total(lines) <= BOUND
  }

  lemma {:induction false} LinesWithinTotal(lines: seq<int>)
    requires forall i :: 0 <= i < |lines| ==> lines[i] >= 0
    ensures Total(lines) >= 0 && forall i :: 0 <= i < |lines| ==> lines[i] <= Total(lines)
  {
    if lines != [] { LinesWithinTotal(lines[..|lines| - 1]); }
  }

  /** Within the range the arithmetic on doubles is exact. */
  lemma {:induction false} ReducedIsTotal(fl: Rounding, minors: seq<real>, lines: seq<int>)
    requires Rounds(fl) && InRange(lines)
    requires |minors| == |lines| && forall i :: 0 <= i < |lines| ==> minors[i] == lines[i] as real
    ensures Reduced(fl, minors) == Total(lines) as real
  {
    LinesWithinTotal(lines);
    if lines != [] {
      ReducedIsTotal(fl, minors[..|minors| - 1], lines[..|lines| - 1]);
      assert Exact(fl, Total(lines));
    }
  }

  lemma MinorsAreExact(fl: Rounding, digits: Digits, items: seq<Item>)
    requires Rounds(fl) && InRange(Lines(fl, digits, items))
    ensures var minors, lines := LineMinors(fl, digits, items), Lines(fl, digits, items);
      && (forall i :: 0 <= i < |items| ==> minors[i] == lines[i] as real)
      && Reduced(fl, minors) == Total(lines) as real
  {
    var minors, lines := LineMinors(fl, digits, items), Lines(fl, digits, items);
    LinesWithinTotal(lines);
    forall i | 0 <= i < |items| ensures minors[i] == lines[i] as real { assert Exact(fl, lines[i]); }
    ReducedIsTotal(fl, minors, lines);
  }

  // ---------------------------------------------------------------- what is printed

  /** The value a printed amount denotes. */
  function ValueOf(amount: string): real {
    if Plain(amount) then PlainValue(amount) else 0.0
  }

  function SumOfValues(amounts: seq<string>): real {
    if amounts == [] then 0.0 else SumOfValues(amounts[..|amounts| - 1]) + ValueOf(amounts[|amounts| - 1])
  }

  /** Minor units added up as the amounts they stand for, each in its own digits. */
  function Worth(lines: seq<int>, ds: seq<nat>): real
    requires |lines| == |ds|
  {
    if lines == [] then 0.0
    else Worth(lines[..|lines| - 1], ds[..|ds| - 1]) + Unscaled(lines[|lines| - 1] as real, ds[|ds| - 1])
  }

  lemma PrintsItsValue(fl: Rounding, m: int, d: nat)
    requires Rounds(fl) && 0 <= m <= BOUND && d <= MAX_DIGITS
    ensures ValueOf(FromMinor(fl, m as real, d)) == Unscaled(m as real, d)
  {
    PrintsFixed(fl, m, d);
    FixedDenotes(m, d);
  }

  function Printed(fl: Rounding, lines: seq<int>, ds: seq<nat>): seq<string>
    requires |lines| == |ds|
  {
    seq(|lines|, i requires 0 <= i < |lines| => FromMinor(fl, lines[i] as real, ds[i]))
  }

  lemma {:induction false} SumsAgree(amounts: seq<string>, lines: seq<int>, ds: seq<nat>)
    requires |amounts| == |lines| == |ds|
    requires forall i :: 0 <= i < |lines| ==> ValueOf(amounts[i]) == Unscaled(lines[i] as real, ds[i])
    ensures SumOfValues(amounts) == Worth(lines, ds)
  {
    if lines != [] {
      var n := |lines| - 1;
      SumsAgree(amounts[..n], lines[..n], ds[..n]);
    }
  }

  lemma PrintedWorth(fl: Rounding, lines: seq<int>, ds: seq<nat>)
    requires Rounds(fl) && |lines| == |ds|
    requires forall i :: 0 <= i < |lines| ==> 0 <= lines[i] <= BOUND && ds[i] <= MAX_DIGITS
    ensures SumOfValues(Printed(fl, lines, ds)) == Worth(lines, ds)
  {
    var amounts := Printed(fl, lines, ds);
    forall i | 0 <= i < |lines| ensures ValueOf(amounts[i]) == Unscaled(lines[i] as real, ds[i]) {
      PrintsItsValue(fl, lines[i], ds[i]);
    }
    SumsAgree(amounts, lines, ds);
  }

  lemma LinesPrint(fl: Rounding, digits: Digits, items: seq<Item>)
    requires Rounds(fl) && Supported(digits) && InRange(Lines(fl, digits, items))
    ensures SumOfValues(ToDto(fl, digits, items).lines) == Worth(Lines(fl, digits, items), LineDigits(digits, items))
  {
    var lines, ds := Lines(fl, digits, items), LineDigits(digits, items);
    LinesWithinTotal(lines);
    MinorsAreExact(fl, digits, items);
    assert ToDto(fl, digits, items).lines == Printed(fl, lines, ds);
    PrintedWorth(fl, lines, ds);
  }

  lemma SubtotalPrints(fl: Rounding, digits: Digits, items: seq<Item>)
    requires Rounds(fl) && Supported(digits) && InRange(Lines(fl, digits, items))
    ensures ValueOf(ToDto(fl, digits, items).subtotal) ==
      Unscaled(Total(Lines(fl, digits, items)) as real, digits(Currency(items)))
  {
    MinorsAreExact(fl, digits, items);
    LinesWithinTotal(Lines(fl, digits, items));
    PrintsItsValue(fl, Total(Lines(fl, digits, items)), digits(Currency(items)));
  }

  lemma UnscaledAdds(a: int, b: int, d: nat)
    ensures Unscaled((a + b) as real, d) == Unscaled(a as real, d) + Unscaled(b as real, d)
    ensures Unscaled(0.0, d) == 0.0
  {}

  lemma {:induction false} SameDigitsAdd(lines: seq<int>, ds: seq<nat>, d: nat)
    requires |lines| == |ds| && forall i :: 0 <= i < |ds| ==> ds[i] == d
    ensures Worth(lines, ds) == Unscaled(Total(lines) as real, d)
  {
    UnscaledAdds(0, 0, d);
    if lines != [] {
      var n := |lines| - 1;
      SameDigitsAdd(lines[..n], ds[..n], d);
      UnscaledAdds(Total(lines[..n]), lines[n], d);
    }
  }

  /** In a cart of one currency the printed subtotal is exactly the sum of the printed line totals. */
  lemma SubtotalIsTheSum(fl: Rounding, digits: Digits, items: seq<Item>)
    requires Rounds(fl) && Supported(digits) && InRange(Lines(fl, digits, items))
    requires forall i :: 0 <= i < |items| ==> items[i].currency == items[0].currency
    ensures var t := ToDto(fl, digits, items); ValueOf(t.subtotal) == SumOfValues(t.lines)
  {
    SubtotalPrints(fl, digits, items);
    LinesPrint(fl, digits, items);
    SameDigitsAdd(Lines(fl, digits, items), LineDigits(digits, items), digits(Currency(items)));
  }

  // ---------------------------------------------------------------- what a cart costs

  /** The price, in the digits of its currency, is a whole number of minor units; the quantity is not negative. */
  ghost predicate PricedAt(digits: Digits, i: Item, m: nat) {
    i.quantity >= 0 && m <= BOUND && Value(i.amount) == Some(Unscaled(m as real, digits(i.currency)))
  }

  ghost predicate Priced(digits: Digits, items: seq<Item>, ms: seq<nat>) {
    |ms| == |items| && forall i :: 0 <= i < |items| ==> PricedAt(digits, items[i], ms[i])
  }

  function Pay(m: nat, i: Item): int { Product(m, i.quantity) }

  function Product(m: int, q: int): int { m * q }

  /** The minor units of the whole cart, currencies aside. */
  function Bill(items: seq<Item>, ms: seq<nat>): int
    requires |ms| == |items|
  {
    if items == [] then 0 else var n := |items| - 1; Bill(items[..n], ms[..n]) + Pay(ms[n], items[n])
  }

  /** Price times quantity, added up. */
  function Cost(items: seq<Item>): real {
    if items == [] then 0.0 else var n := |items| - 1; Cost(items[..n]) + Extended(items[n])
  }

  function Extended(i: Item): real {
    Times(Price(i), i.quantity as real)
  }

  function Price(i: Item): real {
    var v := Value(i.amount);
    if v.Some? then v.value else 0.0
  }

  lemma LineOfPrice(fl: Rounding, digits: Digits, i: Item, m: nat)
    requires Rounds(fl) && Supported(digits) && PricedAt(digits, i, m)
    ensures Unit(fl, digits, i) == m && Line(fl, digits, i) == Pay(m, i) >= 0
  {
    MinorOfExact(fl, i.amount, m, digits(i.currency));
  }

  lemma {:induction false} BillIsTotal(items: seq<Item>, ms: seq<nat>, lines: seq<int>)
    requires |ms| == |items| == |lines| && forall i :: 0 <= i < |items| ==> lines[i] == Pay(ms[i], items[i])
    ensures Total(lines) == Bill(items, ms)
  {
    if items != [] {
      var n := |items| - 1;
      BillIsTotal(items[..n], ms[..n], lines[..n]);
    }
  }

  lemma UnscaledMultiplies(m: int, q: int, d: nat)
    ensures Unscaled(Product(m, q) as real, d) == Times(Unscaled(m as real, d), q as real)
  {
    assert (m * q) as real == m as real * q as real;
    QuotientMultiplies(m as real, q as real, Pow10(d) as real);
  }

  lemma QuotientMultiplies(m: real, q: real, p: real)
    requires p >= 1.0
    ensures m * q / p == m / p * q
  {
    assert m == m / p * p;
    Regroup(m / p, p, q);
  }

  lemma Regroup(a: real, p: real, q: real)
    requires p >= 1.0
    ensures a * p * q / p == a * q
  {
    assert a * p * q == a * q * p;
  }

  /** In the digits of its currency a line's minor units are price times quantity. */
  lemma PayIsExtended(digits: Digits, i: Item, m: nat)
    requires PricedAt(digits, i, m)
    ensures Price(i) == Unscaled(m as real, digits(i.currency))
    ensures Unscaled(Pay(m, i) as real, digits(i.currency)) == Extended(i)
  {
    UnscaledMultiplies(m, i.quantity, digits(i.currency));
  }

  lemma LinesOfPrices(fl: Rounding, digits: Digits, items: seq<Item>, ms: seq<nat>)
    requires Rounds(fl) && Supported(digits) && Priced(digits, items, ms) && Bill(items, ms) <= BOUND
    ensures var lines := Lines(fl, digits, items);
      && InRange(lines) && Total(lines) == Bill(items, ms)
      && forall i :: 0 <= i < |items| ==> lines[i] == Pay(ms[i], items[i])
  {
    var lines := Lines(fl, digits, items);
    forall i | 0 <= i < |items| ensures lines[i] == Pay(ms[i], items[i]) && lines[i] >= 0 {
      LineOfPrice(fl, digits, items[i], ms[i]);
    }
    BillIsTotal(items, ms, lines);
  }

  /** What a line shows is its price and, exactly, price times quantity. */
  lemma LineCosts(fl: Rounding, digits: Digits, items: seq<Item>, ms: seq<nat>, i: nat)
    requires Rounds(fl) && Supported(digits) && Priced(digits, items, ms) && Bill(items, ms) <= BOUND && i < |items|
    ensures var t := ToDto(fl, digits, items);
      && |t.units| == |t.lines| == |items|
      && ValueOf(t.units[i]) == Price(items[i])
      && ValueOf(t.lines[i]) == Extended(items[i])
  {
    LinesOfPrices(fl, digits, items, ms);
    LinesWithinTotal(Lines(fl, digits, items));
    MinorsAreExact(fl, digits, items);
    LineOfPrice(fl, digits, items[i], ms[i]);
    PrintsItsValue(fl, ms[i], digits(items[i].currency));
    PrintsItsValue(fl, Pay(ms[i], items[i]), digits(items[i].currency));
    PayIsExtended(digits, items[i], ms[i]);
  }

  lemma {:induction false} BillIsCost(digits: Digits, items: seq<Item>, ms: seq<nat>, d: nat)
    requires Priced(digits, items, ms) && forall i :: 0 <= i < |items| ==> digits(items[i].currency) == d
    ensures Unscaled(Bill(items, ms) as real, d) == Cost(items)
  {
    UnscaledAdds(0, 0, d);
    if items != [] {
      var n := |items| - 1;
      BillIsCost(digits, items[..n], ms[..n], d);
      UnscaledAdds(Bill(items[..n], ms[..n]), Pay(ms[n], items[n]), d);
      PayIsExtended(digits, items[n], ms[n]);
    }
  }

  /** The subtotal is the minor units of all lines, in the digits of the first one's currency or of rupees. */
  lemma SubtotalIsBill(fl: Rounding, digits: Digits, items: seq<Item>, ms: seq<nat>)
    requires Rounds(fl) && Supported(digits) && Priced(digits, items, ms) && Bill(items, ms) <= BOUND
    ensures var t := ToDto(fl, digits, items);
      && t.currency == (if items == [] then "INR" else items[0].currency)
      && ValueOf(t.subtotal) == Unscaled(Bill(items, ms) as real, digits(t.currency))
  {
    LinesOfPrices(fl, digits, items, ms);
    SubtotalPrints(fl, digits, items);
  }

  /** In a cart of one currency it is exactly the sum of price times quantity. */
  lemma SubtotalCosts(fl: Rounding, digits: Digits, items: seq<Item>, ms: seq<nat>)
    requires Rounds(fl) && Supported(digits) && Priced(digits, items, ms) && Bill(items, ms) <= BOUND
    requires forall i :: 0 <= i < |items| ==> items[i].currency == items[0].currency
    ensures var t := ToDto(fl, digits, items);
      ValueOf(t.subtotal) == Cost(items) && forall i :: 0 <= i < |items| ==> t.currency == items[i].currency
  {
    SubtotalIsBill(fl, digits, items, ms);
    BillIsCost(digits, items, ms, digits(ToDto(fl, digits, items).currency));
  }

  /** The number of pieces, whatever they cost. */
  lemma {:induction false} PiecesAddUp(a: seq<Item>, b: seq<Item>)
    ensures Pieces(a + b) == Pieces(a) + Pieces(b) && Pieces([]) == 0
    ensures forall i: Item :: Pieces([i]) == i.quantity
    decreases |b|
  {
    assert forall i: Item :: [i][..0] == [];
    if b == [] {
      assert a + b == a;
    } else {
      PiecesAddUp(a, b[..|b| - 1]);
      assert (a + b)[..|a + b| - 1] == a + b[..|b| - 1];
    }
  }

  // ---------------------------------------------------------------- carts of several currencies

  lemma {:induction false} PowersGrow(d: nat, e: nat)
    requires d < e
    ensures Pow10(d) < Pow10(e)
  {
    if d + 1 < e { PowersGrow(d, e - 1); }
  }

  lemma FewerDigitsWorthMore(m: int, d: nat, e: nat)
    requires d < e && m > 0
    ensures Unscaled(m as real, d) > Unscaled(m as real, e)
  {
    PowersGrow(d, e);
    SmallerQuotient(m as real, Pow10(d) as real, Pow10(e) as real);
  }

  lemma SmallerQuotient(m: real, p: real, q: real)
    requires m > 0.0 && 0.0 < p < q
    ensures m / p > m / q
  {
    var x, y := m / p, m / q;
    assert x * p == m && y * q == m;
    PositiveQuotient(m, q);
    LargerProduct(y, p, q);
    CancelFactor(y, x, p);
  }

  lemma PositiveQuotient(m: real, q: real)
    requires m > 0.0 && q > 0.0
    ensures m / q > 0.0
  {}

  lemma LargerProduct(y: real, p: real, q: real)
    requires y > 0.0 && p < q
    ensures y * p < y * q
  {}

  lemma CancelFactor(y: real, x: real, p: real)
    requires y * p < x * p && p > 0.0
    ensures y < x
  {}

  /** Some line is worth something and printed in other digits than the subtotal. */
  ghost predicate SomeMisread(lines: seq<int>, ds: seq<nat>, d: nat)
    requires |lines| == |ds|
  {
    exists i :: 0 <= i < |lines| && lines[i] > 0 && ds[i] != d
  }

  /** None of the digits lies below `d`, or none above. */
  ghost predicate OneSided(ds: seq<nat>, d: nat, above: bool) {
    forall i :: 0 <= i < |ds| ==> if above then ds[i] >= d else ds[i] <= d
  }

  /** A line in more digits is worth less than the subtotal takes it for, one in fewer digits more. */
  lemma {:induction false} OtherDigitsWeighOther(lines: seq<int>, ds: seq<nat>, d: nat, above: bool)
    requires |lines| == |ds| && OneSided(ds, d, above) && forall i :: 0 <= i < |lines| ==> lines[i] >= 0
    ensures if above then Worth(lines, ds) <= Unscaled(Total(lines) as real, d)
      else Worth(lines, ds) >= Unscaled(Total(lines) as real, d)
    ensures Worth(lines, ds) == Unscaled(Total(lines) as real, d) <==> !SomeMisread(lines, ds, d)
  {
    UnscaledAdds(0, 0, d);
    if lines != [] {
      var n := |lines| - 1;
      OtherDigitsWeighOther(lines[..n], ds[..n], d, above);
      UnscaledAdds(Total(lines[..n]), lines[n], d);
      if lines[n] > 0 && ds[n] > d { FewerDigitsWorthMore(lines[n], d, ds[n]); }
      if lines[n] > 0 && ds[n] < d { FewerDigitsWorthMore(lines[n], ds[n], d); }
      UnscaledAdds(0, 0, ds[n]);
      LastMisread(lines, ds, d);
    }
  }

  lemma LastMisread(lines: seq<int>, ds: seq<nat>, d: nat)
    requires |lines| == |ds| && lines != []
    ensures var n := |lines| - 1;
      SomeMisread(lines, ds, d) <==> SomeMisread(lines[..n], ds[..n], d) || (lines[n] > 0 && ds[n] != d)
  {
    var n := |lines| - 1;
    if SomeMisread(lines[..n], ds[..n], d) {
      var i :| 0 <= i < n && lines[..n][i] > 0 && ds[..n][i] != d;
      assert lines[i] > 0 && ds[i] != d;
    }
    if i :| 0 <= i < n && lines[i] > 0 && ds[i] != d { assert lines[..n][i] > 0 && ds[..n][i] != d; }
  }

  /** What the lines in fewer digits lose in the subtotal, and what those in more digits gain. */
  function Lost(lines: seq<int>, ds: seq<nat>, d: nat): real
    requires |lines| == |ds|
  {
    if lines == [] then 0.0
    else
      var n := |lines| - 1;
      Lost(lines[..n], ds[..n], d)
        + if ds[n] < d then Unscaled(lines[n] as real, ds[n]) - Unscaled(lines[n] as real, d) else 0.0
  }

  function Gained(lines: seq<int>, ds: seq<nat>, d: nat): real
    requires |lines| == |ds|
  {
    if lines == [] then 0.0
    else
      var n := |lines| - 1;
      Gained(lines[..n], ds[..n], d)
        + if ds[n] > d then Unscaled(lines[n] as real, d) - Unscaled(lines[n] as real, ds[n]) else 0.0
  }

  lemma {:induction false} LossesAndGains(lines: seq<int>, ds: seq<nat>, d: nat)
    requires |lines| == |ds|
    ensures Worth(lines, ds) == Unscaled(Total(lines) as real, d) + Lost(lines, ds, d) - Gained(lines, ds, d)
  {
    UnscaledAdds(0, 0, d);
    if lines != [] {
      var n := |lines| - 1;
      LossesAndGains(lines[..n], ds[..n], d);
      UnscaledAdds(Total(lines[..n]), lines[n], d);
    }
  }

  /**
   * In every cart, whatever its currencies, the printed subtotal is the sum of the printed line totals if and only if
   * what the lines in fewer digits than the first one's lose in it is what the lines in more digits gain.
   */
  lemma MixedSubtotalIff(fl: Rounding, digits: Digits, items: seq<Item>)
    requires Rounds(fl) && Supported(digits) && InRange(Lines(fl, digits, items))
    ensures var t, lines, ds, d :=
      ToDto(fl, digits, items), Lines(fl, digits, items), LineDigits(digits, items), digits(Currency(items));
      ValueOf(t.subtotal) == SumOfValues(t.lines) <==> Lost(lines, ds, d) == Gained(lines, ds, d)
  {
    SubtotalPrints(fl, digits, items);
    LinesPrint(fl, digits, items);
    LossesAndGains(Lines(fl, digits, items), LineDigits(digits, items), digits(Currency(items)));
  }

  /**
   * If none has fewer digits than the first (or none more), that is so
   * only if the lines in other digits are worth nothing.
   */
  lemma OneSidedSubtotalIff(fl: Rounding, digits: Digits, items: seq<Item>, above: bool)
    requires Rounds(fl) && Supported(digits) && InRange(Lines(fl, digits, items))
    requires OneSided(LineDigits(digits, items), digits(Currency(items)), above)
    ensures var t, lines, ds, d :=
      ToDto(fl, digits, items), Lines(fl, digits, items), LineDigits(digits, items), digits(Currency(items));
      ValueOf(t.subtotal) == SumOfValues(t.lines) <==> !SomeMisread(lines, ds, d)
  {
    var lines, ds, d := Lines(fl, digits, items), LineDigits(digits, items), digits(Currency(items));
    MixedSubtotalIff(fl, digits, items);
    LossesAndGains(lines, ds, d);
    OtherDigitsWeighOther(lines, ds, d, above);
  }

  // ---------------------------------------------------------------- two carts

  lemma Numerals()
    ensures Fixed(100, 2) == "1.00" && Fixed(1, 0) == "1" && Fixed(110, 3) == "0.110"
  {
    assert Numeral(1) == "1" && Numeral(10) == "10" && Numeral(11) == "11";
    assert Numeral(100) == "100" && Numeral(110) == "110";
    assert Zeros(1) == "0";
  }

  lemma UnitOf(fl: Rounding, digits: Digits, currency: string, m: nat)
    requires Rounds(fl) && m <= BOUND && digits(currency) <= MAX_DIGITS
    ensures Line(fl, digits, Item(Fixed(m, digits(currency)), currency, 1)) == m
  {
    FixedDenotes(m, digits(currency));
    MinorOfExact(fl, Fixed(m, digits(currency)), m, digits(currency));
  }

  function RupeeAndYen(): seq<Item> {
    [Item("1.00", "INR", 1), Item("1", "JPY", 1)]
  }

  lemma RupeeAndYenLines(fl: Rounding, digits: Digits)
    requires Rounds(fl) && digits("INR") == 2 && digits("JPY") == 0
    ensures Lines(fl, digits, RupeeAndYen()) == [100, 1] && LineDigits(digits, RupeeAndYen()) == [2, 0]
  {
    RupeeLine(fl, digits);
    YenLine(fl, digits);
    var lines := Lines(fl, digits, RupeeAndYen());
    assert |lines| == 2 && lines[0] == 100 && lines[1] == 1;
  }

  lemma RupeeLine(fl: Rounding, digits: Digits)
    requires Rounds(fl) && digits("INR") == 2
    ensures Line(fl, digits, RupeeAndYen()[0]) == 100
  {
    Numerals();
    UnitOf(fl, digits, "INR", 100);
  }

  lemma YenLine(fl: Rounding, digits: Digits)
    requires Rounds(fl) && digits("JPY") == 0
    ensures Line(fl, digits, RupeeAndYen()[1]) == 1
  {
    Numerals();
    UnitOf(fl, digits, "JPY", 1);
  }

  /** One rupee and one yen: the subtotal says 1.01 where the lines say 1.00 and 1. */
  lemma RupeeAndYenDiffer(fl: Rounding, digits: Digits)
    requires Rounds(fl) && Supported(digits) && digits("INR") == 2 && digits("JPY") == 0
    ensures var t := ToDto(fl, digits, RupeeAndYen()); ValueOf(t.subtotal) == 1.01 && SumOfValues(t.lines) == 2.0
  {
    RupeeAndYenLines(fl, digits);
    SumOfTwo(100, 1, 2, 0);
    SubtotalPrints(fl, digits, RupeeAndYen());
    LinesPrint(fl, digits, RupeeAndYen());
    SmallAmounts();
  }

  lemma SmallAmounts()
    ensures Unscaled(100.0, 2) == 1.0 && Unscaled(101.0, 2) == 1.01 && Unscaled(1.0, 0) == 1.0
  {
    assert Pow10(2) == 100 && Pow10(0) == 1;
  }

  lemma SumOfTwo(a: int, b: int, d: nat, e: nat)
    ensures Total([a, b]) == a + b && Worth([a, b], [d, e]) == Unscaled(a as real, d) + Unscaled(b as real, e)
  {
    assert [a, b][..1] == [a] && [a][..0] == [] && [d, e][..1] == [d] && [d][..0] == [];
    assert Total([a]) == a && Worth([a], [d]) == Unscaled(a as real, d);
  }

  /**
   * With a third line of 110 thousandths the errors cancel: three
   * lines in three different digits, and a right subtotal.
   */
  lemma ErrorsCanCancel()
    ensures SomeMisread([100, 1, 110], [2, 0, 3], 2)
    ensures Lost([100, 1, 110], [2, 0, 3], 2) == Gained([100, 1, 110], [2, 0, 3], 2)
  {
    var lines, ds := [100, 1, 110], [2, 0, 3];
    assert lines[1] > 0 && ds[1] != 2;
    assert lines[..2] == [100, 1] && [100, 1][..1] == [100] && [100][..0] == [] && ds[..2] == [2, 0]
      && [2, 0][..1] == [2] && [2][..0] == [];
    assert Pow10(0) == 1 && Pow10(2) == 100 && Pow10(3) == 1000;
    assert Lost([100], [2], 2) == 0.0 && Lost([100, 1], [2, 0], 2) == 0.99 && Lost(lines, ds, 2) == 0.99;
    assert Gained([100], [2], 2) == 0.0 && Gained([100, 1], [2, 0], 2) == 0.0 && Gained(lines, ds, 2) == 0.99;
  }
}

/** The product search query: filters quoted, escaped and joined with AND, and the grammar it is read by. */
module SearchQuery {
  import opened Schema

  datatype Params = Params(productType: Option<string>, vendor: Option<string>, tag: Option<string>,
    search: Option<string>)

  // ---------------------------------------------------------------- writing

  /** `value.replace(/c/g, text)`. */
  function Replaced(value: string, c: char, text: string): string {
    if value == "" then "" else (if value[0] == c then text else [value[0]]) + Replaced(value[1..], c, text)
  }

  function Quote(value: string): string {
    "'" + Replaced(Replaced(value, '\\', "\\\\"), '\'', "\\'") + "'"
  }

  /** An absent and an empty filter are both skipped. */
  predicate Given(filter: Option<string>) { filter.Some? && filter.value != "" }

  /** A condition of a query; without a field it searches the default ones. */
  datatype Term = Term(field: Option<string>, value: string)

  const ACTIVE := Term(Some("status"), "ACTIVE")

  function FilterTerm(field: Option<string>, filter: Option<string>): seq<Term> {
    if Given(filter) then [Term(field, filter.value)] else []
  }

  /** The conditions the caller asks for. */
  function Filters(p: Params): seq<Term> {
    FilterTerm(Some("product_type"), p.productType) + FilterTerm(Some("vendor"), p.vendor)
      + FilterTerm(Some("tag"), p.tag) + FilterTerm(None, p.search)
  }

  function Written(t: Term): string {
    if t.field.Some? then t.field.value + ":" + Quote(t.value) else Quote(t.value)
  }

  function WrittenAll(ts: seq<Term>): seq<string> {
    seq(|ts|, i requires 0 <= i < |ts| => Written(ts[i]))
  }

  /** What is pushed for a filter. */
  function Part(prefix: string, filter: Option<string>): seq<string> {
    if Given(filter) then [prefix + Quote(filter.value)] else []
  }

  function Parts(p: Params): seq<string> {
    ["status:ACTIVE"] + Part("product_type:", p.productType) + Part("vendor:", p.vendor) + Part("tag:", p.tag)
      + Part("", p.search)
  }

  // ---------------------------------------------------------------- reading

  /**
   * After the opening quote: the value up to the first unescaped quote,
   * where a backslash takes the next character as it is.
   */
  function Unquoted(s: string, value: string): (r: Option<(string, string)>)
    ensures r.Some? ==> |r.value.1| < |s|
  {
    if s == "" then None
    else if s[0] == '\'' then Some((value, s[1..]))
    else if s[0] == '\\' then if |s| == 1 then None else Unquoted(s[2..], value + [s[1]])
    else Unquoted(s[1..], value + [s[0]])
  }

  predicate WordChar(c: char) {
    'a' <= c <= 'z' || 'A' <= c <= 'Z' || c == '_'
  }

  function Word(s: string): (w: string)
    ensures |w| <= |s|
  {
    if s == "" || !WordChar(s[0]) then "" else [s[0]] + Word(s[1..])
  }

  /** A value, quoted or a bare word, and what follows it. */
  function ReadValue(s: string): (r: Option<(string, string)>)
    ensures r.Some? ==> |r.value.1| < |s|
  {
    if s != "" && s[0] == '\'' then Unquoted(s[1..], "")
    else if Word(s) != "" then Some((Word(s), s[|Word(s)|..]))
    else None
  }

  /** A value, with a field and a colon before it or not. */
  function ReadTerm(s: string): (r: Option<(Term, string)>)
    ensures r.Some? ==> |r.value.1| < |s|
  {
    var field := Word(s);
    if field != "" && |field| < |s| && s[|field|] == ':' then
      var v := ReadValue(s[|field| + 1..]);
      if v.None? then None else Some((Term(Some(field), v.value.0), v.value.1))
    else
      var v := ReadValue(s);
      if v.None? then None else Some((Term(None, v.value.0), v.value.1))
  }

  const AND := " AND "

  /** Terms separated by AND. */
  function Parse(query: string): Option<seq<Term>>
    decreases |query|
  {
    var t := ReadTerm(query);
    if t.None? then None
    else if t.value.1 == "" then Some([t.value.0])
    else if AND <= t.value.1 then
      var rest := Parse(t.value.1[|AND|..]);
      if rest.None? then None else Some([t.value.0] + rest.value)
    else None
  }

  // ---------------------------------------------------------------- what is read is what was asked for

  function EscapedChar(c: char): string {
    if c == '\\' then "\\\\" else if c == '\'' then "\\'" else [c]
  }

  function Escaped(value: string): string {
    if value == "" then "" else EscapedChar(value[0]) + Escaped(value[1..])
  }

  lemma {:induction false} ReplacedAdds(a: string, b: string, c: char, text: string)
    ensures Replaced(a + b, c, text) == Replaced(a, c, text) + Replaced(b, c, text)
  {
    if a == "" { assert a + b == b; }
    else {
      assert (a + b)[1..] == a[1..] + b;
      ReplacedAdds(a[1..], b, c, text);
    }
  }

  /** The two passes, backslashes first, escape every character once. */
  lemma {:induction false} TwoPassesEscape(value: string)
    ensures Replaced(Replaced(value, '\\', "\\\\"), '\'', "\\'") == Escaped(value)
  {
    if value != "" {
      var c, rest := value[0], Replaced(value[1..], '\\', "\\\\");
      var first := if c == '\\' then "\\\\" else [c];
      TwoPassesEscape(value[1..]);
      ReplacedAdds(first, rest, '\'', "\\'");
      OneCharEscapes(c);
    }
  }

  lemma OneReplaced(c: char, x: char, text: string)
    ensures Replaced([c], x, text) == if c == x then text else [c]
  {
    assert [c][1..] == "";
  }

  lemma OneCharEscapes(c: char)
    ensures Replaced(if c == '\\' then "\\\\" else [c], '\'', "\\'") == EscapedChar(c)
  {
    OneReplaced(c, '\'', "\\'");
    if c == '\\' {
      assert "\\\\" == [c] + [c];
      ReplacedAdds([c], [c], '\'', "\\'");
    }
  }

  lemma {:induction false} QuotedReads(value: string, rest: string, before: string)
    ensures Unquoted(Escaped(value) + ("'" + rest), before) == Some((before + value, rest))
    decreases |value|
  {
    if value == "" {
      assert Escaped(value) + ("'" + rest) == "'" + rest && ("'" + rest)[1..] == rest && before + value == before;
    } else {
      var c, more := value[0], Escaped(value[1..]) + ("'" + rest);
      assert Escaped(value) + ("'" + rest) == EscapedChar(c) + more;
      CharReads(c, more, before);
      QuotedReads(value[1..], rest, before + [c]);
      assert before + [c] + value[1..] == before + value;
    }
  }

  lemma CharReads(c: char, more: string, before: string)
    ensures Unquoted(EscapedChar(c) + more, before) == Unquoted(more, before + [c])
  {
    var s := EscapedChar(c) + more;
    if c == '\\' || c == '\'' {
      assert s[0] == '\\' && s[1] == c && s[2..] == more;
    } else {
      assert s[0] == c && s[1..] == more;
    }
  }

  /** A quoted value is read back whatever it contains. */
  lemma QuoteReads(value: string, rest: string)
    ensures ReadValue(Quote(value) + rest) == Some((value, rest))
  {
    TwoPassesEscape(value);
    var s := Quote(value) + rest;
    assert s[1..] == Escaped(value) + ("'" + rest);
    QuotedReads(value, rest, "");
    assert "" + value == value;
  }

  predicate IsWord(w: string) {
    w != "" && forall i :: 0 <= i < |w| ==> WordChar(w[i])
  }

  lemma {:induction false} WordReads(w: string, rest: string)
    requires forall i :: 0 <= i < |w| ==> WordChar(w[i])
    requires rest == "" || !WordChar(rest[0])
    ensures Word(w + rest) == w
  {
    if w == "" { assert w + rest == rest; }
    else {
      assert (w + rest)[0] == w[0] && (w + rest)[1..] == w[1..] + rest;
      WordReads(w[1..], rest);
    }
  }

  lemma FieldReads(field: string, value: string, rest: string)
    requires IsWord(field)
    ensures var v := ReadValue(value + rest);
      ReadTerm(field + ":" + value + rest) == if v.None? then None else Some((Term(Some(field), v.value.0), v.value.1))
  {
    var s := field + ":" + value + rest;
    assert s == field + (":" + value + rest);
    WordReads(field, ":" + value + rest);
    assert s[|field|] == ':' && s[|field| + 1..] == value + rest;
  }

  lemma TermReads(t: Term, rest: string)
    requires t.field.Some? ==> IsWord(t.field.value)
    ensures ReadTerm(Written(t) + rest) == Some((t, rest))
  {
    QuoteReads(t.value, rest);
    if t.field.Some? {
      FieldReads(t.field.value, Quote(t.value), rest);
      assert t.field.value + ":" + Quote(t.value) + rest == Written(t) + rest;
    } else {
      var s := Quote(t.value) + rest;
      assert s[0] == '\'' && Word(s) == "";
    }
  }

  lemma ParseContinues(s: string, t: Term, rest: string)
    requires ReadTerm(s) == Some((t, AND + rest))
    ensures Parse(s) == if Parse(rest).None? then None else Some([t] + Parse(rest).value)
  {
    assert (AND + rest)[|AND|..] == rest;
  }

  lemma ParseEnds(s: string, t: Term)
    requires ReadTerm(s) == Some((t, ""))
    ensures Parse(s) == Some([t])
  {}

  lemma JoinUnfolds(parts: seq<string>)
    requires |parts| > 1
    ensures Join(parts, AND) == parts[0] + (AND + Join(parts[1..], AND))
  {}

  lemma OneTermReads(t: Term)
    requires t.field.Some? ==> IsWord(t.field.value)
    ensures Parse(Written(t)) == Some([t])
  {
    TermReads(t, "");
    assert Written(t) + "" == Written(t);
    ParseEnds(Written(t), t);
  }

  lemma NextTermReads(t: Term, rest: string)
    requires t.field.Some? ==> IsWord(t.field.value)
    ensures Parse(Written(t) + (AND + rest)) == if Parse(rest).None? then None else Some([t] + Parse(rest).value)
  {
    TermReads(t, AND + rest);
    ParseContinues(Written(t) + (AND + rest), t, rest);
  }

  lemma {:induction false} TermsRead(ts: seq<Term>)
    requires ts != [] && forall t :: t in ts && t.field.Some? ==> IsWord(t.field.value)
    ensures Parse(Join(WrittenAll(ts), AND)) == Some(ts)
    decreases |ts|
  {
    var parts, first := WrittenAll(ts), ts[0];
    assert first in ts && parts[0] == Written(first);
    if |ts| == 1 {
      OneTermReads(first);
      assert ts == [first];
    } else {
      assert parts[1..] == WrittenAll(ts[1..]);
      JoinUnfolds(parts);
      NextTermReads(first, Join(parts[1..], AND));
      TermsRead(ts[1..]);
      assert [first] + ts[1..] == ts;
    }
  }

  lemma StatusReads(rest: string)
    requires rest == "" || rest[0] == ' '
    ensures ReadTerm("status:ACTIVE" + rest) == Some((ACTIVE, rest))
  {
    WordReads("ACTIVE", rest);
    assert ("ACTIVE" + rest)[|"ACTIVE"|..] == rest;
    FieldReads("status", "ACTIVE", rest);
    assert "status" + ":" + "ACTIVE" + rest == "status:ACTIVE" + rest;
  }

  lemma FiltersHaveWords(p: Params)
    ensures forall t :: t in Filters(p) && t.field.Some? ==> IsWord(t.field.value)
  {
    assert IsWord("product_type") && IsWord("vendor") && IsWord("tag");
  }

  lemma WrittenAdds(a: seq<Term>, b: seq<Term>)
    ensures WrittenAll(a + b) == WrittenAll(a) + WrittenAll(b)
  {}

  lemma PartIsWritten(name: string, prefix: string, filter: Option<string>)
    requires name + ":" == prefix
    ensures Part(prefix, filter) == WrittenAll(FilterTerm(Some(name), filter))
  {}

  lemma SearchIsWritten(filter: Option<string>)
    ensures Part("", filter) == WrittenAll(FilterTerm(None, filter))
  {
    if Given(filter) { assert "" + Quote(filter.value) == Quote(filter.value); }
  }

  lemma FieldNames()
    ensures "product_type" + ":" == "product_type:" && "vendor" + ":" == "vendor:" && "tag" + ":" == "tag:"
  {}

  lemma FourWritten(a: seq<Term>, b: seq<Term>, c: seq<Term>, d: seq<Term>)
    ensures WrittenAll(a + b + c + d) == WrittenAll(a) + WrittenAll(b) + WrittenAll(c) + WrittenAll(d)
  {
    WrittenAdds(a, b);
    WrittenAdds(a + b, c);
    WrittenAdds(a + b + c, d);
  }

  lemma Regrouped(s: seq<string>, a: seq<string>, b: seq<string>, c: seq<string>, d: seq<string>)
    ensures s + a + b + c + d == s + (a + b + c + d)
  {}

  /** The parts are the status condition and the written filters. */
  lemma PartsAreWritten(p: Params)
    ensures Parts(p) == ["status:ACTIVE"] + WrittenAll(Filters(p))
  {
    FieldNames();
    PartIsWritten("product_type", "product_type:", p.productType);
    PartIsWritten("vendor", "vendor:", p.vendor);
    PartIsWritten("tag", "tag:", p.tag);
    SearchIsWritten(p.search);
    FourWritten(FilterTerm(Some("product_type"), p.productType), FilterTerm(Some("vendor"), p.vendor),
      FilterTerm(Some("tag"), p.tag), FilterTerm(None, p.search));
    Regrouped(["status:ACTIVE"], Part("product_type:", p.productType), Part("vendor:", p.vendor), Part("tag:", p.tag),
      Part("", p.search));
  }

  lemma StatusAloneReads()
    ensures Parse("status:ACTIVE") == Some([ACTIVE])
  {
    StatusReads("");
    assert "status:ACTIVE" + "" == "status:ACTIVE";
    ParseEnds("status:ACTIVE", ACTIVE);
  }

  lemma StatusFirstReads(rest: string)
    ensures Parse("status:ACTIVE" + (AND + rest)) ==
      if Parse(rest).None? then None else Some([ACTIVE] + Parse(rest).value)
  {
    StatusReads(AND + rest);
    ParseContinues("status:ACTIVE" + (AND + rest), ACTIVE, rest);
  }

  /**
   * The query read back is the status condition and exactly the filters supplied, whatever their values contain:
   * quotes, backslashes or ` AND `.
   */
  lemma QueryRoundTrip(p: Params)
    ensures Parse(Join(Parts(p), AND)) == Some([ACTIVE] + Filters(p))
  {
    var ts, parts := Filters(p), Parts(p);
    PartsAreWritten(p);
    FiltersHaveWords(p);
    assert parts[0] == "status:ACTIVE" && parts[1..] == WrittenAll(ts);
    if ts == [] {
      StatusAloneReads();
      assert [ACTIVE] + ts == [ACTIVE];
    } else {
      JoinUnfolds(parts);
      StatusFirstReads(Join(WrittenAll(ts), AND));
      TermsRead(ts);
    }
  }

  /** The filters supplied: each that is neither absent nor empty, under its field, in this order. */
  lemma SuppliedFilters(p: Params)
    ensures Filters(p) ==
      (if p.productType in {None, Some("")} then [] else [Term(Some("product_type"), p.productType.value)])
      + (if p.vendor in {None, Some("")} then [] else [Term(Some("vendor"), p.vendor.value)])
      + (if p.tag in {None, Some("")} then [] else [Term(Some("tag"), p.tag.value)])
      + (if p.search in {None, Some("")} then [] else [Term(None, p.search.value)])
  {
    forall f: Option<string> ensures Given(f) <==> f !in {None, Some("")} {
      if f.Some? && f.value == "" { assert f == Some(""); }
    }
  }

  // ---------------------------------------------------------------- the repository

  /** `buildSearchQuery`. */
  method BuildSearchQuery(p: Params) returns (query: string)
    ensures query == Join(Parts(p), AND)
    ensures Parse(query) == Some([ACTIVE] + Filters(p))
  {
    var parts := ["status:ACTIVE"];
    if Given(p.productType) { parts := parts + ["product_type:" + Quote(p.productType.value)]; }
    if Given(p.vendor) { parts := parts + ["vendor:" + Quote(p.vendor.value)]; }
    if Given(p.tag) { parts := parts + ["tag:" + Quote(p.tag.value)]; }
    if Given(p.search) { parts := parts + ["" + Quote(p.search.value)]; }
    assert parts == Parts(p);
    QueryRoundTrip(p);
    query := Join(parts, AND);
  }
}

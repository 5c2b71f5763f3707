/**
 * The value resolver: `lookupValue` walks a dotted key path through the
 * nested data mapping and turns the value it reaches into text.
 */
module Values {
  import opened Wrappers
  import opened Text

  /**
   * A dynamically typed data value. `Int` stands for Go's `int` and `int64`,
   * `Float` for `float64` and `Stringer` for any `fmt.Stringer`; the last two
   * carry the text that `%v` and `String()` produce. `Map` is a nested
   * `map[string]interface{}`; `Other` is every other Go type (slices, nil,
   * other map and integer types, ...).
   */
  datatype Value =
    | Str(s: string)
    | Int(i: int)
    | Bool(b: bool)
    | Float(printed: string)
    | Stringer(text: string)
    | Map(entries: map<string, Value>)
    | Other

  /** The decimal digit character for `d`. */
  function DigitChar(d: nat): (c: char)
    requires d < 10
    ensures '0' <= c <= '9'
  {
    ('0' as int + d) as char
  }

  predicate IsDigits(s: string) {
    forall i :: 0 <= i < |s| ==> '0' <= s[i] <= '9'
  }

  /** Decimal digits of `n`, most significant first, as `%v` prints them. */
  function NatToDecimal(n: nat): (r: string)
    ensures r != [] && IsDigits(r)
    ensures r[0] == '0' ==> n == 0
  {
    if n < 10 then [DigitChar(n)] else NatToDecimal(n / 10) + [DigitChar(n % 10)]
  }

  /** The number that a string of decimal digits denotes. */
  function DecimalValue(s: string): nat
    requires IsDigits(s)
  {
    if s == [] then 0 else 10 * DecimalValue(s[..|s| - 1]) + (s[|s| - 1] as int - '0' as int)
  }

  /** Printing a number in decimal and reading it back gives the number. */
  lemma {:induction false} DecimalRoundTrip(n: nat)
    ensures DecimalValue(NatToDecimal(n)) == n
  {
    if n >= 10 {
      DecimalRoundTrip(n / 10);
      var r := NatToDecimal(n);
      assert r[..|r| - 1] == NatToDecimal(n / 10);
    }
  }

  /** `fmt.Sprintf("%v", i)` for an integer. */
  function FormatInt(i: int): (r: string)
  {
    if i < 0 then "-" + NatToDecimal(-i) else NatToDecimal(i)
  }

  /** Reads back what `FormatInt` prints. */
  function ParseInt(s: string): int
    requires s != [] && (s[0] == '-' ==> IsDigits(s[1..])) && (s[0] != '-' ==> IsDigits(s))
  {
    if s[0] == '-' then 0 - DecimalValue(s[1..]) as int else DecimalValue(s)
  }

  /** Printed integers are never empty and read back as the same integer. */
  lemma FormatIntRoundTrip(i: int)
    ensures FormatInt(i) != []
    ensures ParseInt(FormatInt(i)) == i
  {
    if i < 0 {
      assert ("-" + NatToDecimal(-i))[1..] == NatToDecimal(-i);
      DecimalRoundTrip(-i);
    } else {
      DecimalRoundTrip(i);
    }
  }

  /** `fmt.Sprintf("%v", b)` for a boolean. */
  function FormatBool(b: bool): (r: string)
  {
    if b then "true" else "false"
  }

  /**
   * The textual form of the value the path reached (the type switch at the end
   * of `lookupValue`): strings as they are, Stringers by their text, integers,
   * floats and booleans by `%v`, anything else (mappings included) empty.
   */
  function Stringify(v: Value): (r: string)
    ensures v.Str? ==> r == v.s
    ensures v.Map? || v.Other? ==> r == []
    ensures v.Int? || v.Bool? ==> r != []
  {
    match v
    case Str(s) => s
    case Stringer(text) => text
    case Int(i) => FormatIntRoundTrip(i); FormatInt(i)
    case Float(printed) => printed
    case Bool(b) => FormatBool(b)
    case Map(_) => []
    case Other => []
  }

  /**
   * Follows `parts` from `current`: each step requires a mapping holding the
   * segment. `None` when a step meets a non-mapping or a missing segment.
   */
  function Walk(current: Value, parts: seq<string>): (r: Option<Value>)
    ensures r.Some? && parts != [] ==> current.Map? && parts[0] in current.entries
    decreases |parts|
  {
    if parts == [] then Some(current)
    else match current
      case Map(m) => if parts[0] in m then Walk(m[parts[0]], parts[1..]) else None
      case _ => None
  }

  /** What `lookupValue(data, path)` returns. */
  function Resolve(data: map<string, Value>, path: string): (r: string)
    ensures '.' !in path && path !in data ==> r == []
    ensures '.' !in path && path in data ==> r == Stringify(data[path])
  {
    var parts := Split(path, '.');
    assert '.' !in path ==> Walk(Map(data), parts) == if path in data then Some(data[path]) else None by {
      if '.' !in path {
        SplitNoSeparator(path, '.');
        assert [path][1..] == [];
      }
    }
    match Walk(Map(data), parts)
    case None => []
    case Some(v) => Stringify(v)
  }

  /** `lookupValue`: the loop that reassigns `current` segment by segment. */
  method LookupValue(data: map<string, Value>, path: string) returns (r: string)
    ensures r == Resolve(data, path)
  {
    var parts := Split(path, '.');
    var current := Map(data);
    var i := 0;
    while i < |parts|
      invariant 0 <= i <= |parts|
      invariant Walk(Map(data), parts) == Walk(current, parts[i..])
    {
      if !current.Map? {
        return [];
      }
      var m := current.entries;
      if parts[i] !in m {
        return [];
      }
      assert parts[i..][1..] == parts[i + 1..];
      current := m[parts[i]];
      i := i + 1;
    }
    r := Stringify(current);
  }

  /** Walking a path in two pieces is walking the first piece, then the second. */
  lemma {:induction false} WalkAppend(v: Value, p: seq<string>, q: seq<string>)
    ensures Walk(v, p + q) == match Walk(v, p) case None => None case Some(w) => Walk(w, q)
    decreases |p|
  {
    if p == [] {
      assert p + q == q;
    } else {
      assert (p + q)[1..] == p[1..] + q;
      if v.Map? && p[0] in v.entries {
        WalkAppend(v.entries[p[0]], p[1..], q);
      }
    }
  }

  /**
   * Resolution fails to the empty text at any depth: if the first `i`
   * segments lead to a value that is not a mapping, or that lacks segment `i`,
   * the lookup gives `""`.
   */
  lemma MissingSegment(data: map<string, Value>, path: string, i: nat, w: Value)
    requires i < |Split(path, '.')|
    requires Walk(Map(data), Split(path, '.')[..i]) == Some(w)
    requires !w.Map? || Split(path, '.')[i] !in w.entries
    ensures Resolve(data, path) == []
  {
    var parts := Split(path, '.');
    assert parts == parts[..i] + parts[i..];
    WalkAppend(Map(data), parts[..i], parts[i..]);
  }

  /** A path that reaches a string yields that string, unchanged. */
  lemma StringTerminal(data: map<string, Value>, path: string, s: string)
    requires Walk(Map(data), Split(path, '.')) == Some(Str(s))
    ensures Resolve(data, path) == s
  {
  }

  /** The value `v` placed under the nested keys `parts`. */
  function Nest(parts: seq<string>, v: Value): (r: Value)
    ensures parts != [] ==> r.Map? && r.entries.Keys == {parts[0]}
    decreases |parts|
  {
    if parts == [] then v else Map(map[parts[0] := Nest(parts[1..], v)])
  }

  lemma {:induction false} WalkNest(parts: seq<string>, v: Value)
    ensures Walk(Nest(parts, v), parts) == Some(v)
    decreases |parts|
  {
    if parts != [] {
      WalkNest(parts[1..], v);
    }
  }

  /**
   * Resolution works through mappings of any depth: a value nested under the
   * keys `parts` is found by the dotted path that joins them.
   */
  lemma NestedResolve(parts: seq<string>, v: Value)
    requires |parts| >= 1
    requires forall i :: 0 <= i < |parts| ==> '.' !in parts[i]
    ensures Nest(parts, v).Map?
    ensures Resolve(Nest(parts, v).entries, Join(parts, '.')) == Stringify(v)
  {
    WalkNest(parts, v);
    ResolvePath(Nest(parts, v).entries, parts, v);
  }

  /**
   * In any data, siblings included: when the dot-free keys `parts` lead to
   * `v`, the dotted path that joins them resolves to the text of `v`.
   */
  lemma ResolvePath(data: map<string, Value>, parts: seq<string>, v: Value)
    requires |parts| >= 1
    requires forall i :: 0 <= i < |parts| ==> '.' !in parts[i]
    requires Walk(Map(data), parts) == Some(v)
    ensures Resolve(data, Join(parts, '.')) == Stringify(v)
  {
    SplitJoin(parts, '.');
  }
}

/**
 * The filter-chain parser: `parseFilterChain` turns the raw `|`-separated
 * filter text of one placeholder into an ordered list of filter invocations.
 */
module FilterChain {
  import opened Wrappers
  import opened Text

  /** One filter invocation; `args` is only used by `default`. */
  datatype Filter = Filter(name: string, args: string)

  const DefaultName: string := "default"
  const DefaultPrefix: string := "default:"

  predicate IsQuote(c: char) { c == '"' || c == '\'' }

  /**
   * The argument of `default:` with one matching pair of surrounding straight
   * quotes removed, when it has at least two characters and is so wrapped.
   */
  function StripQuotes(arg: string): (r: string)
    ensures r == arg || (|arg| >= 2 && IsQuote(arg[0]) && arg == [arg[0]] + r + [arg[0]])
  {
    if |arg| >= 2 && IsQuote(arg[0]) && arg[|arg| - 1] == arg[0] then arg[1..|arg| - 1] else arg
  }

  /** Quoting with either quote character is undone by `StripQuotes`. */
  lemma StripQuotesRoundTrip(q: char, s: string)
    requires IsQuote(q)
    ensures StripQuotes([q] + s + [q]) == s
  {
    assert ([q] + s + [q])[1..|s| + 1] == s;
  }

  /** Text not wrapped in a matching pair of quotes is kept as it is. */
  lemma StripQuotesUnquoted(arg: string)
    requires |arg| < 2 || !IsQuote(arg[0]) || arg[|arg| - 1] != arg[0]
    ensures StripQuotes(arg) == arg
  {
  }

  /**
   * One `|`-separated segment: trimmed; empty segments give no filter; a
   * `default:` segment gives `default` with its trimmed, unquoted argument;
   * any other segment is a bare filter name.
   */
  function ParseSegment(part: string): (r: Option<Filter>)
    ensures r.None? <==> TrimSpace(part) == []
    ensures r.Some? ==> r.value.name != [] && (r.value.args == [] || r.value.name == DefaultName)
    ensures r.Some? && !HasPrefix(TrimSpace(part), DefaultPrefix) ==> r.value == Filter(TrimSpace(part), [])
    ensures HasPrefix(TrimSpace(part), DefaultPrefix)
            ==> r == Some(Filter(DefaultName, StripQuotes(TrimSpace(TrimSpace(part)[|DefaultPrefix|..]))))
  {
    var p := TrimSpace(part);
    if p == [] then None
    else if HasPrefix(p, DefaultPrefix) then
      Some(Filter(DefaultName, StripQuotes(TrimSpace(p[|DefaultPrefix|..]))))
    else Some(Filter(p, []))
  }

  /** The filters of the segments, in segment order, empty segments dropped. */
  function ParseSegments(parts: seq<string>): (fs: seq<Filter>)
    ensures |fs| <= |parts|
  {
    if parts == [] then []
    else
      match ParseSegment(parts[0])
      case None => ParseSegments(parts[1..])
      case Some(f) => [f] + ParseSegments(parts[1..])
  }

  /** What `parseFilterChain(raw)` returns. */
  function ParseChain(raw: string): (fs: seq<Filter>)
    ensures raw == [] ==> fs == []
  {
    if raw == [] then [] else ParseSegments(Split(raw, '|'))
  }

  /** The quote test of `parseFilterChain`, written as the code does it. */
  method Unquote(arg: string) returns (r: string)
    ensures r == StripQuotes(arg)
  {
    r := arg;
    if |arg| >= 2 {
      if (arg[0] == '"' && arg[|arg| - 1] == '"') || (arg[0] == '\'' && arg[|arg| - 1] == '\'') {
        r := arg[1..|arg| - 1];
      }
    }
  }

  /** The handling of one segment in the loop of `parseFilterChain`. */
  method ParsePart(part: string) returns (f: Option<Filter>)
    ensures f == ParseSegment(part)
  {
    var p := TrimSpace(part);
    if p == [] {
      return None;
    }
    if HasPrefix(p, DefaultPrefix) {
      var arg := Unquote(TrimSpace(p[|DefaultPrefix|..]));
      return Some(Filter(DefaultName, arg));
    }
    return Some(Filter(p, []));
  }

  /** `parseFilterChain`: the loop that appends one filter per non-empty segment. */
  method ParseFilterChain(raw: string) returns (filters: seq<Filter>)
    ensures filters == ParseChain(raw)
  {
    if raw == [] {
      return [];
    }
    var parts := Split(raw, '|');
    filters := [];
    var i := 0;
    while i < |parts|
      invariant 0 <= i <= |parts|
      invariant filters + ParseSegments(parts[i..]) == ParseSegments(parts)
    {
      assert parts[i..][1..] == parts[i + 1..];
      var f := ParsePart(parts[i]);
      if f.Some? {
        filters := filters + [f.value];
      }
      i := i + 1;
    }
    assert parts[|parts|..] == [];
  }

  /** Segment order is kept: the chain of joined segments is the joined chains. */
  lemma {:induction false} ParseSegmentsAppend(a: seq<string>, b: seq<string>)
    ensures ParseSegments(a + b) == ParseSegments(a) + ParseSegments(b)
  {
    if a == [] {
      assert a + b == b;
    } else {
      assert (a + b)[1..] == a[1..] + b;
      ParseSegmentsAppend(a[1..], b);
    }
  }

  /** Every filter comes from some segment: its parse is that filter. */
  lemma {:induction false} ParseSegmentsFrom(parts: seq<string>, j: nat)
    requires j < |ParseSegments(parts)|
    ensures exists i :: 0 <= i < |parts| && ParseSegment(parts[i]) == Some(ParseSegments(parts)[j])
  {
    var fs := ParseSegments(parts);
    match ParseSegment(parts[0])
    case None =>
      ParseSegmentsFrom(parts[1..], j);
      var i :| 0 <= i < |parts[1..]| && ParseSegment(parts[1..][i]) == Some(fs[j]);
      assert parts[i + 1] == parts[1..][i];
    case Some(f) =>
      if j > 0 {
        ParseSegmentsFrom(parts[1..], j - 1);
        var i :| 0 <= i < |parts[1..]| && ParseSegment(parts[1..][i]) == Some(fs[j]);
        assert parts[i + 1] == parts[1..][i];
      }
  }

  /** A well-formed entry: a name that is non-empty, trimmed and free of `|`, and an argument free of `|`. */
  predicate WellFormed(f: Filter) {
    f.name != [] && Trimmed(f.name) && '|' !in f.name && '|' !in f.args
  }

  lemma SegmentWellFormed(part: string)
    requires '|' !in part
    requires ParseSegment(part).Some?
    ensures WellFormed(ParseSegment(part).value)
  {
    var p := TrimSpace(part);
    TrimSpaceNoChar(part, '|');
    if HasPrefix(p, DefaultPrefix) {
      var rest := p[|DefaultPrefix|..];
      assert '|' !in rest by {
        forall k | 0 <= k < |rest| ensures rest[k] != '|' {
          assert rest[k] == p[k + |DefaultPrefix|];
        }
      }
      TrimSpaceNoChar(rest, '|');
      var arg := TrimSpace(rest);
      assert '|' !in StripQuotes(arg) by {
        if StripQuotes(arg) != arg {
          forall k | 0 <= k < |arg| - 2 ensures StripQuotes(arg)[k] != '|' {
            assert StripQuotes(arg)[k] == arg[k + 1];
          }
        }
      }
      assert Trimmed(DefaultName) by { assert DefaultName[0] == 'd' && DefaultName[|DefaultName| - 1] == 't'; }
    }
  }

  /**
   * Every entry of a parsed chain has a non-empty, trimmed name with no `|`
   * in it, and the chain has no more entries than the text has segments.
   */
  lemma ChainWellFormed(raw: string)
    ensures |ParseChain(raw)| <= |Split(raw, '|')|
    ensures forall j :: 0 <= j < |ParseChain(raw)| ==> WellFormed(ParseChain(raw)[j])
  {
    if raw != [] {
      var parts := Split(raw, '|');
      forall j | 0 <= j < |ParseChain(raw)| ensures WellFormed(ParseChain(raw)[j]) {
        ParseSegmentsFrom(parts, j);
        var i :| 0 <= i < |parts| && ParseSegment(parts[i]) == Some(ParseChain(raw)[j]);
        SegmentWellFormed(parts[i]);
      }
    }
  }

  /** The segment `default:` followed by a quoted `x` gives `default` with argument exactly `x`. */
  lemma DefaultSegment(q: char, x: string)
    requires IsQuote(q)
    ensures ParseSegment(DefaultPrefix + [q] + x + [q]) == Some(Filter(DefaultName, x))
  {
    var p := DefaultPrefix + [q] + x + [q];
    assert p[0] == 'd' && p[|p| - 1] == q;
    TrimSpaceOfTrimmed(p);
    assert p[|DefaultPrefix|..] == [q] + x + [q];
    TrimSpaceOfTrimmed([q] + x + [q]);
    StripQuotesRoundTrip(q, x);
  }

  /** The segment text that denotes a filter: `default:'arg'` or the bare name. */
  function FormatFilter(f: Filter): string
  {
    if f.name == DefaultName then DefaultPrefix + "'" + f.args + "'" else f.name
  }

  /** An entry that a printed chain reproduces exactly. */
  predicate Printable(f: Filter) {
    if f.name == DefaultName then '|' !in f.args
    else WellFormed(f) && f.args == [] && !HasPrefix(f.name, DefaultPrefix)
  }

  function FormatSegments(fs: seq<Filter>): (ps: seq<string>)
    ensures |ps| == |fs|
  {
    if fs == [] then [] else [FormatFilter(fs[0])] + FormatSegments(fs[1..])
  }

  /** Printing a chain and parsing the text gives the chain back. */
  lemma ParseFormatChain(fs: seq<Filter>)
    requires forall j :: 0 <= j < |fs| ==> Printable(fs[j])
    ensures ParseChain(Join(FormatSegments(fs), '|')) == fs
  {
    if fs != [] {
      var ps := FormatSegments(fs);
      FormatSegmentsNoPipe(fs);
      FormatSegmentsParse(fs);
      SplitJoin(ps, '|');
      assert Join(ps, '|') != [] by {
        if |ps| == 1 { assert ps[0] == FormatFilter(fs[0]); } else { assert ps[0] + ['|'] + Join(ps[1..], '|') == Join(ps, '|'); }
      }
    }
  }

  /** A printable entry prints without `|` and parses back to itself. */
  lemma FormatFilterParses(f: Filter)
    requires Printable(f)
    ensures '|' !in FormatFilter(f)
    ensures ParseSegment(FormatFilter(f)) == Some(f)
  {
    if f.name == DefaultName {
      assert FormatFilter(f) == DefaultPrefix + ['\''] + f.args + ['\''];
      DefaultSegment('\'', f.args);
    } else {
      TrimSpaceOfTrimmed(f.name);
    }
  }

  /** The printed segments contain no `|`. */
  lemma FormatSegmentsNoPipe(fs: seq<Filter>)
    requires forall j :: 0 <= j < |fs| ==> Printable(fs[j])
    ensures forall i :: 0 <= i < |fs| ==> '|' !in FormatSegments(fs)[i]
  {
    forall i | 0 <= i < |fs| ensures '|' !in FormatSegments(fs)[i] {
      FormatSegmentAt(fs, i);
      FormatFilterParses(fs[i]);
    }
  }

  /** Segment `i` of a printed chain is entry `i` printed. */
  lemma {:induction false} FormatSegmentAt(fs: seq<Filter>, i: nat)
    requires i < |fs|
    ensures FormatSegments(fs)[i] == FormatFilter(fs[i])
  {
    if i > 0 {
      FormatSegmentAt(fs[1..], i - 1);
    }
  }

  /** The printed segments parse back, one by one, to the chain. */
  lemma {:induction false} FormatSegmentsParse(fs: seq<Filter>)
    requires forall j :: 0 <= j < |fs| ==> Printable(fs[j])
    ensures ParseSegments(FormatSegments(fs)) == fs
  {
    if fs != [] {
      FormatSegmentsParse(fs[1..]);
      FormatFilterParses(fs[0]);
      var ps := FormatSegments(fs);
      assert ps[0] == FormatFilter(fs[0]);
      assert ps[1..] == FormatSegments(fs[1..]);
      assert ParseSegments(ps) == [fs[0]] + ParseSegments(ps[1..]);
      assert [fs[0]] + fs[1..] == fs;
    }
  }

  /**
   * The filter text the placeholder matcher captures for the entries `fs`:
   * each printed entry after ` | `, as in `{{key | f1 | f2}}`.
   */
  function Captured(fs: seq<Filter>): string
  {
    if fs == [] then [] else Join([" "] + CapturedSegments(fs), '|')
  }

  /** The segments of a captured text after its leading blank one: each printed entry, padded with spaces. */
  function CapturedSegments(fs: seq<Filter>): (ps: seq<string>)
    ensures |ps| == |fs|
  {
    if fs == [] then []
    else if |fs| == 1 then [" " + FormatFilter(fs[0])]
    else [" " + FormatFilter(fs[0]) + " "] + CapturedSegments(fs[1..])
  }

  /** A printed entry with a space on either side still parses to the entry. */
  lemma PaddedSegmentParses(f: Filter)
    requires Printable(f)
    ensures '|' !in " " + FormatFilter(f) && '|' !in " " + FormatFilter(f) + " "
    ensures ParseSegment(" " + FormatFilter(f)) == Some(f)
    ensures ParseSegment(" " + FormatFilter(f) + " ") == Some(f)
  {
    var x := FormatFilter(f);
    FormatFilterParses(f);
    if f.name == DefaultName {
      assert x[0] == 'd' && x[|x| - 1] == '\'';
    }
    TrimSpacePadded(x);
    TrimSpaceOfTrimmed(x);
  }

  /** Segment `i` of a captured text's padded segments is entry `i` printed, padded. */
  lemma {:induction false} CapturedSegmentAt(fs: seq<Filter>, i: nat)
    requires i < |fs|
    ensures CapturedSegments(fs)[i] == " " + FormatFilter(fs[i]) + (if i + 1 < |fs| then " " else "")
  {
    if i > 0 {
      CapturedSegmentAt(fs[1..], i - 1);
    }
  }

  /** The padded segments contain no `|`. */
  lemma CapturedSegmentsNoPipe(fs: seq<Filter>)
    requires forall j :: 0 <= j < |fs| ==> Printable(fs[j])
    ensures forall i :: 0 <= i < |fs| ==> '|' !in CapturedSegments(fs)[i]
  {
    forall i | 0 <= i < |fs| ensures '|' !in CapturedSegments(fs)[i] {
      CapturedSegmentAt(fs, i);
      PaddedSegmentParses(fs[i]);
    }
  }

  /** The padded segments parse back, one by one, to the chain. */
  lemma {:induction false} CapturedSegmentsParse(fs: seq<Filter>)
    requires forall j :: 0 <= j < |fs| ==> Printable(fs[j])
    ensures ParseSegments(CapturedSegments(fs)) == fs
  {
    if fs != [] {
      PaddedSegmentParses(fs[0]);
      var ps := CapturedSegments(fs);
      if |fs| == 1 {
        var one: seq<string> := [" " + FormatFilter(fs[0])];
        assert one[1..] == [];
        assert ParseSegments(one) == [fs[0]];
      } else {
        CapturedSegmentsParse(fs[1..]);
        assert ps[1..] == CapturedSegments(fs[1..]);
        assert ParseSegments(ps) == [fs[0]] + ParseSegments(ps[1..]);
        assert [fs[0]] + fs[1..] == fs;
      }
    }
  }

  /** The captured filter text of a printable chain parses back to that chain. */
  lemma CapturedChain(fs: seq<Filter>)
    requires forall j :: 0 <= j < |fs| ==> Printable(fs[j])
    ensures ParseChain(Captured(fs)) == fs
  {
    if fs != [] {
      var parts := [" "] + CapturedSegments(fs);
      CapturedSegmentsNoPipe(fs);
      CapturedSegmentsParse(fs);
      assert forall i :: 0 <= i < |parts| ==> '|' !in parts[i];
      SplitJoin(parts, '|');
      assert Join(parts, '|') == parts[0] + ['|'] + Join(parts[1..], '|');
      assert parts[1..] == CapturedSegments(fs);
      assert ParseSegment(" ") == None by {
        assert TrimLeft(" ") == [] by { assert " "[1..] == []; }
      }
    }
  }

  /**
   * The filter text ` | default:'a'` (a blank segment, then a quoted default)
   * parses to the single entry `default` with argument `a`.
   */
  lemma QuotedDefaultChain(a: string)
    requires '|' !in a
    ensures ParseChain(" | " + FormatFilter(Filter(DefaultName, a))) == [Filter(DefaultName, a)]
  {
    var f := Filter(DefaultName, a);
    var x := FormatFilter(f);
    var seg := " " + x;
    var raw := " | " + x;
    FormatFilterParses(f);
    assert Split(raw, '|') == [" ", seg] by {
      assert raw == " " + ['|'] + seg;
      SplitPrefix(" ", seg, '|');
      SplitNoSeparator(seg, '|');
    }
    assert ParseSegment(seg) == Some(f) by {
      assert TrimLeft(seg) == TrimLeft(x) by { assert seg[1..] == x; }
    }
    assert ParseSegment(" ") == None by {
      assert TrimLeft(" ") == "" by { assert " "[1..] == ""; }
    }
    assert ParseSegments([seg]) == [f] by {
      var one: seq<string> := [seg];
      assert one[1..] == [];
    }
    assert ParseSegments([" ", seg]) == [f] by {
      assert [" ", seg][1..] == [seg];
    }
    assert raw != [];
  }
}

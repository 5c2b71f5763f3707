/**
 * Filters: the built-in string transforms registered by `NewTemplateEngine`,
 * and the left-to-right application of a parsed filter chain to a value.
 */
module Filters {
  import opened Text
  import opened FilterChain

  /** `FilterFunc`: a pure transform of one string. */
  type FilterFunc = string -> string

  /** The filter table of an engine, by name. */
  type Registry = map<string, FilterFunc>

  /** The `capitalize` built-in: upper-cases the first character only. */
  function Capitalize(input: string): (r: string)
    ensures |r| == |input|
    ensures input != [] ==> r[0] == ToUpper(input)[0] && r[1..] == input[1..]
  {
    if input == [] then [] else [Upper(input[0])] + input[1..]
  }

  /** Capitalizing twice is capitalizing once. */
  lemma CapitalizeIdempotent(s: string)
    ensures Capitalize(Capitalize(s)) == Capitalize(s)
  {
    if s != [] {
      assert Capitalize(s)[1..] == s[1..];
    }
  }

  /** Capitalizing a word gives a word. */
  lemma CapitalizeWord(w: string)
    requires IsWord(w)
    ensures IsWord(Capitalize(w))
  {
    var c := Capitalize(w);
    forall i | 0 <= i < |c| ensures !IsSpace(c[i]) {
      if i > 0 {
        assert c[i] == c[1..][i - 1] == w[1..][i - 1];
      }
    }
  }

  /** Every word capitalized, in order. */
  function CapitalizeAll(ws: seq<string>): (r: seq<string>)
    ensures |r| == |ws|
    ensures forall i :: 0 <= i < |ws| ==> r[i] == Capitalize(ws[i])
  {
    if ws == [] then [] else [Capitalize(ws[0])] + CapitalizeAll(ws[1..])
  }

  /**
   * The `title` built-in: the whitespace-separated words of the input, each
   * with its first character upper-cased, joined with single spaces.
   */
  function Title(s: string): (r: string)
    ensures Fields(r) == CapitalizeAll(Fields(s))
  {
    var cs := CapitalizeAll(Fields(s));
    CapitalizeAllWords(Fields(s));
    FieldsJoin(cs);
    Join(cs, ' ')
  }

  /** Capitalized words are still words. */
  lemma CapitalizeAllWords(ws: seq<string>)
    requires forall i :: 0 <= i < |ws| ==> IsWord(ws[i])
    ensures forall i :: 0 <= i < |ws| ==> IsWord(CapitalizeAll(ws)[i])
  {
    forall i | 0 <= i < |ws| ensures IsWord(CapitalizeAll(ws)[i]) {
      CapitalizeWord(ws[i]);
    }
  }

  /** Title-casing twice is title-casing once. */
  lemma TitleIdempotent(s: string)
    ensures Title(Title(s)) == Title(s)
  {
    var cs := CapitalizeAll(Fields(s));
    forall i | 0 <= i < |cs| ensures Capitalize(cs[i]) == cs[i] {
      CapitalizeIdempotent(Fields(s)[i]);
    }
    assert CapitalizeAll(cs) == cs;
  }

  /**
   * The `sentencecase` built-in: the trimmed input with its first character
   * upper-cased and every other character lower-cased.
   */
  function SentenceCase(s: string): (r: string)
    ensures |r| == |TrimSpace(s)|
  {
    var t := TrimSpace(s);
    if t == [] then [] else [Upper(t[0])] + ToLower(t[1..])
  }

  /**
   * An independent description of `sentencecase`: trim, lower-case everything,
   * then capitalize.
   */
  lemma SentenceCaseIsCapitalizedLower(s: string)
    ensures SentenceCase(s) == Capitalize(ToLower(TrimSpace(s)))
  {
    var t := TrimSpace(s);
    if t != [] {
      assert Upper(Lower(t[0])) == Upper(t[0]);
      assert ToLower(t)[1..] == ToLower(t[1..]);
    }
  }

  /** Sentence-cased text has no whitespace at either end. */
  lemma SentenceCaseTrimmed(s: string)
    ensures Trimmed(SentenceCase(s))
  {
    var t := TrimSpace(s);
    TrimSpaceSlice(s);
    var r := SentenceCase(s);
    if t != [] {
      assert r[|r| - 1] == (if |t| == 1 then Upper(t[0]) else Lower(t[|t| - 1]));
    }
  }

  /** Sentence-casing sentence-cased text changes nothing. */
  lemma SentenceCaseIdempotent(s: string)
    ensures SentenceCase(SentenceCase(s)) == SentenceCase(s)
  {
    var t := TrimSpace(s);
    var r := SentenceCase(s);
    if t != [] {
      SentenceCaseTrimmed(s);
      TrimSpaceOfTrimmed(r);
      assert r[1..] == ToLower(t[1..]);
      assert ToLower(r[1..]) == r[1..];
      assert Upper(r[0]) == r[0];
    }
  }

  /**
   * The filter table after construction: `titlecase` and `sentence` hold the
   * same functions as `title` and `sentencecase` did at that moment.
   */
  function Builtins(): (r: Registry)
    ensures DefaultName !in r
  {
    map[
      "uppercase" := ToUpper,
      "lowercase" := ToLower,
      "trim" := TrimSpace,
      "capitalize" := Capitalize,
      "title" := Title,
      "titlecase" := Title,
      "sentencecase" := SentenceCase,
      "sentence" := SentenceCase
    ]
  }

  /**
   * One step of the chain: `default` fills an empty value with its argument;
   * otherwise a registered name applies its function and an unknown name
   * leaves the value alone.
   */
  function ApplyFilter(reg: Registry, f: Filter, val: string): (r: string)
    ensures f.name == DefaultName && val == [] ==> r == f.args
    ensures f.name !in reg && (f.name != DefaultName || val != []) ==> r == val
    ensures f.name in reg && (f.name != DefaultName || val != []) ==> r == reg[f.name](val)
  {
    if f.name == DefaultName && val == [] then f.args
    else if f.name in reg then reg[f.name](val)
    else val
  }

  /** The whole chain, applied strictly from left to right. */
  function ApplyChain(reg: Registry, chain: seq<Filter>, val: string): (r: string)
    ensures val != [] && (forall j :: 0 <= j < |chain| ==> chain[j].name !in reg) ==> r == val
    decreases |chain|
  {
    if chain == [] then val else ApplyChain(reg, chain[1..], ApplyFilter(reg, chain[0], val))
  }

  /** Applying a chain in two pieces: the second piece sees the first piece's result. */
  lemma {:induction false} ApplyChainAppend(reg: Registry, c1: seq<Filter>, c2: seq<Filter>, val: string)
    ensures ApplyChain(reg, c1 + c2, val) == ApplyChain(reg, c2, ApplyChain(reg, c1, val))
    decreases |c1|
  {
    if c1 == [] {
      assert c1 + c2 == c2;
    } else {
      assert (c1 + c2)[1..] == c1[1..] + c2;
      ApplyChainAppend(reg, c1[1..], c2, ApplyFilter(reg, c1[0], val));
    }
  }

  /** The argument of the first `default` entry with a non-empty argument, or `""`. */
  function Fallback(chain: seq<Filter>): string
    decreases |chain|
  {
    if chain == [] then []
    else if chain[0].name == DefaultName && chain[0].args != [] then chain[0].args
    else Fallback(chain[1..])
  }

  /**
   * When no name in the chain is registered (`default` included), a non-empty
   * value comes through unchanged and an empty one is filled by the first
   * non-empty `default` argument.
   */
  lemma {:induction false} UnregisteredChain(reg: Registry, chain: seq<Filter>, val: string)
    requires forall j :: 0 <= j < |chain| ==> chain[j].name !in reg
    ensures ApplyChain(reg, chain, val) == if val != [] then val else Fallback(chain)
    decreases |chain|
  {
    if chain != [] {
      UnregisteredChain(reg, chain[1..], ApplyFilter(reg, chain[0], val));
    }
  }

  /**
   * Registering a function under a name the chain does not use leaves the
   * chain's result unchanged.
   */
  lemma {:induction false} ChainIgnoresOtherNames(reg: Registry, name: string, fn: FilterFunc, chain: seq<Filter>, val: string)
    requires forall j :: 0 <= j < |chain| ==> chain[j].name != name
    ensures ApplyChain(reg[name := fn], chain, val) == ApplyChain(reg, chain, val)
    decreases |chain|
  {
    if chain != [] {
      ChainIgnoresOtherNames(reg, name, fn, chain[1..], ApplyFilter(reg, chain[0], val));
    }
  }

  /** Order matters: `trim | capitalize` and `capitalize | trim` differ on " a". */
  lemma TrimCapitalizeOrder()
    ensures ApplyChain(Builtins(), [Filter("trim", ""), Filter("capitalize", "")], " a") == "A"
    ensures ApplyChain(Builtins(), [Filter("capitalize", ""), Filter("trim", "")], " a") == "a"
  {
    assert TrimSpace(" a") == "a" by {
      assert TrimLeft(" a") == "a" by { assert " a"[1..] == "a"; }
    }
  }

  /**
   * A `default` placed after `trim` sees the trimmed value, so it fills a
   * blank one; placed before `trim`, it sees the blank value as non-empty.
   */
  lemma TrimDefaultOrder()
    ensures ApplyChain(Builtins(), [Filter("trim", ""), Filter(DefaultName, "X")], "  ") == "X"
    ensures ApplyChain(Builtins(), [Filter(DefaultName, "X"), Filter("trim", "")], "  ") == ""
  {
    assert TrimSpace("  ") == "" by {
      assert TrimLeft("  ") == "" by { assert "  "[1..] == " "; assert " "[1..] == ""; }
    }
    var fill := [Filter("trim", ""), Filter(DefaultName, "X")];
    assert ApplyFilter(Builtins(), fill[0], "  ") == "";
    assert fill[1..] == [Filter(DefaultName, "X")];
    assert ApplyFilter(Builtins(), Filter(DefaultName, "X"), "") == "X";
    assert ApplyChain(Builtins(), [Filter(DefaultName, "X")], "") == "X";
    var keep := [Filter(DefaultName, "X"), Filter("trim", "")];
    assert DefaultName !in Builtins();
    assert ApplyFilter(Builtins(), keep[0], "  ") == "  ";
    assert keep[1..] == [Filter("trim", "")];
    assert ApplyChain(Builtins(), [Filter("trim", "")], "  ") == "";
  }
}

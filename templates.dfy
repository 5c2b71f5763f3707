/**
 * The template engine: its filter table, `AddFilter`, and `Render`, which
 * rebuilds the template around the placeholder matches.
 */
module Templates {
  import opened Wrappers
  import opened Text
  import opened Values
  import opened FilterChain
  import opened Filters

  /**
   * One placeholder match: its byte span `[start, end)` in the template, the
   * key path and the raw filter text (empty when the placeholder has none).
   */
  datatype Match = Match(start: nat, end: nat, key: string, rawFilters: string)

  /**
   * The matches lie inside the template, in order and without overlap, all at
   * or after `last`: what the placeholder matcher guarantees.
   */
  predicate Spans(tpl: string, ms: seq<Match>, last: nat)
    decreases |ms|
  {
    if ms == [] then last <= |tpl|
    else last <= ms[0].start <= ms[0].end <= |tpl| && Spans(tpl, ms[1..], ms[0].end)
  }

  /** The value of a placeholder: its key resolved, then its filter chain applied. */
  function Substitute(reg: Registry, data: map<string, Value>, m: Match): string
  {
    ApplyChain(reg, ParseChain(m.rawFilters), Resolve(data, m.key))
  }

  /** The values of all placeholders, in match order. */
  function Substitutes(reg: Registry, data: map<string, Value>, ms: seq<Match>): seq<string>
  {
    seq(|ms|, i requires 0 <= i < |ms| => Substitute(reg, data, ms[i]))
  }

  /**
   * What a placeholder with value `v` is replaced with: the value, or the
   * placeholder's own matched text when the value is empty, so a non-empty
   * placeholder never vanishes.
   */
  function Replacement(v: string, tpl: string, m: Match): (r: string)
    requires m.start <= m.end <= |tpl|
    ensures v != [] ==> r == v
    ensures v == [] ==> r == tpl[m.start..m.end]
    ensures r == [] ==> m.start == m.end
  {
    if v != [] then v else tpl[m.start..m.end]
  }

  /** Where the last match ends, or `last` when there is none. */
  function LastEnd(tpl: string, ms: seq<Match>, last: nat): (r: nat)
    requires Spans(tpl, ms, last)
    ensures last <= r <= |tpl|
    decreases |ms|
  {
    if ms == [] then last else LastEnd(tpl, ms[1..], ms[0].end)
  }

  /**
   * The text from position `last` on, given the placeholder values `vals`:
   * each gap copied, each placeholder replaced, then the tail.
   */
  function Fill(tpl: string, ms: seq<Match>, vals: seq<string>, last: nat): (r: string)
    requires Spans(tpl, ms, last) && |vals| == |ms|
    ensures ms == [] ==> r == tpl[last..]
    ensures ms != [] ==> tpl[last..ms[0].start] <= r
    ensures var tail := tpl[LastEnd(tpl, ms, last)..];
            |tail| <= |r| && r[|r| - |tail|..] == tail
    decreases |ms|
  {
    if ms == [] then tpl[last..]
    else tpl[last..ms[0].start] + Replacement(vals[0], tpl, ms[0]) + Fill(tpl, ms[1..], vals[1..], ms[0].end)
  }

  /**
   * The rendered text from position `last` on: the template filled with the
   * placeholders' values. Without placeholders the text is returned as it is;
   * the text before the first placeholder and after the last one is copied
   * unchanged.
   */
  function Assemble(reg: Registry, data: map<string, Value>, tpl: string, ms: seq<Match>, last: nat): (r: string)
    requires Spans(tpl, ms, last)
    ensures ms == [] ==> r == tpl[last..]
    ensures ms != [] ==> tpl[last..ms[0].start] <= r
    ensures var tail := tpl[LastEnd(tpl, ms, last)..];
            |tail| <= |r| && r[|r| - |tail|..] == tail
  {
    Fill(tpl, ms, Substitutes(reg, data, ms), last)
  }

  /** One step of the filling after text `b`: the gap, the first replacement, then the rest. */
  lemma FillStep(tpl: string, ms: seq<Match>, vals: seq<string>, last: nat, b: string)
    requires Spans(tpl, ms, last) && |vals| == |ms| && ms != []
    ensures Spans(tpl, ms[1..], ms[0].end)
    ensures b + Fill(tpl, ms, vals, last)
         == (b + tpl[last..ms[0].start] + Replacement(vals[0], tpl, ms[0])) + Fill(tpl, ms[1..], vals[1..], ms[0].end)
  {
    var gap := tpl[last..ms[0].start];
    var piece := Replacement(vals[0], tpl, ms[0]);
    var rest := Fill(tpl, ms[1..], vals[1..], ms[0].end);
    assert Fill(tpl, ms, vals, last) == gap + piece + rest;
    assert b + (gap + piece + rest) == (b + gap + piece) + rest;
  }

  /** With every value empty, each placeholder is written back and the text is unchanged. */
  lemma {:induction false} FillUnchanged(tpl: string, ms: seq<Match>, vals: seq<string>, last: nat)
    requires Spans(tpl, ms, last) && |vals| == |ms|
    requires forall i :: 0 <= i < |vals| ==> vals[i] == []
    ensures Fill(tpl, ms, vals, last) == tpl[last..]
    decreases |ms|
  {
    if ms != [] {
      var m := ms[0];
      assert tpl[last..] == tpl[last..m.start] + tpl[m.start..m.end] + tpl[m.end..];
      var rest := Fill(tpl, ms[1..], vals[1..], m.end);
      FillUnchanged(tpl, ms[1..], vals[1..], m.end);
      assert Fill(tpl, ms, vals, last) == tpl[last..m.start] + Replacement(vals[0], tpl, m) + rest;
    }
  }

  /**
   * When every placeholder's value is empty, each one is written back as it
   * was and the template comes out unchanged.
   */
  lemma AllUnresolved(reg: Registry, data: map<string, Value>, tpl: string, ms: seq<Match>, last: nat)
    requires Spans(tpl, ms, last)
    requires forall i :: 0 <= i < |ms| ==> Substitute(reg, data, ms[i]) == []
    ensures Assemble(reg, data, tpl, ms, last) == tpl[last..]
  {
    FillUnchanged(tpl, ms, Substitutes(reg, data, ms), last);
  }

  /**
   * A template with one placeholder: the text before and after it is kept,
   * and the placeholder becomes its value, or stays as written when that is
   * empty.
   */
  lemma OnePlaceholder(reg: Registry, data: map<string, Value>, before: string, placeholder: string, after: string, key: string, raw: string)
    ensures var tpl := before + placeholder + after;
            var m := Match(|before|, |before| + |placeholder|, key, raw);
            var v := Substitute(reg, data, m);
            Spans(tpl, [m], 0) &&
            Assemble(reg, data, tpl, [m], 0) == before + (if v != [] then v else placeholder) + after
  {
    var tpl := before + placeholder + after;
    var m := Match(|before|, |before| + |placeholder|, key, raw);
    var vals := Substitutes(reg, data, [m]);
    assert tpl[0..m.start] == before;
    assert tpl[m.start..m.end] == placeholder;
    assert tpl[m.end..] == after;
    assert [m][1..] == [];
    assert Fill(tpl, [m], vals, 0) == before + Replacement(vals[0], tpl, m) + Fill(tpl, [], vals[1..], m.end);
  }

  /**
   * A placeholder with a plain key and no filters whose key holds a
   * non-empty string renders as that string, whatever the bracket style (the
   * basic, square-bracket, dollar, angle and percent cases of the tests).
   */
  lemma StringKeyRenders(reg: Registry, data: map<string, Value>, before: string, placeholder: string, after: string, key: string, s: string)
    requires '.' !in key && key in data && data[key] == Str(s) && s != []
    ensures var tpl := before + placeholder + after;
            var m := Match(|before|, |before| + |placeholder|, key, []);
            Spans(tpl, [m], 0) && Assemble(reg, data, tpl, [m], 0) == before + s + after
  {
    SplitNoSeparator(key, '.');
    assert [key][1..] == [];
    assert Walk(Map(data), [key]) == Some(Str(s));
    assert Resolve(data, key) == s;
    assert ParseChain([]) == [];
    OnePlaceholder(reg, data, before, placeholder, after, key, []);
  }

  /**
   * A plain placeholder whose dotted key leads through nested mappings to a
   * non-empty string renders as that string, at any depth (the nested-key
   * case of the tests).
   */
  lemma NestedKeyRenders(reg: Registry, parts: seq<string>, s: string, before: string, placeholder: string, after: string)
    requires |parts| >= 1 && forall i :: 0 <= i < |parts| ==> '.' !in parts[i]
    requires s != []
    ensures var data := Nest(parts, Str(s)).entries;
            var tpl := before + placeholder + after;
            var m := Match(|before|, |before| + |placeholder|, Join(parts, '.'), []);
            Spans(tpl, [m], 0) && Assemble(reg, data, tpl, [m], 0) == before + s + after
  {
    NestedResolve(parts, Str(s));
    assert ParseChain([]) == [];
    OnePlaceholder(reg, Nest(parts, Str(s)).entries, before, placeholder, after, Join(parts, '.'), []);
  }

  /**
   * A placeholder whose filter text is the captured text of a printable
   * chain: the chain is folded over the resolved value, and the placeholder
   * becomes the result, or stays as written when that is empty.
   */
  lemma ChainRenders(reg: Registry, data: map<string, Value>, before: string, placeholder: string, after: string, key: string, fs: seq<Filter>)
    requires forall j :: 0 <= j < |fs| ==> Printable(fs[j])
    ensures var tpl := before + placeholder + after;
            var m := Match(|before|, |before| + |placeholder|, key, Captured(fs));
            var v := ApplyChain(reg, fs, Resolve(data, key));
            Spans(tpl, [m], 0) &&
            Assemble(reg, data, tpl, [m], 0) == before + (if v != [] then v else placeholder) + after
  {
    CapturedChain(fs);
    OnePlaceholder(reg, data, before, placeholder, after, key, Captured(fs));
  }

  /**
   * `{{key | n}}` with a registered filter `n` and a key holding a string:
   * the placeholder becomes the filter's output when that is non-empty (the
   * tests' "uppercase filter" case).
   */
  lemma RegisteredFilterRenders(reg: Registry, data: map<string, Value>, before: string, placeholder: string, after: string, key: string, s: string, n: string)
    requires '.' !in key && key in data && data[key] == Str(s)
    requires Printable(Filter(n, [])) && n != DefaultName && n in reg && reg[n](s) != []
    ensures var tpl := before + placeholder + after;
            var m := Match(|before|, |before| + |placeholder|, key, " | " + n);
            Spans(tpl, [m], 0) && Assemble(reg, data, tpl, [m], 0) == before + reg[n](s) + after
  {
    var f := Filter(n, []);
    assert Captured([f]) == " | " + n by {
      var parts: seq<string> := [" ", " " + n];
      assert CapturedSegments([f]) == [" " + n];
      assert Join(parts, '|') == " " + ['|'] + Join(parts[1..], '|');
      assert parts[1..] == [" " + n];
    }
    assert Resolve(data, key) == s;
    assert ApplyChain(reg, [f], s) == reg[n](s) by {
      assert [f][1..] == [];
    }
    ChainRenders(reg, data, before, placeholder, after, key, [f]);
  }

  /**
   * `{{key | default:'a' | n}}` with the key absent: the default fills the
   * empty value and the registered filter `n` then runs on it (the first
   * placeholder of the tests' "mixed placeholders" case).
   */
  lemma DefaultThenFilterRenders(reg: Registry, data: map<string, Value>, before: string, placeholder: string, after: string, key: string, a: string, n: string)
    requires '.' !in key && key !in data
    requires '|' !in a && a != []
    requires Printable(Filter(n, [])) && n != DefaultName && n in reg && reg[n](a) != []
    ensures var tpl := before + placeholder + after;
            var m := Match(|before|, |before| + |placeholder|, key, " | " + FormatFilter(Filter(DefaultName, a)) + " | " + n);
            Spans(tpl, [m], 0) && Assemble(reg, data, tpl, [m], 0) == before + reg[n](a) + after
  {
    var d, f := Filter(DefaultName, a), Filter(n, []);
    var fs := [d, f];
    assert Captured(fs) == " | " + FormatFilter(d) + " | " + n by {
      assert fs[1..] == [f];
      assert CapturedSegments(fs) == [" " + FormatFilter(d) + " ", " " + n];
      var parts: seq<string> := [" ", " " + FormatFilter(d) + " ", " " + n];
      assert parts[1..][1..] == [" " + n];
      assert Join(parts[1..], '|') == " " + FormatFilter(d) + " " + ['|'] + " " + n;
      assert Join(parts, '|') == " " + ['|'] + Join(parts[1..], '|');
    }
    SplitNoSeparator(key, '.');
    assert Resolve(data, key) == [];
    assert ApplyChain(reg, fs, []) == reg[n](a) by {
      assert fs[1..] == [f] && fs[1..][1..] == [];
    }
    ChainRenders(reg, data, before, placeholder, after, key, fs);
  }

  /**
   * A placeholder `{{key | default:'a'}}` whose key is absent from the data
   * renders as `a` (the "Hi {{name | default:'User'}}" case of the tests).
   */
  lemma DefaultFillsMissingKey(reg: Registry, data: map<string, Value>, before: string, placeholder: string, after: string, key: string, a: string)
    requires '.' !in key && key !in data
    requires '|' !in a && a != []
    ensures var raw := " | " + FormatFilter(Filter(DefaultName, a));
            var tpl := before + placeholder + after;
            var m := Match(|before|, |before| + |placeholder|, key, raw);
            Spans(tpl, [m], 0) && Assemble(reg, data, tpl, [m], 0) == before + a + after
  {
    var raw := " | " + FormatFilter(Filter(DefaultName, a));
    SplitNoSeparator(key, '.');
    assert Resolve(data, key) == [];
    QuotedDefaultChain(a);
    assert ApplyChain(reg, [Filter(DefaultName, a)], []) == a;
    OnePlaceholder(reg, data, before, placeholder, after, key, raw);
  }

  /**
   * The same placeholder whose key holds a non-empty string renders as that
   * string: `default` only fills an empty value (the tests'
   * "fallback not used if key exists" case), as long as no filter named
   * `default` has been registered.
   */
  lemma DefaultKeptWhenPresent(reg: Registry, data: map<string, Value>, before: string, placeholder: string, after: string, key: string, a: string, s: string)
    requires '.' !in key && key in data && data[key] == Str(s) && s != []
    requires '|' !in a && DefaultName !in reg
    ensures var raw := " | " + FormatFilter(Filter(DefaultName, a));
            var tpl := before + placeholder + after;
            var m := Match(|before|, |before| + |placeholder|, key, raw);
            Spans(tpl, [m], 0) && Assemble(reg, data, tpl, [m], 0) == before + s + after
  {
    var raw := " | " + FormatFilter(Filter(DefaultName, a));
    SplitNoSeparator(key, '.');
    assert [key][1..] == [];
    assert Walk(Map(data), [key]) == Some(Str(s));
    assert Resolve(data, key) == s;
    QuotedDefaultChain(a);
    assert ApplyChain(reg, [Filter(DefaultName, a)], s) == s;
    OnePlaceholder(reg, data, before, placeholder, after, key, raw);
  }

  /** The engine: a filter table that `AddFilter` updates in place. */
  class Engine {
    var filters: Registry

    /** `NewTemplateEngine`: registers the built-ins, aliases by copying. */
    constructor ()
      ensures filters == Builtins()
    {
      filters := map[];
      new;
      AddFilter("uppercase", ToUpper);
      AddFilter("lowercase", ToLower);
      AddFilter("trim", TrimSpace);
      AddFilter("capitalize", Capitalize);
      AddFilter("title", Title);
      AddFilter("titlecase", filters["title"]);
      AddFilter("sentencecase", SentenceCase);
      AddFilter("sentence", filters["sentencecase"]);
    }

    /** `AddFilter`: sets the entry for `name` and no other. */
    method AddFilter(name: string, fn: FilterFunc)
      modifies this
      ensures filters == old(filters)[name := fn]
    {
      filters := filters[name := fn];
    }

    /**
     * The filter loop of `Render`: each entry of the chain in turn, `default`
     * filling an empty value, a registered name applying its function.
     */
    method ApplyFilters(chain: seq<Filter>, resolved: string) returns (val: string)
      ensures val == ApplyChain(filters, chain, resolved)
    {
      val := resolved;
      var j := 0;
      while j < |chain|
        invariant 0 <= j <= |chain|
        invariant ApplyChain(filters, chain[j..], val) == ApplyChain(filters, chain, resolved)
      {
        assert chain[j..][1..] == chain[j + 1..];
        var f := chain[j];
        if f.name == DefaultName && val == "" {
          val := f.args;
        } else if f.name in filters {
          val := filters[f.name](val);
        }
        j := j + 1;
      }
      assert chain[|chain|..] == [];
    }

    /**
     * The text written for one placeholder of `Render`: its key looked up, its
     * filter chain parsed and applied, and the placeholder's own text kept
     * when the result is empty.
     */
    method Placeholder(tpl: string, data: map<string, Value>, m: Match) returns (piece: string)
      requires m.start <= m.end <= |tpl|
      ensures piece == Replacement(Substitute(filters, data, m), tpl, m)
    {
      var val := LookupValue(data, m.key);
      var chain := ParseFilterChain(m.rawFilters);
      val := ApplyFilters(chain, val);
      if val != "" {
        piece := val;
      } else {
        piece := tpl[m.start..m.end];
      }
    }

    /**
     * `Render`, given the matcher's output: copies each gap, writes each
     * placeholder's filtered value (or the placeholder itself when the value
     * is empty), then the tail. The error result is always nil.
     */
    method Render(tpl: string, data: map<string, Value>, matches: seq<Match>) returns (out: string, err: Option<string>)
      requires Spans(tpl, matches, 0)
      ensures out == Assemble(filters, data, tpl, matches, 0)
      ensures matches == [] ==> out == tpl
      ensures err == None
    {
      if |matches| == 0 {
        return tpl, None;
      }
      ghost var vals := Substitutes(filters, data, matches);
      ghost var whole := Fill(tpl, matches, vals, 0);
      var b := "";
      var last: nat := 0;
      var i := 0;
      while i < |matches|
        invariant 0 <= i <= |matches|
        invariant Spans(tpl, matches[i..], last)
        invariant b + Fill(tpl, matches[i..], vals[i..], last) == whole
      {
        var m := matches[i];
        FillStep(tpl, matches[i..], vals[i..], last, b);
        assert matches[i..][1..] == matches[i + 1..];
        assert vals[i..][1..] == vals[i + 1..];
        var piece := Placeholder(tpl, data, m);
        b := b + tpl[last..m.start] + piece;
        last := m.end;
        i := i + 1;
      }
      assert matches[|matches|..] == [];
      b := b + tpl[last..];
      return b, None;
    }
  }

  /**
   * Redefining `title` after construction leaves its alias `titlecase` with
   * the built-in function, and likewise for `sentencecase` and `sentence`.
   */
  method RedefineAliased(titleFn: FilterFunc, sentenceFn: FilterFunc) returns (e: Engine)
    ensures e.filters.Keys == Builtins().Keys
    ensures "title" in e.filters && e.filters["title"] == titleFn
    ensures "titlecase" in e.filters && e.filters["titlecase"] == Title
    ensures "sentencecase" in e.filters && e.filters["sentencecase"] == sentenceFn
    ensures "sentence" in e.filters && e.filters["sentence"] == SentenceCase
  {
    e := new Engine();
    e.AddFilter("title", titleFn);
    e.AddFilter("sentencecase", sentenceFn);
  }
}

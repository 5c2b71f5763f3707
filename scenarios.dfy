/**
 * Concrete renderings with the built-in filters, after the cases of
 * template_test.go. Each template is written as the text before its
 * placeholder, the placeholder and the text after it; the placeholder match is
 * written out as the matcher finds it.
 */
module Scenarios {
  import opened Text
  import opened Values
  import opened FilterChain
  import opened Filters
  import opened Templates

  /** "Hello {{name}}" with name = "Alice" renders "Hello Alice". */
  lemma BasicPlaceholder()
    ensures Spans("Hello " + "{{name}}", [Match(6, 14, "name", "")], 0)
    ensures Assemble(Builtins(), map["name" := Str("Alice")], "Hello " + "{{name}}", [Match(6, 14, "name", "")], 0)
         == "Hello " + "Alice"
  {
    StringKeyRenders(Builtins(), map["name" := Str("Alice")], "Hello ", "{{name}}", "", "name", "Alice");
  }

  /** "First name: {{user.name.first}}" resolves through two nested mappings. */
  lemma NestedKey()
    ensures var data := map["user" := Map(map["name" := Map(map["first" := Str("Alice")])])];
            var tpl := "First name: " + "{{user.name.first}}";
            Spans(tpl, [Match(12, 31, "user.name.first", "")], 0) &&
            Assemble(Builtins(), data, tpl, [Match(12, 31, "user.name.first", "")], 0) == "First name: " + "Alice"
  {
    var before, placeholder := "First name: ", "{{user.name.first}}";
    NestedKeyRenders(Builtins(), ["user", "name", "first"], "Alice", before, placeholder, "");
    UserNameFirst();
    assert |before| == 12 && |before| + |placeholder| == 31;
    assert before + placeholder + "" == before + placeholder;
  }

  /** The key path and the data of the nested-key case, built from the path's segments. */
  lemma UserNameFirst()
    ensures Join(["user", "name", "first"], '.') == "user.name.first"
    ensures Nest(["user", "name", "first"], Str("Alice")) == Map(map["user" := Map(map["name" := Map(map["first" := Str("Alice")])])])
  {
    var parts: seq<string> := ["user", "name", "first"];
    assert parts[1..] == ["name", "first"] && parts[2..] == ["first"] && parts[2..][1..] == [];
    assert Join(parts[2..], '.') == "first";
    assert Join(parts[1..], '.') == "name" + "." + "first";
  }

  /** "Hi {{name | uppercase}}" with name = "john" renders "Hi JOHN". */
  lemma UppercaseFilter()
    ensures Spans("Hi " + "{{name | uppercase}}", [Match(3, 23, "name", " | " + "uppercase")], 0)
    ensures Assemble(Builtins(), map["name" := Str("john")], "Hi " + "{{name | uppercase}}", [Match(3, 23, "name", " | " + "uppercase")], 0)
         == "Hi " + "JOHN"
  {
    var reg, data, before, p := Builtins(), map["name" := Str("john")], "Hi ", "{{name | uppercase}}";
    BuiltinNames();
    UpperLiterals();
    assert data["name"] == Str("john");
    RegisteredFilterRenders(reg, data, before, p, "", "name", "john", "uppercase");
    assert before + p + "" == before + p;
    assert |before| == 3 && |before| + |p| == 23;
    assert before + reg["uppercase"]("john") + "" == before + "JOHN";
  }

  /**
   * The mixed case, "Hi {{name | default:'Friend' | uppercase}}, OTP: [[otp]],
   * Link: {{link | trim}}" over otp and link, one placeholder at a time: the
   * first becomes "FRIEND" ...
   */
  lemma MixedGreeting()
    ensures var data := map["otp" := Str("999999"), "link" := Str(" https://x.yz ")];
            var tpl := "Hi " + "{{name | default:'Friend' | uppercase}}" + ", OTP: [[otp]], Link: {{link | trim}}";
            var m := Match(3, 42, "name", " | " + "default:'Friend'" + " | " + "uppercase");
            Spans(tpl, [m], 0) &&
            Assemble(Builtins(), data, tpl, [m], 0) == "Hi " + "FRIEND" + ", OTP: [[otp]], Link: {{link | trim}}"
  {
    var reg, data := Builtins(), map["otp" := Str("999999"), "link" := Str(" https://x.yz ")];
    var before, p, after := "Hi ", "{{name | default:'Friend' | uppercase}}", ", OTP: [[otp]], Link: {{link | trim}}";
    BuiltinNames();
    UpperLiterals();
    assert "name" !in data;
    DefaultThenFilterRenders(reg, data, before, p, after, "name", "Friend", "uppercase");
    assert |before| == 3 && |before| + |p| == 42;
    FriendChain();
    assert before + reg["uppercase"]("Friend") + after == before + "FRIEND" + after;
  }

  /** The filter text of the mixed case's first placeholder is the printed chain. */
  lemma FriendChain()
    ensures " | " + FormatFilter(Filter(DefaultName, "Friend")) + " | " + "uppercase" == " | " + "default:'Friend'" + " | " + "uppercase"
  {
    assert FormatFilter(Filter(DefaultName, "Friend")) == "default:'Friend'";
  }

  /** ... the second, in the `[[key]]` syntax, becomes the otp ... */
  lemma MixedOtp()
    ensures var data := map["otp" := Str("999999"), "link" := Str(" https://x.yz ")];
            var tpl := "Hi {{name | default:'Friend' | uppercase}}, OTP: " + "[[otp]]" + ", Link: {{link | trim}}";
            var m := Match(49, 56, "otp", "");
            Spans(tpl, [m], 0) &&
            Assemble(Builtins(), data, tpl, [m], 0) == "Hi {{name | default:'Friend' | uppercase}}, OTP: " + "999999" + ", Link: {{link | trim}}"
  {
    StringKeyRenders(Builtins(), map["otp" := Str("999999"), "link" := Str(" https://x.yz ")],
      "Hi {{name | default:'Friend' | uppercase}}, OTP: ", "[[otp]]", ", Link: {{link | trim}}", "otp", "999999");
  }

  /** ... and the third is the link with its padding trimmed. */
  lemma MixedLink()
    ensures var data := map["otp" := Str("999999"), "link" := Str(" https://x.yz ")];
            var tpl := "Hi {{name | default:'Friend' | uppercase}}, OTP: [[otp]], Link: " + "{{link | trim}}";
            var m := Match(64, 79, "link", " | " + "trim");
            Spans(tpl, [m], 0) &&
            Assemble(Builtins(), data, tpl, [m], 0) == "Hi {{name | default:'Friend' | uppercase}}, OTP: [[otp]], Link: " + "https://x.yz"
  {
    BuiltinNames();
    TrimLiteral();
    var before := "Hi {{name | default:'Friend' | uppercase}}, OTP: [[otp]], Link: ";
    RegisteredFilterRenders(Builtins(), map["otp" := Str("999999"), "link" := Str(" https://x.yz ")],
      before, "{{link | trim}}", "", "link", " https://x.yz ", "trim");
    assert before + "{{link | trim}}" + "" == before + "{{link | trim}}";
  }

  /** The built-in filter names used above print and parse back as themselves. */
  lemma BuiltinNames()
    ensures "uppercase" in Builtins() && Printable(Filter("uppercase", []))
    ensures "trim" in Builtins() && Printable(Filter("trim", []))
  {
    assert "uppercase"[..|DefaultPrefix|][0] != DefaultPrefix[0];
    assert "trim"[0] != DefaultPrefix[0];
    assert Trimmed("uppercase") && Trimmed("trim");
  }

  /** Upper-casing the two names of the cases above. */
  lemma UpperLiterals()
    ensures Builtins()["uppercase"]("john") == "JOHN"
    ensures Builtins()["uppercase"]("Friend") == "FRIEND"
  {
    assert Builtins()["uppercase"] == ToUpper;
    assert ToUpper("john") == "JOHN";
    assert ToUpper("Friend") == "FRIEND";
  }

  /** Trimming the padded link of the mixed case. */
  lemma TrimLiteral()
    ensures Builtins()["trim"](" https://x.yz ") == "https://x.yz"
  {
    assert Builtins()["trim"] == TrimSpace;
    assert Trimmed("https://x.yz");
    TrimSpacePadded("https://x.yz");
    assert " " + "https://x.yz" + " " == " https://x.yz ";
  }

  /** A placeholder whose key is missing and has no default is written back verbatim. */
  lemma MissingKeyKept()
    ensures Spans("Hi " + "{{name}}" + "!", [Match(3, 11, "name", "")], 0)
    ensures Assemble(Builtins(), map[], "Hi " + "{{name}}" + "!", [Match(3, 11, "name", "")], 0) == "Hi " + "{{name}}" + "!"
  {
    SplitNoSeparator("name", '.');
    AllUnresolved(Builtins(), map[], "Hi " + "{{name}}" + "!", [Match(3, 11, "name", "")], 0);
  }
}

# templatex in Dafny

templatex is a small Go templating engine. A template holds placeholders
such as `{{ key | filter | default:'x' }}`. Five bracket styles are
accepted: `{{ }}`, `[[ ]]`, `${ }`, `<< >>` and `%% %%`. `Render`:
1. resolves each placeholder's dotted key path against nested
   `map[string]interface{}` data;
2. turns the value it reaches into text;
3. runs the `|`-separated filter chain over that text from left to right;
4. writes the result in place of the placeholder.

The placeholder is written back as it was when the result is empty. The
engine keeps a table of named filters. `NewTemplateEngine` fills it with
the built-ins:
- `uppercase`, `lowercase`, `trim` and `capitalize`;
- `title` and `sentencecase`;
- `titlecase` and `sentence`: aliases copied from the last two when the
  engine is built.

`AddFilter` adds or replaces one entry of the table.

The model has these modules:

- `Text` (text.dfy): an ASCII model of the Go `strings` functions the
  engine calls: `ToUpper`, `ToLower`, `TrimSpace`, `Split`, `Join`,
  `Fields` and `HasPrefix`. It also proves their round trips, for example
  `Split(Join(ps)) == ps` and `Fields(Join(ws, ' ')) == ws`.
- `Values` (values.dfy): the data values, and `lookupValue` as a loop,
  proved against the path walk `Walk`/`Resolve`.
- `FilterChain` (filter_chain.dfy): `parseFilterChain` as a loop, proved
  against `ParseChain`. This includes the `default:` argument and its quote
  stripping, and a print-then-parse round trip.
- `Filters` (filters.dfy): the built-in filters, the table `Builtins()` and
  the left-to-right fold `ApplyChain`.
- `Templates` (templates.dfy): the `Engine` class. It has a mutable
  `filters` map, its constructor (`NewTemplateEngine`), `AddFilter` and
  `Render`. `Render` is proved against the assembly function `Assemble`.
- `Scenarios` (scenarios.dfy): cases from template_test.go worked through
  the model.

The placeholder matcher is not modelled. `Render` takes the matcher's
output as an input. That input is a sequence of `Match` values: the span of
each placeholder in the template, its key and its raw filter text. They
must lie in bounds, in order and without overlap (`Spans`). This covers
the loop in template.go:102-113, which picks the key and filter groups of
whichever bracket style matched.

## Model

| member | source | states |
|---|---|---|
| Templates.Engine.constructor | template.go:48-81 | A new engine's table is exactly the eight built-ins. `titlecase` and `sentence` hold the functions that `title` and `sentencecase` held at that moment. |
| Templates.Engine.AddFilter | template.go:83-85 | The entry for `name` is set to `fn`, and every other entry is unchanged. |
| Templates.RedefineAliased | template.go:48-85 | The aliases are copies. Redefining `title` or `sentencecase` after construction replaces only that entry. `titlecase` and `sentence` keep the built-in functions, and the set of names is unchanged. |
| Templates.Engine.Render | template.go:87-136 | The output is the assembly of the template around the matches. Each gap is copied, each placeholder becomes its filtered value (or its own text when that value is empty), and the tail follows. With no matches the template comes back unchanged. The error result is always nil. The loop body uses two helpers: the method `Placeholder` (its own row) and the lemma `FillStep`, which unfolds one step of `Fill`. |
| Templates.Engine.ApplyFilters | template.go:118-124 | The loop's result is the left-to-right fold of the chain over the resolved value (`ApplyChain`). |
| Templates.Assemble | template.go:87-135 | The rendering of the template around its matches. With no matches it is the template itself. Otherwise it starts with the text before the first placeholder and ends with the text after the last one, both unchanged. |
| Templates.Fill | template.go:93-135 | The filling of the text from position `last` with given placeholder values. It keeps the same unchanged prefix and tail that `Assemble` keeps. |
| Templates.Replacement | template.go:126-130 | A non-empty value replaces the placeholder. An empty value leaves the placeholder's own matched text. The replacement is empty only when the placeholder itself is empty. |
| Templates.FillUnchanged | template.go:126-134 | When every value is empty, filling writes each placeholder back and reproduces the text from `last` on. |
| Templates.Engine.Placeholder | template.go:115-130 | The text written for one placeholder is the replacement of its looked-up, filtered value. |
| Templates.AllUnresolved | template.go:126-134 | When every placeholder's value is empty, rendering gives back the template unchanged. |
| Templates.OnePlaceholder | template.go:96-134 | With a single placeholder, the text before and after it is kept verbatim. The placeholder becomes its value, or stays as written when the value is empty. |
| Templates.StringKeyRenders | template_test.go:19-36 | A plain-key placeholder without filters whose key holds a non-empty string renders as that string, whatever the bracket style. The tests cover five of these styles (template_test.go:76-93). |
| Templates.DefaultFillsMissingKey | template_test.go:38-42 | A placeholder with a quoted `default:'a'` whose key is absent renders as `a`. |
| Templates.DefaultKeptWhenPresent | template_test.go:43-48 | When the key holds a non-empty string, the same placeholder renders as that string, because `default` only fills an empty value. |
| Templates.NestedKeyRenders | template_test.go:55-66 | A plain placeholder whose dotted key leads through nested mappings, at any depth, to a non-empty string renders as that string. |
| Templates.ChainRenders | template.go:96-134 | A single placeholder whose filter text is a printable chain as the matcher captures it (each filter after a pipe, with spaces around the pipes) becomes the chain folded over the key's value, or stays as written when that is empty. The text around it is kept. |
| Templates.RegisteredFilterRenders | template_test.go:49-54 | A placeholder for `key` with the single filter `n`, a registered filter other than `default`, and the key holding the string `s` renders as `n(s)` when that is non-empty. |
| Templates.DefaultThenFilterRenders | template_test.go:67-75 | A placeholder for an absent `key` with the filters `default:'a'` and then `n` renders as `n(a)`: the default fills the empty value first, then the filter runs on it. |
| Scenarios.BasicPlaceholder | template_test.go:19-24 | "Hello {{name}}" with `name` = "Alice" renders "Hello Alice". |
| Scenarios.NestedKey | template_test.go:55-66 | "First name: {{user.name.first}}" resolves through two nested mappings to "First name: Alice". |
| Scenarios.MissingKeyKept | template.go:126-130 | "Hi {{name}}!" with no `name` in the data renders unchanged, placeholder included. |
| Scenarios.UppercaseFilter | template_test.go:49-54 | "Hi " and a `name` placeholder with the filter `uppercase`, with `name` = "john", renders "Hi JOHN". |
| Scenarios.MixedGreeting | template_test.go:67-75 | In the mixed template, with no `name` in the data, the `name` placeholder with the filters `default:'Friend'` and `uppercase` renders as "FRIEND" and the text around it is kept. |
| Scenarios.MixedOtp | template_test.go:67-75 | In the same template and data, the placeholder `[[otp]]` renders as "999999" and the text around it is kept. |
| Scenarios.MixedLink | template_test.go:67-75 | In the same template and data, the `link` placeholder with the filter `trim` renders as "https://x.yz", the link without its padding. |
| Filters.Builtins | template.go:48-81 | No built-in filter is named `default`, so a `default` entry is only ever handled by the chain loop. |
| Filters.ApplyFilter | template.go:119-123 | `default` replaces an empty value with its argument. Otherwise a name in the table applies its function to the value, `default` included when a user registered one. Any other name leaves the value unchanged. |
| Filters.ApplyChain | template.go:118-124 | A non-empty value passes unchanged through a chain in which no name is in the table. |
| Filters.ApplyChainAppend | template.go:118-124 | Filters apply strictly left to right. The second half of a chain sees the first half's result. |
| Filters.UnregisteredChain | template.go:118-124 | An unknown filter name is a no-op. With no registered name in the chain, a non-empty value passes through unchanged. An empty value is filled by the first non-empty `default` argument. |
| Filters.ChainIgnoresOtherNames | template.go:118-124 | Registering a function under a name the chain does not use does not change the chain's result. |
| Filters.TrimCapitalizeOrder | template.go:118-124 | The order of filters changes the result. `trim` then `capitalize` on " a" gives "A", and the reverse order gives "a". |
| Filters.TrimDefaultOrder | template.go:118-124 | A `default` placed after `trim` sees the trimmed value, so it fills a blank one. Placed before `trim`, it sees the blank value as non-empty and leaves it alone. |
| Filters.Capitalize | template.go:53-58 | `capitalize` keeps the length, upper-cases the first character and leaves the rest as it was. |
| Filters.CapitalizeIdempotent | template.go:53-58 | Capitalizing twice is the same as capitalizing once. |
| Filters.Title | template.go:60-68 | The words (whitespace-separated fields) of the `title` output are the input's words, each capitalized. |
| Filters.TitleIdempotent | template.go:60-68 | Title-casing twice is the same as title-casing once. |
| Filters.SentenceCase | template.go:70-78 | The `sentencecase` output is exactly as long as the trimmed input. |
| Filters.SentenceCaseIsCapitalizedLower | template.go:70-78 | `sentencecase` equals trimming, lower-casing everything, then capitalizing. |
| Filters.SentenceCaseTrimmed | template.go:70-78 | `sentencecase` output has no whitespace at either end. |
| Filters.SentenceCaseIdempotent | template.go:70-78 | Applying `sentencecase` to its own output changes nothing. |
| FilterChain.ParseFilterChain | template.go:144-169 | The loop returns `ParseChain(raw)`: one filter per non-blank pipe-separated segment, in order. Each segment is handled by the helper method `ParsePart`, whose quote test is the helper method `Unquote`. The helpers are proved equal to `ParseSegment` and `StripQuotes`, which have their own rows. |
| FilterChain.ParseSegment | template.go:152-166 | A segment gives no filter exactly when it is blank. A filter always has a non-empty name, and only `default` carries an argument. A trimmed segment that does not start with `default:` is a bare filter name. One that starts with `default:` gives the filter `default`, whose argument is the rest of the segment, trimmed, with one matching pair of quotes removed. |
| FilterChain.StripQuotes | template.go:158-162 | The argument is either kept as it is, or it is at least two characters long, starts with a single or double quote, and is the result wrapped in that same quote at both ends. |
| FilterChain.ParseChain | template.go:145-147 | Empty filter text gives the empty chain. |
| FilterChain.ParseSegments | template.go:149-167 | A chain has no more entries than there are segments. |
| FilterChain.ParseSegmentsAppend | template.go:151-167 | Segment order is preserved: the chain of concatenated segment lists is the concatenation of their chains. |
| FilterChain.ParseSegmentsFrom | template.go:151-167 | Every filter in a chain is the parse of one of the segments. |
| FilterChain.ChainWellFormed | template.go:148-167 | Every parsed filter has a non-empty, trimmed name without a pipe character, and an argument without one. The chain has at most as many entries as the text has pipe-separated segments. |
| FilterChain.StripQuotesRoundTrip | template.go:158-162 | A `default:` argument wrapped in a matching pair of single or double quotes loses exactly that pair. |
| FilterChain.StripQuotesUnquoted | template.go:158-162 | An argument shorter than two characters, or without matching quotes at both ends, is kept as it is. |
| FilterChain.DefaultSegment | template.go:156-163 | The segment `default:` + quoted `x` parses to the filter `default` with argument `x`. |
| FilterChain.ParseFormatChain | template.go:144-169 | Printing a chain of printable filters with pipe characters between them and parsing the text gives the same chain back. |
| FilterChain.FormatFilterParses | template.go:151-166 | A printable filter prints without a pipe character and parses back to itself. |
| FilterChain.QuotedDefaultChain | template.go:144-169 | The filter text of the tests' `default:'a'` placeholders (a blank segment, then the segment `default:'a'`) parses to the single filter `default` with argument `a`. |
| FilterChain.FormatSegmentsParse | template.go:151-167 | Printed segments parse back, one by one, to the chain they came from. |
| FilterChain.PaddedSegmentParses | template.go:151-166 | A printable filter with a space before it, and optionally one after it, holds no pipe and parses back to itself. |
| FilterChain.CapturedChain | template.go:144-169 | The filter text the matcher captures for a printable chain (a blank segment, then each printed filter padded with spaces, separated by pipes) parses back to that chain. |
| Values.Walk | template.go:172-184 | A walk that succeeds over a non-empty path starts at a mapping that holds the first segment. |
| Values.Resolve | template.go:171-196 | For a key without a dot: the text of the key's value when the key is in the data, and "" when it is not. |
| Values.LookupValue | template.go:171-196 | The loop returns `Resolve(data, path)`: the text of the value reached by walking the dot-separated segments through nested mappings, or "" when a step fails. |
| Values.Stringify | template.go:186-195 | A string is returned as it is. Mappings and other types give "". Integers and booleans give non-empty text. |
| Values.WalkAppend | template.go:172-184 | Walking a path in two pieces is the same as walking the first piece and then the second from where it ended. |
| Values.MissingSegment | template.go:176-183 | When the walk reaches a value that is not a mapping, or a mapping without the next segment, the lookup gives "". |
| Values.StringTerminal | template.go:186-188 | A path that reaches a string yields that string, unchanged. |
| Values.NestedResolve | template.go:171-196 | A value nested under keys at any depth is found by the dotted path joining those keys. |
| Values.ResolvePath | template.go:171-196 | In any data, sibling keys included: when dot-free keys lead to a value, the dotted path joining them resolves to that value's text. |
| Values.DecimalRoundTrip | template.go:191-192 | Decimal printing of a natural number reads back as the same number. |
| Values.FormatIntRoundTrip | template.go:191-192 | An integer printed by `%v` is non-empty and reads back as the same integer, sign included. |
| Values.NatToDecimal | template.go:191-192 | Decimal printing gives non-empty digits, with no leading zero except for 0 itself. |
| Text.ToUpper | template.go:50 | `uppercase` maps each character to its upper case and keeps the length. |
| Text.ToLower | template.go:51 | `lowercase` maps each character to its lower case and keeps the length. |
| Text.ToUpperIdempotent | template.go:50 | Upper-casing twice is the same as upper-casing once. |
| Text.TrimSpaceSlice | template.go:52 | `trim` returns the contiguous middle of its input. Everything cut from either end is whitespace, and the result has no whitespace at either end. |
| Text.TrimSpaceNoChar | template.go:152 | Trimming introduces no character, and its result is trimmed. |
| Text.TrimSpaceOfTrimmed | template.go:52 | Text without whitespace at its ends is left alone by `trim`. |
| Text.TrimSpaceIdempotent | template.go:52 | Trimming twice is the same as trimming once. |
| Text.TrimSpacePadded | template.go:152 | Trimmed text with one space in front, and optionally one behind, trims back to itself. |
| Text.Split | template.go:148 | Splitting gives at least one part, and no part contains the separator. |
| Text.SplitJoin | template.go:148 | Splitting separator-free parts joined by the separator gives the parts back. |
| Text.JoinSplit | template.go:148 | Joining the parts of a split with the separator gives back the original text. |
| Text.SplitNoSeparator | template.go:172 | A path without a dot is a single segment. |
| Text.SplitPrefix | template.go:148 | A separator-free piece in front of a separator becomes the first part. |
| Text.Fields | template.go:61 | Every field is a non-empty run of non-whitespace characters. There are no fields exactly when the text is all whitespace. |
| Text.FieldsOfWord | template.go:61 | A single word is its own only field. |
| Text.FieldsOfWordThenSpace | template.go:61 | A word followed by any whitespace character and more text: the word is the first field, and the rest are the fields of the rest. |
| Text.FieldsLeadingSpace | template.go:61 | A leading whitespace character does not change the fields. With the two rows above, this fixes the fields of every text. |
| Text.FieldsJoin | template.go:60-68 | Splitting words joined with single spaces into fields gives the same words back. |

## Left out

- The placeholder matcher is not modelled: the regular expression of
  template.go:30-46 and `FindAllStringSubmatchIndex`. `Render` takes its
  output as the `matches` parameter. The requirement that matches be in
  bounds, ordered and non-overlapping states what the matcher guarantees.
  The group-selection loop (template.go:102-113) becomes the `key` and
  `rawFilters` fields of `Match`.
- Text is modelled with ASCII semantics only. Characters stand for bytes,
  case mapping touches only `a`-`z`/`A`-`Z`, and whitespace is the six ASCII
  characters of `unicode.IsSpace`. Go's Unicode case mapping and Unicode
  spaces are not modelled. Neither is the byte-to-rune conversion
  `string(input[0])` in `capitalize` and `title`.
- Values.Stringify: `float64` values (`%v` formatting) and `fmt.Stringer`
  values are given by the text they print (`Float(printed)`,
  `Stringer(text)`), because float formatting and user `String()` methods
  are outside the model.
- Values.Value: `int` and `int64` are both modelled as an unbounded
  `Int(i: int)`. The model does not separate the two widths, because
  `%v` prints them the same way for every value they can hold. The Go
  types that fall to the `default` branch (other integer widths, slices,
  `nil`, maps of other types) are the single case `Other`.
- `RenderTemplate` (template.go:138-142) is left out. It only builds a
  fresh engine and drops the error, which is always nil, as
  `Templates.Engine.Render` states.
- The `TemplateEngine` interface is the `Engine` class itself. Concurrent
  use of one engine is not modelled. The Go map is not synchronised, so
  `AddFilter` must not race with `Render`.
- Filter functions are pure Dafny functions `string -> string`. A
  user-registered Go function with side effects or panics is outside the
  model.
- The test driver (`t.Run`, testify) is not modelled. Its cases appear as
  lemmas: `basic_placeholder`, `uppercase_filter` and `nested_key` as whole
  renderings in `Scenarios`; the two `default` cases and the five bracket
  styles as general lemmas in `Templates` (`DefaultFillsMissingKey`,
  `DefaultKeptWhenPresent`, `StringKeyRenders`).
- `mixed_placeholders_with_filters` is stated one placeholder at a time
  (`Scenarios.MixedGreeting`, `MixedOtp`, `MixedLink`), each as the only
  match of the full template. The rendering of all three matches at once is
  not stated as a lemma: the solver cannot relate the slices of the
  seven-part template within the resource limit.

## Notes on the code

- A `default` entry only fills an empty value. When the value is non-empty
  the code falls through to the table lookup (template.go:119-123), so a
  filter that a user registered under the name `default` would run there.
  `Filters.ApplyFilter` models this fall-through. `DefaultKeptWhenPresent`
  assumes no such registration.
- The case mapping used to show that filter order matters is `capitalize`
  against `trim`. `uppercase` and `trim` commute on ASCII text.

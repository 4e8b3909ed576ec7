# RuboCop processed source and Style/MethodName, modelled in Dafny

This project models two small parts of RuboCop, the Ruby static-analysis tool:

- **`ProcessedSource`** (module `Source`, `processed_source.dfy`): the immutable
  snapshot of one analysed file. Its raw text is split on linefeeds into
  `lines`. The lines are read with `[]` in three ways: by 0-based index, by an
  inclusive range, and by start and length. `valid_syntax?` is false exactly when
  some parser diagnostic has level `:error` or `:fatal`.
- **`Style::MethodName`** (module `MethodName`, `method_name.dfy`): the cop that
  checks method names against the configured `EnforcedStyle`, which is
  `snake_case` or `camelCase`. It records one offence per offending `def`, and
  the highlight of that offence is the method name. It skips one-line
  definitions and operator definitions. It fails when `EnforcedStyle` holds any
  other value. `Investigate` visits the definitions in order. For each one it
  reads the style and appends the offending name to the offence list, or it
  fails with `ConfigError`.

`wrappers.dfy` holds the `Option` type, which stands for Ruby's `nil`.

The naming rule below agrees with every example in
`spec/rubocop/cop/style/method_name_spec.rb`:
- under `snake_case`, a name offends when it contains an upper-case letter;
- under `camelCase`, it offends when it contains `_` or starts with an
  upper-case letter.

The specs index lines from 0 (`processed_source[2]` is `'end'`, the third line).

## Model

| member | source | states |
|---|---|---|
| `Source.SplitLines` | spec/rubocop/processed_source_spec.rb:34-46 | every text, the empty one included, splits into at least one line, and no line contains a linefeed |
| `Source.Lines` | spec/rubocop/processed_source_spec.rb:34-46 | `lines` of a processed source are the split of its raw text (no contract of its own; the split's lemmas apply) |
| `Source.At` | spec/rubocop/processed_source_spec.rb:50-54 | `[i]` is the line at 0-based index `i`, or `nil` past the end (no contract of its own; see `RangeInOrder`, `ExampleLineViews`) |
| `Source.Range` | spec/rubocop/processed_source_spec.rb:56-60 | `[a..b]` is lines `a` through `b` inclusive, cut at the end, `nil` when `a` lies past the end (no contract of its own; see `RangeInOrder`) |
| `Source.Slice` | spec/rubocop/processed_source_spec.rb:62-66 | `[s, n]` is up to `n` lines from `s`, `nil` when `s` lies past the end (no contract of its own; see `SliceIsRange`) |
| `Source.LineCount` | spec/rubocop/processed_source_spec.rb:39-41 | the number of lines is the number of linefeeds in the raw text plus one |
| `Source.SplitJoin` | spec/rubocop/processed_source_spec.rb:19-26 | splitting a text joined from k ≥ 1 linefeed-free strings with `"\n"` gives back exactly those strings |
| `Source.JoinedLineCount` | spec/rubocop/processed_source_spec.rb:39-41 | a text joined from k ≥ 1 linefeed-free strings has exactly k lines |
| `Source.JoinSplit` | spec/rubocop/processed_source_spec.rb:43-46 | joining the lines with `"\n"` restores the raw text, so the split drops nothing but the linefeeds |
| `Source.SplitLinesPrefix` | spec/rubocop/processed_source_spec.rb:43-46 | text free of linefeeds in front of a source joins that source's first line and leaves the other lines as they were |
| `Source.SplitLinesSingle` | spec/rubocop/processed_source_spec.rb:43-46 | a text with no linefeed is one line, equal to the text |
| `Source.FirstLineBeforeLinefeed` | spec/rubocop/processed_source_spec.rb:43-46 | line 0 is exactly the text before the first linefeed |
| `Source.RangeInOrder` | spec/rubocop/processed_source_spec.rb:56-60 | `[a..b]` with `a <= b` inside the source gives b-a+1 lines, and its k-th element is the line that `[a+k]` gives |
| `Source.SliceIsRange` | spec/rubocop/processed_source_spec.rb:56-66 | `[s, n]` with n ≥ 1 gives the same view as `[s..s+n-1]`, including the `nil` case |
| `Source.ExampleLineViews` | spec/rubocop/processed_source_spec.rb:19-66 | the four-line example has 4 lines, line 0 is `def some_method`, `[2]` is `end`, and `[2..3]` and `[2, 2]` are both `[end, some_method]` |
| `Source.ValidSyntax` | spec/rubocop/processed_source_spec.rb:69-110 | `valid_syntax?` holds if and only if no diagnostic has level error or fatal |
| `Source.SyntaxValid` | spec/rubocop/processed_source_spec.rb:69-110 | `valid_syntax?` of a processed source holds if and only if none of its diagnostics has level error or fatal |
| `Source.SyntaxErrorInvalidates` | spec/rubocop/processed_source_spec.rb:74-88 | one error or fatal diagnostic makes the syntax invalid, whatever other diagnostics are present |
| `Source.WarningsLeaveSyntaxValid` | spec/rubocop/processed_source_spec.rb:90-96 | diagnostics that are all warnings or notes leave the syntax valid |
| `Source.ValidSyntaxAppend` | spec/rubocop/processed_source_spec.rb:98-108 | the diagnostics of two lists together are valid exactly when both lists are valid, so error plus warning is invalid |
| `Source.ExampleValidity` | spec/rubocop/processed_source_spec.rb:74-108 | the example source with diagnostics `[error]` or `[fatal]` has invalid syntax, with `[warning]` valid syntax, with `[error, warning]` invalid syntax |
| `MethodName.ParseStyle` | spec/rubocop/cop/style/method_name_spec.rb:41-42 | reads `EnforcedStyle`; `snake_case` and `camelCase` are styles, anything else is unusable (no contract of its own; see `ParseStyleAcceptsTwoNames`) |
| `MethodName.Conforms` | spec/rubocop/cop/style/method_name_spec.rb:41-96 | whether a name follows a style, by the rule above (no contract of its own; see the `...Examples` lemmas) |
| `MethodName.Offends` | spec/rubocop/cop/style/method_name_spec.rb:27-39 | a definition offends when it is neither one-line nor an operator and its name does not follow the style (no contract of its own; see `ExemptDefsAlwaysAccepted`) |
| `MethodName.Inspect` | spec/rubocop/cop/style/method_name_spec.rb:41-104 | the offence highlights of a source's definitions under a style value, or a configuration error once a definition is evaluated under an unusable value (no contract of its own; see `BadStyleFails`, `Investigate`) |
| `MethodName.Highlights` | spec/rubocop/cop/style/method_name_spec.rb:15-16 | every highlight is the name of a definition in the source that offends |
| `MethodName.Investigate` | spec/rubocop/cop/style/method_name_spec.rb:41-104 | visiting the definitions in order yields what `Inspect` specifies: the offending names in order, or a configuration error at the first definition when the style is unknown |
| `MethodName.HighlightsAppend` | spec/rubocop/cop/style/method_name_spec.rb:15-16 | offences of consecutive parts of a source follow one another in source order |
| `MethodName.HighlightsOfOne` | spec/rubocop/cop/style/method_name_spec.rb:44-50 | a single definition gives exactly one offence, highlighted with its name, when it offends, and no offence otherwise |
| `MethodName.OffenderReported` | spec/rubocop/cop/style/method_name_spec.rb:15-16 | every offending definition is reported under its own name |
| `MethodName.NoOffenderNoHighlights` | spec/rubocop/cop/style/method_name_spec.rb:28-38 | a source with no offending definition yields no offences |
| `MethodName.MixedNameNeverAccepted` | spec/rubocop/cop/style/method_name_spec.rb:12-17 | under either valid style, a name mixing `_` and capitals gives exactly one offence, highlighted with the name |
| `MethodName.CapitalisedNameNeverAccepted` | spec/rubocop/cop/style/method_name_spec.rb:19-24 | under either valid style, a name that starts with a capital gives exactly one offence, highlighted with the name |
| `MethodName.ExemptDefsAlwaysAccepted` | spec/rubocop/cop/style/method_name_spec.rb:27-39 | one-line definitions and operator definitions yield no offence under either style |
| `MethodName.SingletonJudgedAsInstance` | spec/rubocop/cop/style/method_name_spec.rb:52-58 | inspecting `def self.name` gives the same result as `def name`: the same offences, highlighted with the bare name, or the same error |
| `MethodName.BadStyleFails` | spec/rubocop/cop/style/method_name_spec.rb:98-104 | any other `EnforcedStyle` value makes inspecting a source with definitions fail, not return an empty offence list |
| `MethodName.ParseStyleAcceptsTwoNames` | spec/rubocop/cop/style/method_name_spec.rb:42 | only `snake_case` and `camelCase` are usable `EnforcedStyle` values |
| `MethodName.HighlightIsNameSpan` | spec/rubocop/cop/style/method_name_spec.rb:44-58 | when line `j` of a processed source is `def name` or `def self.name`, the highlight is that line from the name's column on, never the whole line |
| `MethodName.SnakeCaseExamples` | spec/rubocop/cop/style/method_name_spec.rb:44-64 | under `snake_case`, `myMethod` as an instance or singleton def gives one offence highlighted `myMethod`, and `my_method` gives none |
| `MethodName.CamelCaseExamples` | spec/rubocop/cop/style/method_name_spec.rb:73-92 | under `camelCase`, `myMethod` in both forms gives no offence, and `my_method` gives one offence highlighted `my_method` |
| `MethodName.NeverAcceptedExamples` | spec/rubocop/cop/style/method_name_spec.rb:11-25 | under either style, `visit_Arel_Nodes_SelectStatement` and `MyMethod` each give one offence highlighted with the name |
| `MethodName.AlwaysAcceptedExamples` | spec/rubocop/cop/style/method_name_spec.rb:27-39 | under either style, `def body; '' end` and `def +(other)` give no offence |
| `MethodName.BadValueExample` | spec/rubocop/cop/style/method_name_spec.rb:98-104 | with `EnforcedStyle` `other`, inspecting `def a` fails |

## Left out

- The Ruby parser's objects are not modelled: the source buffer, the AST, comments, tokens and diagnostic messages and locations. A diagnostic is only its level.
- The parser decides whether a definition is one-line or an operator definition. Here both are boolean fields of `MethodDef`, and the model does not look at the text.
- `Source.SplitLines` keeps an empty last line after a trailing linefeed, and splits the empty text into one empty line, so the line count is always the number of linefeeds plus one. Ruby's `String#lines` may drop the empty last line and gives no lines for the empty text. No example covers either case.
- `Source.Range` and `Source.Slice` take non-negative indices only. Ruby's negative, from-the-end indices are not modelled.
- An out-of-range line index yields `None`, which stands for Ruby's `nil`. No property is stated about it beyond the equivalence of the views.
- `MethodName.Conforms` uses the rule above. `MixedNameNeverAccepted` and `CapitalisedNameNeverAccepted` extend the two examples of spec/rubocop/cop/style/method_name_spec.rb:11-25 to every name with `_` and a capital, or with a leading capital. No lemma states anything about other names, such as a plain `foo` under `camelCase`, or about the `?`, `!` and `=` suffixes.
- Offence messages, severities and source ranges are not modelled. An offence is only its highlight. The only position in the model is the name's column on a `def name` / `def self.name` line (`MethodName.HighlightIsNameSpan`).
- Configuration loading is not modelled: `EnforcedStyle` is a parameter.
- The style is read when a definition is evaluated. A source with no definitions therefore yields no offences even with a bad value, and the model does not pin down when the error is raised.

/**
 * The Style/MethodName check: a method name must follow the configured
 * `EnforcedStyle` (`snake_case` or `camelCase`). One-line definitions and
 * operator definitions are exempt; any other style value is a
 * configuration error, raised when a definition is first evaluated.
 */
module MethodName {
  import opened Wrappers
  import Source

  datatype Style = SnakeCase | CamelCase

  /**
   * A method definition as the check sees it. `name` is the bare name
   * (without a `self.` receiver); whether the definition fits on one line
   * and whether its name is an operator are decided by the parser.
   */
  datatype MethodDef = MethodDef(name: string, singleton: bool, oneLine: bool, isOperator: bool)

  /** What inspecting a source yields: the highlights of the offences, in order, or a failure. */
  datatype InspectResult = Offences(highlights: seq<string>) | ConfigError

  /** Reads the `EnforcedStyle` value; anything but the two style names is unusable. */
  function ParseStyle(enforcedStyle: string): Option<Style> {
    if enforcedStyle == "snake_case" then Some(SnakeCase)
    else if enforcedStyle == "camelCase" then Some(CamelCase)
    else None
  }

  predicate IsUpper(c: char) {
    'A' <= c <= 'Z'
  }

  predicate HasUpper(name: string) {
    exists i :: 0 <= i < |name| && IsUpper(name[i])
  }

  predicate StartsUpper(name: string) {
    |name| > 0 && IsUpper(name[0])
  }

  /** Whether `name` follows `style`. */
  predicate Conforms(style: Style, name: string) {
    match style
    case SnakeCase => !HasUpper(name)
    case CamelCase => '_' !in name && !StartsUpper(name)
  }

  /** Whether the definition draws an offence under `style`. */
  predicate Offends(style: Style, def: MethodDef) {
    !def.oneLine && !def.isOperator && !Conforms(style, def.name)
  }

  /** The highlights the check emits for `defs`, one per offending definition, in source order. */
  function Highlights(style: Style, defs: seq<MethodDef>): (hs: seq<string>)
    ensures forall k :: 0 <= k < |hs| ==>
              exists i :: 0 <= i < |defs| && Offends(style, defs[i]) && defs[i].name == hs[k]
  {
    if defs == [] then []
    else
      var rest := Highlights(style, defs[1..]);
      if Offends(style, defs[0]) then [defs[0].name] + rest else rest
  }

  /**
   * The result of inspecting `defs` under the configured value. The style
   * is read only when a definition is evaluated, so a source without
   * definitions yields no offences even when the value is bad.
   */
  function Inspect(enforcedStyle: string, defs: seq<MethodDef>): InspectResult {
    if defs == [] then Offences([])
    else
      match ParseStyle(enforcedStyle)
      case None => ConfigError
      case Some(style) => Offences(Highlights(style, defs))
  }

  /**
   * Visits the definitions in order, reading the style for each one and
   * appending the name of each offending definition to the offences.
   */
  method Investigate(enforcedStyle: string, defs: seq<MethodDef>) returns (result: InspectResult)
    ensures result == Inspect(enforcedStyle, defs)
  {
    var offences: seq<string> := [];
    var i := 0;
    while i < |defs|
      invariant 0 <= i <= |defs|
      invariant i > 0 ==> ParseStyle(enforcedStyle).Some?
      invariant i > 0 ==> offences == Highlights(ParseStyle(enforcedStyle).value, defs[..i])
      invariant i == 0 ==> offences == []
    {
      var style := ParseStyle(enforcedStyle);
      if style.None? {
        return ConfigError;
      }
      if Offends(style.value, defs[i]) {
        offences := offences + [defs[i].name];
      }
      assert defs[..i + 1] == defs[..i] + [defs[i]];
      HighlightsAppend(style.value, defs[..i], [defs[i]]);
      i := i + 1;
    }
    assert defs[..i] == defs;
    return Offences(offences);
  }

  // ---------------------------------------------------------------------
  // Order and completeness of the offences

  /** Offences of consecutive parts of a source follow one another in order. */
  lemma {:induction false} HighlightsAppend(style: Style, a: seq<MethodDef>, b: seq<MethodDef>)
    ensures Highlights(style, a + b) == Highlights(style, a) + Highlights(style, b)
  {
    if a == [] {
      assert a + b == b;
    } else {
      assert (a + b)[0] == a[0];
      assert (a + b)[1..] == a[1..] + b;
      HighlightsAppend(style, a[1..], b);
    }
  }

  /** A single definition yields its name when it offends, and nothing otherwise. */
  lemma HighlightsOfOne(style: Style, def: MethodDef)
    ensures Highlights(style, [def]) == if Offends(style, def) then [def.name] else []
  {
    assert [def][1..] == [];
  }

  /** Every offending definition is reported, under its own name. */
  lemma OffenderReported(style: Style, defs: seq<MethodDef>, i: nat)
    requires i < |defs| && Offends(style, defs[i])
    ensures defs[i].name in Highlights(style, defs)
  {
    assert defs == defs[..i] + ([defs[i]] + defs[i + 1..]);
    HighlightsAppend(style, defs[..i], [defs[i]] + defs[i + 1..]);
    assert Highlights(style, [defs[i]] + defs[i + 1..])[0] == defs[i].name;
  }

  /** A source without offending definitions yields no offences. */
  lemma {:induction false} NoOffenderNoHighlights(style: Style, defs: seq<MethodDef>)
    requires forall i :: 0 <= i < |defs| ==> !Offends(style, defs[i])
    ensures Highlights(style, defs) == []
  {
    if defs != [] {
      NoOffenderNoHighlights(style, defs[1..]);
    }
  }

  // ---------------------------------------------------------------------
  // The decision rule

  /** A name mixing underscores and capitals draws exactly one offence, on the name, under every style. */
  lemma MixedNameNeverAccepted(enforcedStyle: string, def: MethodDef)
    requires ParseStyle(enforcedStyle).Some?
    requires !def.oneLine && !def.isOperator
    requires '_' in def.name && HasUpper(def.name)
    ensures Inspect(enforcedStyle, [def]) == Offences([def.name])
  {
    HighlightsOfOne(ParseStyle(enforcedStyle).value, def);
  }

  /** A capitalised name draws exactly one offence, on the name, under every style. */
  lemma CapitalisedNameNeverAccepted(enforcedStyle: string, def: MethodDef)
    requires ParseStyle(enforcedStyle).Some?
    requires !def.oneLine && !def.isOperator
    requires StartsUpper(def.name)
    ensures Inspect(enforcedStyle, [def]) == Offences([def.name])
  {
    HighlightsOfOne(ParseStyle(enforcedStyle).value, def);
  }

  /** One-line definitions and operator definitions are accepted under every style. */
  lemma ExemptDefsAlwaysAccepted(style: Style, defs: seq<MethodDef>)
    requires forall i :: 0 <= i < |defs| ==> defs[i].oneLine || defs[i].isOperator
    ensures Highlights(style, defs) == []
  {
    NoOffenderNoHighlights(style, defs);
  }

  /**
   * `def self.name` is judged exactly as `def name`, and its highlight is
   * the bare name, without the receiver.
   */
  lemma SingletonJudgedAsInstance(enforcedStyle: string, def: MethodDef)
    ensures Inspect(enforcedStyle, [def.(singleton := true)]) ==
            Inspect(enforcedStyle, [def.(singleton := false)])
  {
    if ParseStyle(enforcedStyle).Some? {
      HighlightsOfOne(ParseStyle(enforcedStyle).value, def.(singleton := true));
      HighlightsOfOne(ParseStyle(enforcedStyle).value, def.(singleton := false));
    }
  }

  /** A bad `EnforcedStyle` makes the inspection of any definition fail; it never passes silently. */
  lemma BadStyleFails(enforcedStyle: string, defs: seq<MethodDef>)
    requires enforcedStyle != "snake_case" && enforcedStyle != "camelCase"
    requires defs != []
    ensures Inspect(enforcedStyle, defs) == ConfigError
  {
  }

  /** Only the two style names are accepted as `EnforcedStyle`. */
  lemma ParseStyleAcceptsTwoNames(enforcedStyle: string)
    ensures ParseStyle(enforcedStyle).Some? <==> enforcedStyle == "snake_case" || enforcedStyle == "camelCase"
  {
  }

  // ---------------------------------------------------------------------
  // Highlights

  /** The first line of a definition: `def name` or `def self.name`. */
  function DefLine(def: MethodDef): string {
    "def " + (if def.singleton then "self." else "") + def.name
  }

  /** The column at which the name starts on the definition line. */
  function NameColumn(def: MethodDef): nat {
    if def.singleton then 9 else 4
  }

  /**
   * When line `j` of a processed source is the definition line, the
   * highlight of an offence is the method name as written on that line:
   * the line from the name's column on, neither the whole line nor the
   * `self.` receiver.
   */
  lemma HighlightIsNameSpan(style: Style, def: MethodDef, ps: Source.ProcessedSource, j: nat)
    requires Offends(style, def)
    requires Source.At(Source.Lines(ps), j) == Some(DefLine(def))
    ensures Highlights(style, [def]) == [Source.Lines(ps)[j][NameColumn(def)..]]
    ensures Highlights(style, [def])[0] != Source.Lines(ps)[j]
  {
    var prefix := "def " + (if def.singleton then "self." else "");
    assert DefLine(def) == prefix + def.name;
    assert |prefix| == NameColumn(def);
    assert DefLine(def)[NameColumn(def)..] == def.name;
    assert [def][1..] == [];
  }

  // ---------------------------------------------------------------------
  // The configurations exercised by the check's examples

  function Def(name: string): MethodDef {
    MethodDef(name, false, false, false)
  }

  function SingletonDef(name: string): MethodDef {
    MethodDef(name, true, false, false)
  }

  /** Under `snake_case`: `myMethod` is rejected in both forms, `my_method` accepted. */
  lemma SnakeCaseExamples()
    ensures Inspect("snake_case", [Def("myMethod")]) == Offences(["myMethod"])
    ensures Inspect("snake_case", [SingletonDef("myMethod")]) == Offences(["myMethod"])
    ensures Inspect("snake_case", [Def("my_method")]) == Offences([])
  {
    assert IsUpper("myMethod"[2]);
    assert !HasUpper("my_method");
  }

  /** Under `camelCase`: `myMethod` is accepted in both forms, `my_method` rejected. */
  lemma CamelCaseExamples()
    ensures Inspect("camelCase", [Def("myMethod")]) == Offences([])
    ensures Inspect("camelCase", [SingletonDef("myMethod")]) == Offences([])
    ensures Inspect("camelCase", [Def("my_method")]) == Offences(["my_method"])
  {
    assert '_' !in "myMethod";
    assert "my_method"[2] == '_';
  }

  /** The names rejected under both styles, each with one offence on the name. */
  lemma NeverAcceptedExamples(enforcedStyle: string)
    requires enforcedStyle == "snake_case" || enforcedStyle == "camelCase"
    ensures Inspect(enforcedStyle, [Def("visit_Arel_Nodes_SelectStatement")]) ==
            Offences(["visit_Arel_Nodes_SelectStatement"])
    ensures Inspect(enforcedStyle, [Def("MyMethod")]) == Offences(["MyMethod"])
  {
    assert "visit_Arel_Nodes_SelectStatement"[5] == '_';
    assert IsUpper("visit_Arel_Nodes_SelectStatement"[6]);
    assert IsUpper("MyMethod"[0]);
  }

  /** `def body; '' end` and `def +(other)` draw no offence under either style. */
  lemma AlwaysAcceptedExamples(enforcedStyle: string)
    requires enforcedStyle == "snake_case" || enforcedStyle == "camelCase"
    ensures Inspect(enforcedStyle, [MethodDef("body", false, true, false)]) == Offences([])
    ensures Inspect(enforcedStyle, [MethodDef("+", false, false, true)]) == Offences([])
  {
  }

  /** With `EnforcedStyle` `other`, inspecting `def a` fails. */
  lemma BadValueExample()
    ensures Inspect("other", [Def("a")]) == ConfigError
  {
  }
}

/**
 * The processed source: an immutable snapshot of one analysed file.
 * It holds the raw text and the levels of the parser's diagnostics; the
 * line view and syntax validity are functions of that snapshot.
 */
module Source {
  import opened Wrappers

  /** Severity levels the parser attaches to a diagnostic. */
  datatype Level = Note | Warning | Error | Fatal

  /** The snapshot; the AST, comments and tokens are not part of this model. */
  datatype ProcessedSource = ProcessedSource(rawSource: string, diagnostics: seq<Level>)

  predicate NoLinefeed(line: string) {
    '\n' !in line
  }

  /** Number of linefeed characters in `s`. */
  function CountLinefeeds(s: string): nat {
    if s == [] then 0
    else (if s[0] == '\n' then 1 else 0) + CountLinefeeds(s[1..])
  }

  /**
   * Splits `s` on linefeeds. Every piece between two linefeeds (and the
   * piece after the last one, even when empty) is a line.
   */
  function SplitLines(s: string): (lines: seq<string>)
    ensures |lines| >= 1
    ensures forall i :: 0 <= i < |lines| ==> NoLinefeed(lines[i])
  {
    if s == [] then [""]
    else
      var rest := SplitLines(s[1..]);
      if s[0] == '\n' then [""] + rest
      else [[s[0]] + rest[0]] + rest[1..]
  }

  /** Joins lines with a linefeed between each pair, as Ruby's `join("\n")`. */
  function JoinLines(lines: seq<string>): string {
    if |lines| == 0 then ""
    else if |lines| == 1 then lines[0]
    else lines[0] + "\n" + JoinLines(lines[1..])
  }

  /** The lines of a processed source. */
  function Lines(ps: ProcessedSource): seq<string> {
    SplitLines(ps.rawSource)
  }

  /** `processed_source[i]`: the line at 0-based index `i`, or `nil` past the end. */
  function At(lines: seq<string>, i: nat): Option<string> {
    if i < |lines| then Some(lines[i]) else None
  }

  /**
   * `processed_source[first..last]`: lines `first` through `last` inclusive,
   * cut off at the last line; `nil` when `first` lies past the end.
   */
  function Range(lines: seq<string>, first: nat, last: nat): Option<seq<string>> {
    if first > |lines| then None
    else if last < first then Some([])
    else Some(lines[first..if last + 1 <= |lines| then last + 1 else |lines|])
  }

  /**
   * `processed_source[start, length]`: up to `length` lines from `start`;
   * `nil` when `start` lies past the end.
   */
  function Slice(lines: seq<string>, start: nat, length: nat): Option<seq<string>> {
    if start > |lines| then None
    else Some(lines[start..if start + length <= |lines| then start + length else |lines|])
  }

  predicate IsSyntaxError(level: Level) {
    level == Error || level == Fatal
  }

  /** `valid_syntax?`: no diagnostic has level error or fatal. */
  function ValidSyntax(diagnostics: seq<Level>): (valid: bool)
    ensures valid <==> forall i :: 0 <= i < |diagnostics| ==> !IsSyntaxError(diagnostics[i])
  {
    if diagnostics == [] then true
    else !IsSyntaxError(diagnostics[0]) && ValidSyntax(diagnostics[1..])
  }

  /** `valid_syntax?` of a processed source: none of its diagnostics is an error or fatal. */
  function SyntaxValid(ps: ProcessedSource): (valid: bool)
    ensures valid <==> forall i :: 0 <= i < |ps.diagnostics| ==> !IsSyntaxError(ps.diagnostics[i])
  {
    ValidSyntax(ps.diagnostics)
  }

  // ---------------------------------------------------------------------
  // Line splitting

  /** A line-free prefix is glued to the first line of what follows it. */
  lemma {:induction false} SplitLinesPrefix(a: string, s: string)
    requires NoLinefeed(a)
    ensures SplitLines(a + s) == [a + SplitLines(s)[0]] + SplitLines(s)[1..]
  {
    if a == [] {
      var r := SplitLines(s);
      assert a + s == s && a + r[0] == r[0];
      assert r == [r[0]] + r[1..];
    } else {
      var t := a + s;
      assert t[0] == a[0] && t[0] != '\n';
      assert t[1..] == a[1..] + s;
      SplitLinesPrefix(a[1..], s);
      assert [a[0]] + (a[1..] + SplitLines(s)[0]) == a + SplitLines(s)[0];
    }
  }

  /** Text without a linefeed is a single line. */
  lemma SplitLinesSingle(s: string)
    requires NoLinefeed(s)
    ensures SplitLines(s) == [s]
  {
    SplitLinesPrefix(s, "");
    assert s + "" == s;
  }

  /** Line 0 is exactly the text before the first linefeed. */
  lemma FirstLineBeforeLinefeed(a: string, t: string)
    requires NoLinefeed(a)
    ensures SplitLines(a + "\n" + t)[0] == a
  {
    assert a + "\n" + t == a + ("\n" + t);
    SplitLinesPrefix(a, "\n" + t);
    assert ("\n" + t)[1..] == t;
  }

  /** The number of lines is the number of linefeeds plus one. */
  lemma {:induction false} LineCount(s: string)
    ensures |SplitLines(s)| == CountLinefeeds(s) + 1
  {
    if s != [] {
      LineCount(s[1..]);
    }
  }

  /** Joining k linefeed-free strings and splitting the result gives them back. */
  lemma {:induction false} SplitJoin(lines: seq<string>)
    requires |lines| >= 1
    requires forall i :: 0 <= i < |lines| ==> NoLinefeed(lines[i])
    ensures SplitLines(JoinLines(lines)) == lines
  {
    if |lines| == 1 {
      SplitLinesSingle(lines[0]);
    } else {
      var tail := JoinLines(lines[1..]);
      assert JoinLines(lines) == lines[0] + ("\n" + tail);
      SplitLinesPrefix(lines[0], "\n" + tail);
      assert ("\n" + tail)[0] == '\n' && ("\n" + tail)[1..] == tail;
      assert SplitLines("\n" + tail) == [""] + SplitLines(tail);
      SplitJoin(lines[1..]);
      assert lines[0] + "" == lines[0];
      assert lines == [lines[0]] + lines[1..];
    }
  }

  /** A source joined from k linefeed-free strings has exactly k lines. */
  lemma JoinedLineCount(lines: seq<string>)
    requires |lines| >= 1
    requires forall i :: 0 <= i < |lines| ==> NoLinefeed(lines[i])
    ensures |SplitLines(JoinLines(lines))| == |lines|
  {
    SplitJoin(lines);
  }

  /** Splitting loses nothing: joining the lines again restores the text. */
  lemma {:induction false} JoinSplit(s: string)
    ensures JoinLines(SplitLines(s)) == s
  {
    if s != [] {
      var rest := SplitLines(s[1..]);
      JoinSplit(s[1..]);
      if s[0] == '\n' {
        assert ([""] + rest)[1..] == rest;
        assert s == [s[0]] + s[1..];
      } else {
        var lines := [[s[0]] + rest[0]] + rest[1..];
        assert lines[1..] == rest[1..];
        if |rest| == 1 {
          assert s == [s[0]] + s[1..];
        } else {
          assert JoinLines(rest) == rest[0] + "\n" + JoinLines(rest[1..]);
          assert s == [s[0]] + s[1..];
        }
      }
    }
  }

  // ---------------------------------------------------------------------
  // The three index views

  /** A range yields the lines `first` through `last`, in order. */
  lemma RangeInOrder(lines: seq<string>, first: nat, last: nat)
    requires first <= last < |lines|
    ensures Range(lines, first, last).Some?
    ensures |Range(lines, first, last).value| == last - first + 1
    ensures forall k :: 0 <= k < |Range(lines, first, last).value| ==>
              At(lines, first + k) == Some(Range(lines, first, last).value[k])
  {
  }

  /** `[start, length]` is the same view as `[start..start + length - 1]`. */
  lemma SliceIsRange(lines: seq<string>, start: nat, length: nat)
    requires length >= 1
    ensures Slice(lines, start, length) == Range(lines, start, start + length - 1)
  {
  }

  // ---------------------------------------------------------------------
  // Syntax validity

  /** One error or fatal diagnostic makes the syntax invalid, whatever else is present. */
  lemma SyntaxErrorInvalidates(diagnostics: seq<Level>, i: nat)
    requires i < |diagnostics| && IsSyntaxError(diagnostics[i])
    ensures !ValidSyntax(diagnostics)
  {
  }

  /** Warnings (or notes) alone leave the syntax valid. */
  lemma WarningsLeaveSyntaxValid(diagnostics: seq<Level>)
    requires forall i :: 0 <= i < |diagnostics| ==> diagnostics[i] in {Note, Warning}
    ensures ValidSyntax(diagnostics)
  {
  }

  /** Validity does not depend on how the diagnostics are grouped. */
  lemma {:induction false} ValidSyntaxAppend(a: seq<Level>, b: seq<Level>)
    ensures ValidSyntax(a + b) == (ValidSyntax(a) && ValidSyntax(b))
  {
    if a == [] {
      assert a + b == b;
    } else {
      assert (a + b)[1..] == a[1..] + b;
      ValidSyntaxAppend(a[1..], b);
    }
  }

  // ---------------------------------------------------------------------
  // The snapshot used throughout the examples: four statements on four lines

  function ExampleSource(): string {
    JoinLines(["def some_method", "  puts 'foo'", "end", "some_method"])
  }

  /** Line count, first line, and the three index views agree on the example. */
  lemma ExampleLineViews(diagnostics: seq<Level>)
    ensures var lines := Lines(ProcessedSource(ExampleSource(), diagnostics));
      && |lines| == 4
      && lines[0] == "def some_method"
      && At(lines, 2) == Some("end")
      && Range(lines, 2, 3) == Some(["end", "some_method"])
      && Slice(lines, 2, 2) == Some(["end", "some_method"])
  {
    var parts := ["def some_method", "  puts 'foo'", "end", "some_method"];
    assert forall i :: 0 <= i < |parts| ==> NoLinefeed(parts[i]);
    SplitJoin(parts);
    var lines := Lines(ProcessedSource(ExampleSource(), diagnostics));
    assert lines == parts;
    assert parts[2..4] == ["end", "some_method"];
  }

  /** The four diagnostic configurations of the example source and the verdict on each. */
  lemma ExampleValidity()
    ensures !SyntaxValid(ProcessedSource(ExampleSource(), [Error]))
    ensures !SyntaxValid(ProcessedSource(ExampleSource(), [Fatal]))
    ensures SyntaxValid(ProcessedSource(ExampleSource(), [Warning]))
    ensures !SyntaxValid(ProcessedSource(ExampleSource(), [Error, Warning]))
  {
  }
}

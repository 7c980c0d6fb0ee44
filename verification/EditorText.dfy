/** Positions, ranges and range replacement in the editor's text. */
module EditorText {

  /** The lines of a text, cut at every newline. */
  function Split(text: string): (lines: seq<string>)
    ensures |lines| > 0
  {
    if text == "" then [""]
    else
      var rest := Split(text[1..]);
      if text[0] == '\n' then [""] + rest else [[text[0]] + rest[0]] + rest[1..]
  }

  /** How many newlines a text has. */
  function Newlines(s: string): nat {
    if s == "" then 0 else (if s[0] == '\n' then 1 else 0) + Newlines(s[1..])
  }

  /** The position of the last newline, or -1. */
  function LastNewline(s: string): (r: int)
    ensures -1 <= r < |s|
  {
    if s == "" then -1
    else if s[|s| - 1] == '\n' then |s| - 1
    else LastNewline(s[..|s| - 1])
  }

  /** The characters of the first `k` lines, their newlines included. */
  function LineStart(lines: seq<string>, k: nat): nat
    requires k <= |lines|
  {
    if k == 0 then 0 else LineStart(lines, k - 1) + |lines[k - 1]| + 1
  }

  function Clamp(x: int, lo: int, hi: int): (r: int)
    requires lo <= hi
    ensures lo <= r <= hi && (lo <= x <= hi ==> r == x)
    ensures (x < lo ==> r == lo) && (x > hi ==> r == hi)
  {
    if x < lo then lo else if x > hi then hi else x
  }

  /** A position: 1-indexed line, 0-indexed column. */
  datatype Position = Position(line: int, col: int)

  /** The position an arbitrary pair is clamped to. */
  function ClampTo(lines: seq<string>, p: Position): (r: Position)
    requires |lines| > 0
    ensures Valid(lines, r)
  {
    var line := Clamp(p.line, 1, |lines|);
    Position(line, Clamp(p.col, 0, |lines[line - 1]|))
  }

  predicate Valid(lines: seq<string>, p: Position) {
    1 <= p.line <= |lines| && 0 <= p.col <= |lines[p.line - 1]|
  }

  function TextToOffset(lines: seq<string>, p: Position): nat
    requires |lines| > 0
  {
    var q := ClampTo(lines, p);
    LineStart(lines, q.line - 1) + q.col
  }

  function OffsetToLineCol(text: string, offset: nat): Position
    requires offset <= |text|
  {
    var before := text[..offset];
    Position(Newlines(before) + 1, offset - LastNewline(before) - 1)
  }

  // ------------------------------------------------------------------
  // Positions and offsets undo each other
  // ------------------------------------------------------------------

  lemma {:induction false} LastNewlineCons(c: char, s: string)
    ensures LastNewline([c] + s) == if LastNewline(s) >= 0 then LastNewline(s) + 1 else if c == '\n' then 0 else -1
  {
    if s == "" {
      assert [c][..0] == "";
    } else {
      assert ([c] + s)[..|s|] == [c] + s[..|s| - 1];
      if s[|s| - 1] != '\n' {
        LastNewlineCons(c, s[..|s| - 1]);
      }
    }
  }

  lemma {:induction false} LineStartCons(line: string, lines: seq<string>, k: nat)
    requires k <= |lines|
    ensures LineStart([line] + lines, k + 1) == |line| + 1 + LineStart(lines, k)
  {
    if k > 0 {
      LineStartCons(line, lines, k - 1);
      assert ([line] + lines)[k] == lines[k - 1];
    }
  }

  /** Growing the first line by a character moves every later line by one. */
  lemma {:induction false} LineStartGrow(a: seq<string>, b: seq<string>, k: nat)
    requires |a| == |b| > 0 && |b[0]| == |a[0]| + 1 && a[1..] == b[1..] && 0 < k <= |a|
    ensures LineStart(b, k) == LineStart(a, k) + 1
  {
    if k > 1 {
      LineStartGrow(a, b, k - 1);
      assert a[k - 1] == a[1..][k - 2] == b[1..][k - 2] == b[k - 1];
    }
  }

  /** What a text starting with `ch` has before an offset, from what the rest has. */
  lemma PrefixCons(text: string, o: nat)
    requires 0 < o <= |text|
    ensures Newlines(text[..o]) == (if text[0] == '\n' then 1 else 0) + Newlines(text[1..][..o - 1])
    ensures var l := LastNewline(text[1..][..o - 1]);
            LastNewline(text[..o]) == if l >= 0 then l + 1 else if text[0] == '\n' then 0 else -1
  {
    assert text[..o] == [text[0]] + text[1..][..o - 1];
    assert text[..o][1..] == text[1..][..o - 1];
    LastNewlineCons(text[0], text[1..][..o - 1]);
  }

  /** Where a later line starts, from where it starts in the text without its first character. */
  lemma StartCons(text: string, k: nat)
    requires text != "" && 0 < k < |Split(text)|
    ensures var rest := Split(text[1..]);
            var j := if text[0] == '\n' then k - 1 else k;
            j < |rest| && Split(text)[k] == rest[j] && LineStart(Split(text), k) == LineStart(rest, j) + 1
  {
    var lines, rest := Split(text), Split(text[1..]);
    if text[0] == '\n' {
      LineStartCons("", rest, k - 1);
    } else {
      assert lines[k] == lines[1..][k - 1] == rest[1..][k - 1] == rest[k];
      LineStartGrow(rest, lines, k);
    }
  }

  /** The text before column `c` of line `k` has `k` line breaks, the last just before the line. */
  lemma {:induction false} BeforePosition(text: string, k: nat, c: nat)
    requires k < |Split(text)| && c <= |Split(text)[k]|
    ensures var o := LineStart(Split(text), k) + c;
            o <= |text| && Newlines(text[..o]) == k && LastNewline(text[..o]) == LineStart(Split(text), k) - 1
  {
    if k == 0 && c == 0 {
      assert text[..0] == "";
    } else if k == 0 {
      BeforePosition(text[1..], 0, c - 1);
      PrefixCons(text, c);
    } else {
      StartCons(text, k);
      BeforePosition(text[1..], if text[0] == '\n' then k - 1 else k, c);
      PrefixCons(text, LineStart(Split(text), k) + c);
    }
  }

  /** All that matters of `lines` being the lines of `text`. */
  ghost predicate LinesOf(text: string, lines: seq<string>) {
    |lines| > 0 && forall k: nat, c: nat :: k < |lines| && c <= |lines[k]| ==> Starts(text, lines, k, c)
  }

  ghost predicate Starts(text: string, lines: seq<string>, k: nat, c: nat)
    requires k < |lines|
  {
    var o := LineStart(lines, k) + c;
    o <= |text| && OffsetToLineCol(text, o) == Position(k + 1, c)
  }

  lemma SplitLines(text: string)
    ensures LinesOf(text, Split(text))
  {
    forall k: nat, c: nat | k < |Split(text)| && c <= |Split(text)[k]| ensures Starts(text, Split(text), k, c) {
      BeforePosition(text, k, c);
    }
  }

  lemma RoundTripIn(text: string, lines: seq<string>, p: Position)
    requires LinesOf(text, lines)
    ensures TextToOffset(lines, p) <= |text| && OffsetToLineCol(text, TextToOffset(lines, p)) == ClampTo(lines, p)
  {
    var q := ClampTo(lines, p);
    assert Starts(text, lines, q.line - 1, q.col);
  }

  /** Going from a position to its offset and back gives the position it was clamped to. */
  lemma PositionRoundTrip(text: string, p: Position)
    ensures TextToOffset(Split(text), p) <= |text|
    ensures OffsetToLineCol(text, TextToOffset(Split(text), p)) == ClampTo(Split(text), p)
  {
    SplitLines(text);
    RoundTripIn(text, Split(text), p);
  }

  lemma ClampValid(lines: seq<string>, p: Position)
    requires |lines| > 0 && Valid(lines, p)
    ensures ClampTo(lines, p) == p && TextToOffset(lines, p) == LineStart(lines, p.line - 1) + p.col
  {
  }

  /** A line ends at the end of the text or before a newline, and no line holds a newline. */
  lemma {:induction false} LineEnds(text: string, k: nat)
    requires k < |Split(text)|
    ensures var o := LineStart(Split(text), k) + |Split(text)[k]|;
            o <= |text| && (if k == |Split(text)| - 1 then o == |text| else o < |text| && text[o] == '\n')
    ensures '\n' !in Split(text)[k]
  {
    if text != "" {
      if k == 0 {
        if text[0] != '\n' {
          LineEnds(text[1..], 0);
        }
      } else {
        StartCons(text, k);
        LineEnds(text[1..], if text[0] == '\n' then k - 1 else k);
      }
    }
  }

  /** Where a pair out of range is read: a line before the first as the first, one past the last as the last, a
      column before the line as its start, and one past the line's end as the end, which is the end of the text
      or the place before a newline. */
  lemma OutOfRange(text: string, p: Position)
    ensures var lines, o := Split(text), TextToOffset(Split(text), p);
            && o <= |text|
            && Newlines(text[..o]) == (if p.line < 1 then 0 else if p.line > |lines| then |lines| - 1 else p.line - 1)
            && (p.col <= 0 ==> o == 0 || text[o - 1] == '\n')
            && var line := Newlines(text[..o]);
               line < |lines| && (if p.col > |lines[line]| then o == |text| || text[o] == '\n' else p.col >= 0 ==> o - LineStart(lines, line) == p.col)
  {
    var lines := Split(text);
    hide Split, LineStart, Newlines, LastNewline;
    PositionRoundTrip(text, p);
    var q, o := ClampTo(lines, p), TextToOffset(lines, p);
    assert OffsetToLineCol(text, o) == q;
    assert Newlines(text[..o]) == q.line - 1 && o - LastNewline(text[..o]) - 1 == q.col;
    LineEnds(text, q.line - 1);
    LastNewlineIs(text[..o]);
  }

  lemma {:induction false} LastNewlineIs(s: string)
    ensures LastNewline(s) >= 0 ==> s[LastNewline(s)] == '\n'
    ensures forall k :: LastNewline(s) < k < |s| ==> s[k] != '\n'
  {
    if s != "" && s[|s| - 1] != '\n' {
      LastNewlineIs(s[..|s| - 1]);
    }
  }

  lemma {:induction false} OffsetHasPosition(text: string, o: nat) returns (p: Position)
    requires o <= |text|
    ensures Valid(Split(text), p) && LineStart(Split(text), p.line - 1) + p.col == o
  {
    var lines := Split(text);
    if o == 0 {
      p := Position(1, 0);
    } else {
      var rest := Split(text[1..]);
      var q := OffsetHasPosition(text[1..], o - 1);
      assert lines == if text[0] == '\n' then [""] + rest else [[text[0]] + rest[0]] + rest[1..];
      hide Split;
      if text[0] == '\n' {
        p := Position(q.line + 1, q.col);
        LineStartCons("", rest, q.line - 1);
      } else if q.line == 1 {
        p := Position(1, q.col + 1);
      } else {
        p := q;
        assert lines[q.line - 1] == lines[1..][q.line - 2] == rest[1..][q.line - 2] == rest[q.line - 1];
        LineStartGrow(rest, lines, q.line - 1);
      }
    }
  }

  /** Going from an offset to its position and back gives the offset, and the position is valid. */
  lemma OffsetRoundTrip(text: string, o: nat)
    requires o <= |text|
    ensures Valid(Split(text), OffsetToLineCol(text, o))
    ensures TextToOffset(Split(text), OffsetToLineCol(text, o)) == o
  {
    var p := OffsetHasPosition(text, o);
    hide OffsetToLineCol, LineStart, Split;
    ClampValid(Split(text), p);
    PositionRoundTrip(text, p);
  }

  // ------------------------------------------------------------------
  // Reading and replacing a range
  // ------------------------------------------------------------------

  /** The two ends of a range as offsets, in order. */
  function Ends(text: string, from: Position, to: Position): (r: (nat, nat))
    ensures r.0 <= r.1 <= |text|
  {
    PositionRoundTrip(text, from);
    PositionRoundTrip(text, to);
    var a, b := TextToOffset(Split(text), from), TextToOffset(Split(text), to);
    if a > b then (b, a) else (a, b)
  }

  function GetRange(text: string, from: Position, to: Position): string {
    var (a, b) := Ends(text, from, to);
    text[a..b]
  }

  function Replaced(text: string, from: Position, to: Position, replacement: string): string {
    var (a, b) := Ends(text, from, to);
    text[..a] + replacement + text[b..]
  }

  datatype Edit = Edit(linesTotal: nat, charsTotal: nat, cursor: Position)

  class Editor {
    var sourceText: string

    constructor (text: string)
      ensures sourceText == text
    {
      sourceText := text;
    }

    /** `_ai_rpc_editor_replace_range`. */
    method ReplaceRange(from: Position, to: Position, replacement: string) returns (edit: Edit)
      modifies this
      ensures sourceText == Replaced(old(sourceText), from, to, replacement)
      ensures edit.linesTotal == |Split(sourceText)| && edit.charsTotal == |sourceText|
      ensures var at := Ends(old(sourceText), from, to).0 + |replacement|;
              at <= |sourceText| && edit.cursor == OffsetToLineCol(sourceText, at)
    {
      var lines := Split(sourceText);
      PositionRoundTrip(sourceText, from);
      PositionRoundTrip(sourceText, to);
      var fromOff, toOff := TextToOffset(lines, from), TextToOffset(lines, to);
      if fromOff > toOff {
        fromOff, toOff := toOff, fromOff;
      }
      sourceText := sourceText[..fromOff] + replacement + sourceText[toOff..];
      var end := fromOff + |replacement|;
      var before := sourceText[..end];
      edit := Edit(|Split(sourceText)|, |sourceText|, Position(Newlines(before) + 1, end - LastNewline(before) - 1));
    }
  }

  lemma EndsOfOffsets(text: string, a: nat, b: nat)
    requires a <= b <= |text|
    ensures Ends(text, OffsetToLineCol(text, a), OffsetToLineCol(text, b)) == (a, b)
  {
    OffsetRoundTrip(text, a);
    OffsetRoundTrip(text, b);
  }

  /** Where the replaced range starts, before and after the edit alike, and where the reported cursor is. */
  function StartOf(text: string, from: Position, to: Position): Position {
    OffsetToLineCol(text, Ends(text, from, to).0)
  }

  function CursorOf(text: string, from: Position, to: Position, replacement: string): Position {
    var newText, at := Replaced(text, from, to, replacement), Ends(text, from, to).0 + |replacement|;
    OffsetToLineCol(newText, at)
  }

  lemma ReplacedParts(text: string, a: nat, b: nat, replacement: string)
    requires a <= b <= |text|
    ensures var after, c := text[..a] + replacement + text[b..], a + |replacement|;
            && after[..a] == text[..a] && after[a..c] == replacement && after[c..] == text[b..]
            && after[..a] + text[a..b] + after[c..] == text
  {
  }

  lemma SameStart(text: string, after: string, a: nat)
    requires a <= |text| && a <= |after| && text[..a] == after[..a]
    ensures OffsetToLineCol(text, a) == OffsetToLineCol(after, a)
  {
  }

  /** For any range, even reversed or out of bounds: after a replacement, the text from the range's start to
      the reported cursor is the replacement, and replacing that by what was there restores the document. */
  lemma ReplaceIsUndone(text: string, from: Position, to: Position, replacement: string)
    ensures var after := Replaced(text, from, to, replacement);
            var start, cursor := StartOf(text, from, to), CursorOf(text, from, to, replacement);
            && GetRange(after, start, cursor) == replacement
            && Replaced(after, start, cursor, GetRange(text, from, to)) == text
  {
    hide OffsetToLineCol, Ends;
    var (a, b) := Ends(text, from, to);
    var after := Replaced(text, from, to, replacement);
    SameStart(text, after, a);
    ReplacedParts(text, a, b, replacement);
    EndsOfOffsets(after, a, a + |replacement|);
  }

  lemma {:induction false} NewlinesConcat(a: string, b: string)
    ensures Newlines(a + b) == Newlines(a) + Newlines(b)
  {
    if a == "" {
      assert a + b == b;
    } else {
      assert (a + b)[1..] == a[1..] + b;
      NewlinesConcat(a[1..], b);
    }
  }

  lemma {:induction false} SplitCount(text: string)
    ensures |Split(text)| == Newlines(text) + 1
  {
    if text != "" {
      SplitCount(text[1..]);
    }
  }

  /** The reported totals change by exactly what was inserted less what was deleted. */
  lemma TotalsChange(text: string, from: Position, to: Position, replacement: string)
    ensures var after, deleted := Replaced(text, from, to, replacement), GetRange(text, from, to);
            && |after| == |text| + |replacement| - |deleted|
            && |Split(after)| == |Split(text)| + Newlines(replacement) - Newlines(deleted)
  {
    var (a, b) := Ends(text, from, to);
    assert text == text[..a] + text[a..b] + text[b..];
    NewlinesConcat(text[..a] + text[a..b], text[b..]);
    NewlinesConcat(text[..a], text[a..b]);
    NewlinesConcat(text[..a] + replacement, text[b..]);
    NewlinesConcat(text[..a], replacement);
    SplitCount(text);
    SplitCount(Replaced(text, from, to, replacement));
  }
}

/** The undo and redo stacks of an editor tab. */
module UndoHistory {

  const LIMIT: nat := 100

  datatype Entry = Entry(text: string, caret: int)

  datatype History = History(text: string, undo: seq<Entry>, redo: seq<Entry>)

  function Min(a: int, b: int): int {
    if a < b then a else b
  }

  function Max(a: int, b: int): int {
    if a > b then a else b
  }

  /** The `i`-th character counted from the end. */
  function FromEnd(s: string, i: nat): char
    requires i < |s|
  {
    s[|s| - 1 - i]
  }

  /** The last `j` characters agree. */
  ghost predicate SuffixAgrees(a: string, b: string, j: nat) {
    j <= |a| && j <= |b| && forall i :: 0 <= i < j ==> FromEnd(a, i) == FromEnd(b, i)
  }

  /** Going on from a common suffix of length `j` to the longest one. */
  function Extend(a: string, b: string, j: nat): (r: nat)
    requires SuffixAgrees(a, b, j)
    ensures j <= r && SuffixAgrees(a, b, r)
    ensures r == |a| || r == |b| || FromEnd(a, r) != FromEnd(b, r)
    decreases |a| - j
  {
    if j < |a| && j < |b| && FromEnd(a, j) == FromEnd(b, j) then Extend(a, b, j + 1) else j
  }

  function CommonSuffix(a: string, b: string): nat {
    Extend(a, b, 0)
  }

  /** The suffix found is a common one, and none is longer. */
  lemma LongestSuffix(a: string, b: string, k: nat)
    ensures SuffixAgrees(a, b, CommonSuffix(a, b))
    ensures SuffixAgrees(a, b, k) ==> k <= CommonSuffix(a, b)
  {
  }

  /** The caret the previous text gets when it is superseded by `next` with the caret at `caret`. */
  function UndoCaret(prev: string, next: string, caret: int): int {
    if caret > 0 then Max(0, Min(caret - (|next| - |prev|), |prev|))
    else Max(0, |prev| - CommonSuffix(prev, next))
  }

  /** The caret a text gets when `other` replaces it by undo or redo. */
  function SwapCaret(text: string, other: string): int {
    Max(0, |text| - CommonSuffix(text, other))
  }

  function Newest(stack: seq<Entry>): seq<Entry> {
    if |stack| > LIMIT then stack[|stack| - LIMIT..] else stack
  }

  function Edited(h: History, next: string, caret: int): History {
    if h.text == next then h
    else History(next, Newest(h.undo + [Entry(h.text, UndoCaret(h.text, next, caret))]), [])
  }

  function Undone(h: History): History {
    if h.undo == [] then h
    else
      var e := h.undo[|h.undo| - 1];
      History(e.text, h.undo[..|h.undo| - 1], h.redo + [Entry(h.text, SwapCaret(h.text, e.text))])
  }

  function Redone(h: History): History {
    if h.redo == [] then h
    else
      var e := h.redo[|h.redo| - 1];
      History(e.text, h.undo + [Entry(h.text, SwapCaret(h.text, e.text))], h.redo[..|h.redo| - 1])
  }

  class EditorTab {
    var sourceText: string
    var undoStack: seq<Entry>
    var redoStack: seq<Entry>
    var caretIndex: int

    ghost function View(): History
      reads this
    {
      History(sourceText, undoStack, redoStack)
    }

    constructor (text: string)
      ensures View() == History(text, [], [])
    {
      sourceText, undoStack, redoStack, caretIndex := text, [], [], 0;
    }

    /** The suffix scan. */
    static method ScanSuffix(a: string, b: string) returns (j: nat)
      ensures j == CommonSuffix(a, b)
    {
      j := 0;
      var minLen := Min(|a|, |b|);
      while j < minLen && FromEnd(a, j) == FromEnd(b, j)
        invariant j <= minLen && SuffixAgrees(a, b, j) && Extend(a, b, j) == CommonSuffix(a, b)
      {
        j := j + 1;
      }
    }

    /** Where undo will put the caret. */
    method EditCaret(next: string, caret: int) returns (undoCaret: int)
      ensures undoCaret == UndoCaret(sourceText, next, caret)
    {
      if caret > 0 {
        var delta := |next| - |sourceText|;
        undoCaret := Max(0, Min(caret - delta, |sourceText|));
      } else {
        var j := ScanSuffix(sourceText, next);
        undoCaret := Max(0, |sourceText| - j);
      }
    }

    method TextChanged(next: string, caret: int)
      modifies this
      ensures View() == Edited(old(View()), next, caret)
    {
      if sourceText != next {
        var undoCaret := EditCaret(next, caret);
        undoStack := undoStack + [Entry(sourceText, undoCaret)];
        if |undoStack| > LIMIT {
          undoStack := undoStack[|undoStack| - LIMIT..];
        }
        redoStack := [];
      }
      sourceText := next;
    }

    method Undo()
      modifies this
      ensures View() == Undone(old(View()))
      ensures old(undoStack) != [] ==> caretIndex == old(undoStack)[|old(undoStack)| - 1].caret
    {
      if undoStack == [] {
        return;
      }
      var entry := undoStack[|undoStack| - 1];
      undoStack := undoStack[..|undoStack| - 1];
      var j := ScanSuffix(sourceText, entry.text);
      redoStack := redoStack + [Entry(sourceText, Max(0, |sourceText| - j))];
      sourceText, caretIndex := entry.text, entry.caret;
    }

    method Redo()
      modifies this
      ensures View() == Redone(old(View()))
      ensures old(redoStack) != [] ==> caretIndex == old(redoStack)[|old(redoStack)| - 1].caret
    {
      if redoStack == [] {
        return;
      }
      var entry := redoStack[|redoStack| - 1];
      redoStack := redoStack[..|redoStack| - 1];
      var j := ScanSuffix(sourceText, entry.text);
      undoStack := undoStack + [Entry(sourceText, Max(0, |sourceText| - j))];
      sourceText, caretIndex := entry.text, entry.caret;
    }
  }

  // ------------------------------------------------------------------
  // Every run
  // ------------------------------------------------------------------

  datatype Action = Edit(next: string, caret: int) | Undo | Redo

  function Do(h: History, a: Action): History {
    match a
    case Edit(next, caret) => Edited(h, next, caret)
    case Undo => Undone(h)
    case Redo => Redone(h)
  }

  function Run(text: string, actions: seq<Action>): History {
    if actions == [] then History(text, [], [])
    else Do(Run(text, actions[..|actions| - 1]), actions[|actions| - 1])
  }

  ghost predicate CaretsInside(stack: seq<Entry>) {
    forall i :: 0 <= i < |stack| ==> 0 <= stack[i].caret <= |stack[i].text|
  }

  /** Over every run from an empty history the two stacks hold at most 100 entries together, and every
      stored caret lies within its own text. */
  lemma {:induction false} RunBounded(text: string, actions: seq<Action>)
    ensures var h := Run(text, actions);
            |h.undo| + |h.redo| <= 100 && CaretsInside(h.undo) && CaretsInside(h.redo)
  {
    if actions != [] {
      RunBounded(text, actions[..|actions| - 1]);
    }
  }

  /** When one stretch `del` of a text is replaced by `ins` and the caret is behind the insertion, undo will
      put the caret behind the deleted stretch. With the caret at 0 it is the suffix scan that finds out. */
  lemma UndoCaretIsEditPoint(pre: string, del: string, ins: string, post: string)
    ensures UndoCaret(pre + del + post, pre + ins + post, |pre + ins|) == |pre + del|
  {
    if pre + ins == "" {
      assert pre + del + post == del + post && pre + ins + post == post;
      LongestSuffix(del + post, post, |post|);
    }
  }

  /** Without a caret, or with one at 0, the suffix scan finds the place. */
  lemma UndoCaretWithoutCaret(del: string, ins: string, post: string, caret: int)
    requires caret <= 0 && (del == "" || ins == "" || del[|del| - 1] != ins[|ins| - 1])
    ensures UndoCaret(del + post, ins + post, caret) == |del|
  {
    SwapCaretIsEditPoint(del, ins, post);
  }

  /** The caret that undo and redo compute: behind the stretch in which the two texts differ. */
  lemma SwapCaretIsEditPoint(del: string, ins: string, post: string)
    requires del == "" || ins == "" || del[|del| - 1] != ins[|ins| - 1]
    ensures SwapCaret(del + post, ins + post) == |del|
  {
    var a, b, n := del + post, ins + post, |post|;
    LongestSuffix(a, b, n);
    var j := CommonSuffix(a, b);
    assert j > n ==> FromEnd(a, n) == FromEnd(b, n);
  }

  // ------------------------------------------------------------------
  // Undo and redo move along one timeline
  // ------------------------------------------------------------------

  function Texts(stack: seq<Entry>): (r: seq<string>)
    ensures |r| == |stack|
  {
    seq(|stack|, i requires 0 <= i < |stack| => stack[i].text)
  }

  function Reversed(stack: seq<Entry>): (r: seq<string>)
    ensures |r| == |stack|
  {
    seq(|stack|, i requires 0 <= i < |stack| => stack[|stack| - 1 - i].text)
  }

  /** All texts the stacks and the editor hold, oldest first; the current one is at position `|h.undo|`. */
  function Timeline(h: History): (r: seq<string>)
    ensures |r| == |h.undo| + 1 + |h.redo| && r[|h.undo|] == h.text
  {
    Texts(h.undo) + [h.text] + Reversed(h.redo)
  }

  /** An edit drops what could be redone and puts the new text at the end; only when the undo stack is full
      does the oldest text go. */
  lemma EditExtendsTimeline(h: History, next: string, caret: int)
    requires h.text != next && |h.undo| <= 100
    ensures var kept := Timeline(h)[..|h.undo| + 1];
            Timeline(Edited(h, next, caret)) == (if |h.undo| == 100 then kept[1..] else kept) + [next]
  {
    var e := Entry(h.text, UndoCaret(h.text, next, caret));
    var g := Edited(h, next, caret);
    assert Texts(h.undo + [e]) == Texts(h.undo) + [h.text];
    assert Reversed(g.redo) == [];
    if |h.undo| == 100 {
      assert g.undo == (h.undo + [e])[1..];
      assert Texts(g.undo) == Texts(h.undo + [e])[1..];
    }
  }

  lemma UndoMovesBack(h: History)
    ensures Timeline(Undone(h)) == Timeline(h) && |Undone(h).undo| == Max(0, |h.undo| - 1)
  {
    if h.undo != [] {
      var e, g := h.undo[|h.undo| - 1], Undone(h);
      assert Texts(h.undo) == Texts(g.undo) + [e.text];
      assert Reversed(g.redo) == [h.text] + Reversed(h.redo);
    }
  }

  lemma RedoMovesOn(h: History)
    ensures Timeline(Redone(h)) == Timeline(h) && |Redone(h).undo| == Min(|h.undo| + |h.redo|, |h.undo| + 1)
  {
    if h.redo != [] {
      var e, g := h.redo[|h.redo| - 1], Redone(h);
      assert Texts(g.undo) == Texts(h.undo) + [h.text];
      assert Reversed(h.redo) == [e.text] + Reversed(g.redo);
    }
  }

  function UndoN(h: History, k: nat): History
    decreases k
  {
    if k == 0 then h else UndoN(Undone(h), k - 1)
  }

  function RedoN(h: History, k: nat): History
    decreases k
  {
    if k == 0 then h else RedoN(Redone(h), k - 1)
  }

  lemma {:induction false} UndoNMoves(h: History, k: nat)
    ensures Timeline(UndoN(h, k)) == Timeline(h) && |UndoN(h, k).undo| == Max(0, |h.undo| - k)
    decreases k
  {
    if k > 0 {
      UndoMovesBack(h);
      UndoNMoves(Undone(h), k - 1);
    }
  }

  lemma {:induction false} RedoNMoves(h: History, k: nat)
    ensures Timeline(RedoN(h, k)) == Timeline(h) && |RedoN(h, k).undo| == Min(|h.undo| + |h.redo|, |h.undo| + k)
    decreases k
  {
    if k > 0 {
      RedoMovesOn(h);
      var g := Redone(h);
      assert |Timeline(g)| == |Timeline(h)|;
      RedoNMoves(g, k - 1);
    }
  }

  /** The text and the texts of both stacks are the same. */
  ghost predicate SameTexts(h: History, g: History) {
    h.text == g.text && Texts(h.undo) == Texts(g.undo) && Texts(h.redo) == Texts(g.redo)
  }

  lemma PositionDecidesTexts(h: History, g: History)
    requires Timeline(h) == Timeline(g)
    ensures SameTexts(h, g) <==> |h.undo| == |g.undo|
  {
    if |h.undo| == |g.undo| {
      var t, n := Timeline(h), |h.undo|;
      assert Texts(h.undo) == t[..n] == Texts(g.undo);
      assert Reversed(h.redo) == t[n + 1..] == Reversed(g.redo);
      forall i | 0 <= i < |h.redo| ensures Texts(h.redo)[i] == Texts(g.redo)[i] {
        assert Reversed(h.redo)[|h.redo| - 1 - i] == Reversed(g.redo)[|h.redo| - 1 - i];
      }
    }
  }

  /** `k` undos followed by `k` redos give back the text and both stacks' texts exactly when there were `k`
      entries to undo, or none to redo. */
  lemma UndoRedoRestores(h: History, k: nat)
    ensures SameTexts(RedoN(UndoN(h, k), k), h) <==> k <= |h.undo| || h.redo == []
  {
    UndoNMoves(h, k);
    var g := UndoN(h, k);
    assert |Timeline(g)| == |Timeline(h)|;
    RedoNMoves(g, k);
    PositionDecidesTexts(RedoN(g, k), h);
  }

  /** A concrete history that is not given back: one edit, undone, with nothing more to undo. */
  lemma UndoneOnceTooOften()
    ensures var h := Run("a", [Edit("b", 1), Undo]);
            h.undo == [] && !SameTexts(RedoN(UndoN(h, 1), 1), h)
  {
    var start, edited := Run("a", []), Edited(History("a", [], []), "b", 1);
    assert [Edit("b", 1)][..0] == [] && [Edit("b", 1), Undo][..1] == [Edit("b", 1)];
    assert Run("a", [Edit("b", 1)]) == edited;
    var h := Run("a", [Edit("b", 1), Undo]);
    assert h == Undone(edited);
    UndoRedoRestores(h, 1);
  }
}

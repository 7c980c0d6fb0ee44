/** Builds a tree from indented lines: the debugger's side panels. */
module TreeLines {
  import opened Common
  import opened Decimal

  /** A node of the document; children are given by position in the node list, the root at 0. */
  datatype Node = Node(id: string, caption: string, children: seq<nat>)

  function Indent(line: string): nat {
    if line != "" && line[0] == ' ' then 1 + Indent(line[1..]) else 0
  }

  /** The indent is the number of spaces the line starts with. */
  lemma {:induction false} IndentCounts(line: string)
    ensures Indent(line) <= |line| && forall k :: 0 <= k < Indent(line) ==> line[k] == ' '
    ensures Indent(line) == |line| || line[Indent(line)] != ' '
  {
    if line != "" && line[0] == ' ' {
      IndentCounts(line[1..]);
    }
  }

  predicate Blank(line: string) {
    Strip(line) == ""
  }

  /** A blank line is one of white space only. */
  lemma BlankMeansSpaces(line: string)
    ensures Blank(line) <==> AllSpace(line)
  {
    var before, after := StripParts(line);
    if AllSpace(line) {
      StripOfPadded(line, "", "");
      assert line + "" + "" == line;
    }
  }

  /** The positions of the non-blank lines among the first `n`. */
  function Kept(lines: seq<string>, n: nat): (r: seq<nat>)
    requires n <= |lines|
    ensures |r| <= n && forall k :: 0 <= k < |r| ==> r[k] < n && !Blank(lines[r[k]])
    ensures forall i, j :: 0 <= i < j < |r| ==> r[i] < r[j]
  {
    if n == 0 then []
    else if Blank(lines[n - 1]) then Kept(lines, n - 1)
    else Kept(lines, n - 1) + [n - 1]
  }

  /** No other line is kept out. */
  lemma {:induction false} KeptAll(lines: seq<string>, n: nat)
    requires n <= |lines|
    ensures forall i :: 0 <= i < n && !AllSpace(lines[i]) ==> i in Kept(lines, n)
    ensures forall i :: i in Kept(lines, n) ==> i < n && !AllSpace(lines[i])
  {
    hide Blank;
    if n > 0 {
      KeptAll(lines, n - 1);
      BlankMeansSpaces(lines[n - 1]);
    }
  }

  /** The indents of the root (-1) and of the non-blank lines. */
  function Indents(lines: seq<string>, n: nat): (r: seq<int>)
    requires n <= |lines|
    ensures |r| == |Kept(lines, n)| + 1 && r[0] == -1
    ensures forall k :: 0 < k < |r| ==> r[k] == Indent(lines[Kept(lines, n)[k - 1]]) && r[k] >= 0
  {
    var kept := Kept(lines, n);
    seq(|kept| + 1, k requires 0 <= k <= |kept| => if k == 0 then -1 else Indent(lines[kept[k - 1]]))
  }

  /** `p` is the nearest node before `j` with a smaller indent. */
  ghost predicate NearestSmaller(ind: seq<int>, p: nat, j: nat) {
    p < j < |ind| && ind[p] < ind[j] && forall q :: p < q < j ==> ind[q] >= ind[j]
  }

  /** The nodes' ids and labels, and every node but the root listed once, in order, under the nearest
      earlier node of smaller indent. */
  ghost predicate IsTree(nodes: seq<Node>, ind: seq<int>) {
    && |nodes| == |ind|
    && (forall p :: 0 <= p < |nodes| ==> Ascending(nodes[p].children))
    && (forall p: nat, c: nat :: p < |nodes| ==> (c in nodes[p].children <==> NearestSmaller(ind, p, c)))
  }

  datatype Entry = Entry(indent: int, node: nat)

  /** The stack of open nodes: indents strictly increase, and whatever was closed between two open nodes
      is indented at least as far as the upper one. */
  ghost predicate IsStack(stack: seq<Entry>, ind: seq<int>) {
    && |stack| > 0 && stack[0] == Entry(-1, 0) && |ind| > 0 && ind[0] == -1
    && forall i :: 0 < i < |stack| ==> Linked(stack[i - 1], stack[i], ind)
  }

  ghost predicate Linked(lower: Entry, upper: Entry, ind: seq<int>) {
    && lower.indent < upper.indent && lower.node < upper.node < |ind| && upper.indent == ind[upper.node]
    && forall q :: lower.node < q < upper.node ==> ind[q] >= upper.indent
  }

  function Top(stack: seq<Entry>): Entry
    requires |stack| > 0
  {
    stack[|stack| - 1]
  }

  lemma TopIsNode(stack: seq<Entry>, ind: seq<int>)
    requires IsStack(stack, ind)
    ensures Top(stack).node < |ind| && Top(stack).indent == ind[Top(stack).node]
  {
    if |stack| > 1 {
      assert Linked(stack[|stack| - 2], stack[|stack| - 1], ind);
    }
  }

  /** Nothing after the top of the stack is indented less than `d`. */
  ghost predicate ClosedAbove(stack: seq<Entry>, ind: seq<int>, d: int) {
    |stack| > 0 && forall q :: Top(stack).node < q < |ind| ==> ind[q] >= d
  }

  ghost predicate Labelled(nodes: seq<Node>, lines: seq<string>, rootId: string, rootLabel: string, n: nat)
    requires n <= |lines|
  {
    var kept := Kept(lines, n);
    && |nodes| == |kept| + 1 && nodes[0].id == rootId && nodes[0].caption == rootLabel
    && forall k :: 0 < k < |nodes| ==> nodes[k].id == rootId + "." + Print(kept[k - 1])
                                       && nodes[k].caption == Strip(lines[kept[k - 1]])
  }

  /** A new node as the last child of `parent`. */
  function Hang(nodes: seq<Node>, parent: nat, id: string, caption: string): (r: seq<Node>)
    requires parent < |nodes|
    ensures |r| == |nodes| + 1 && r[|nodes|] == Node(id, caption, [])
    ensures r[parent] == nodes[parent].(children := nodes[parent].children + [|nodes|])
    ensures forall p :: 0 <= p < |nodes| && p != parent ==> r[p] == nodes[p]
  {
    nodes[parent := nodes[parent].(children := nodes[parent].children + [|nodes|])] + [Node(id, caption, [])]
  }

  class TreeDocument {
    var nodes: seq<Node>

    constructor ()
    {
      nodes := [];
    }

    /** Pops the nodes that are indented at least as far as the new line. */
    method PopTo(stack: seq<Entry>, indent: nat, ghost ind: seq<int>) returns (rest: seq<Entry>)
      requires IsStack(stack, ind) && Top(stack).node == |ind| - 1
      ensures IsStack(rest, ind) && ClosedAbove(rest, ind, indent) && Top(rest).indent < indent
    {
      rest := stack;
      while |rest| > 1 && indent <= rest[|rest| - 1].indent
        invariant IsStack(rest, ind) && ClosedAbove(rest, ind, indent)
      {
        assert Linked(rest[|rest| - 2], rest[|rest| - 1], ind);
        rest := rest[..|rest| - 1];
      }
    }

    /** Adds a new last child to `parent`. */
    method AddChild(parent: nat, id: string, caption: string)
      requires parent < |nodes|
      modifies this
      ensures nodes == Hang(old(nodes), parent, id, caption)
    {
      var n := |nodes|;
      nodes := nodes[parent := nodes[parent].(children := nodes[parent].children + [n])] + [Node(id, caption, [])];
    }

    /** Parses the lines of a text. A text without a non-blank line gives the root one "Unavailable"
        child instead. */
    method ParseTreeLines(lines: seq<string>, rootLabel: string, rootId: string)
      modifies this
      ensures Kept(lines, |lines|) == [] ==>
                nodes == [Node(rootId, rootLabel, [1]), Node(rootId + ".empty", "Unavailable", [])]
      ensures Kept(lines, |lines|) != [] ==>
                IsTree(nodes, Indents(lines, |lines|)) && Labelled(nodes, lines, rootId, rootLabel, |lines|)
    {
      nodes := [Node(rootId, rootLabel, [])];
      var allBlank := AllBlank(lines);
      if allBlank {
        AddChild(0, rootId + ".empty", "Unavailable");
        assert nodes[0].children == [1];
        return;
      }
      var stack := [Entry(-1, 0)];
      StartBuilt(lines, rootId, rootLabel);
      for index := 0 to |lines|
        invariant Built(nodes, stack, lines, rootId, rootLabel, index)
      {
        if Blank(lines[index]) {
          BlankKeeps(nodes, stack, lines, rootId, rootLabel, index);
          continue;
        }
        stack := AddLine(stack, lines, index, rootId, rootLabel);
      }
    }

    /** One non-blank line: closes what it does not belong under and hangs it below the rest. */
    method AddLine(stack: seq<Entry>, lines: seq<string>, index: nat, rootId: string, ghost rootLabel: string)
      returns (stack': seq<Entry>)
      requires index < |lines| && !Blank(lines[index]) && Built(nodes, stack, lines, rootId, rootLabel, index)
      modifies this
      ensures Built(nodes, stack', lines, rootId, rootLabel, index + 1)
    {
      var indent := Indent(lines[index]);
      var id, caption := rootId + "." + Print(index), Strip(lines[index]);
      var rest := PopTo(stack, indent, Indents(lines, index));
      var parent := rest[|rest| - 1].node;
      TopIsNode(rest, Indents(lines, index));
      GrowBuilt(nodes, rest, lines, rootId, rootLabel, index);
      AddChild(parent, id, caption);
      stack' := rest + [Entry(indent, |nodes| - 1)];
    }
  }

  /** The state of the loop after `n` lines. */
  ghost predicate Built(nodes: seq<Node>, stack: seq<Entry>, lines: seq<string>, rootId: string, rootLabel: string, n: nat)
    requires n <= |lines|
  {
    && IsTree(nodes, Indents(lines, n)) && Labelled(nodes, lines, rootId, rootLabel, n)
    && IsStack(stack, Indents(lines, n)) && Top(stack).node == |nodes| - 1
  }

  lemma StartBuilt(lines: seq<string>, rootId: string, rootLabel: string)
    ensures Built([Node(rootId, rootLabel, [])], [Entry(-1, 0)], lines, rootId, rootLabel, 0)
  {
  }

  lemma BlankKeeps(nodes: seq<Node>, stack: seq<Entry>, lines: seq<string>, rootId: string, rootLabel: string, n: nat)
    requires n < |lines| && Blank(lines[n]) && Built(nodes, stack, lines, rootId, rootLabel, n)
    ensures Built(nodes, stack, lines, rootId, rootLabel, n + 1)
  {
    assert Indents(lines, n + 1) == Indents(lines, n);
  }

  lemma IndentsSnoc(lines: seq<string>, n: nat)
    requires n < |lines| && !Blank(lines[n])
    ensures Kept(lines, n + 1) == Kept(lines, n) + [n]
    ensures Indents(lines, n + 1) == Indents(lines, n) + [Indent(lines[n])]
  {
    hide Blank, Indent;
  }

  /** Whether the block holds nothing but white space. */
  method AllBlank(lines: seq<string>) returns (blank: bool)
    ensures blank == (Kept(lines, |lines|) == [])
  {
    for k := 0 to |lines|
      invariant Kept(lines, k) == []
    {
      if !Blank(lines[k]) {
        assert Kept(lines, k + 1) == Kept(lines, k) + [k];
        KeptGrows(lines, k + 1, |lines|);
        return false;
      }
    }
    return true;
  }

  lemma {:induction false} KeptGrows(lines: seq<string>, m: nat, n: nat)
    requires m <= n <= |lines|
    ensures |Kept(lines, m)| <= |Kept(lines, n)|
    decreases n
  {
    if m < n {
      KeptGrows(lines, m, n - 1);
    }
  }

  lemma GrownChildren(nodes: seq<Node>, ind: seq<int>, parent: nat, indent: int, grown: seq<Node>, p: nat, c: nat)
    requires IsTree(nodes, ind) && parent < |nodes| && ind[parent] < indent
    requires forall q :: parent < q < |ind| ==> ind[q] >= indent
    requires |grown| == |nodes| + 1 && p < |grown|
    requires grown[p].children == if p == |nodes| then [] else if p == parent then nodes[p].children + [|nodes|] else nodes[p].children
    ensures c in grown[p].children <==> NearestSmaller(ind + [indent], p, c)
  {
    if p < |nodes| {
      assert c in nodes[p].children <==> NearestSmaller(ind, p, c);
      if c < |nodes| {
        SmallerPrefix(ind, indent, p, c);
      } else if c == |nodes| {
        SmallerNew(ind, indent, parent, p);
      }
    }
  }

  lemma SmallerPrefix(ind: seq<int>, indent: int, p: nat, c: nat)
    requires c < |ind|
    ensures NearestSmaller(ind + [indent], p, c) <==> NearestSmaller(ind, p, c)
  {
    var ind' := ind + [indent];
    assert forall q :: 0 <= q < |ind| ==> ind'[q] == ind[q];
    if NearestSmaller(ind', p, c) {
      forall q | p < q < c ensures ind[q] >= ind[c] {
        assert ind'[q] >= ind'[c];
      }
    }
  }

  lemma SmallerNew(ind: seq<int>, indent: int, parent: nat, p: nat)
    requires parent < |ind| && p < |ind| && ind[parent] < indent
    requires forall q :: parent < q < |ind| ==> ind[q] >= indent
    ensures NearestSmaller(ind + [indent], p, |ind|) <==> p == parent
  {
    var ind' := ind + [indent];
    assert forall q :: 0 <= q < |ind| ==> ind'[q] == ind[q];
    assert ind'[parent] < indent && ind'[p] == ind[p];
  }

  /** Appending a node under the nearest open node of smaller indent keeps the tree. */
  lemma GrowTree(nodes: seq<Node>, ind: seq<int>, parent: nat, indent: int, id: string, caption: string)
    requires IsTree(nodes, ind) && parent < |nodes| && ind[parent] < indent
    requires forall q :: parent < q < |ind| ==> ind[q] >= indent
    ensures IsTree(Hang(nodes, parent, id, caption), ind + [indent])
  {
    var grown := Hang(nodes, parent, id, caption);
    forall p: nat, c: nat | p < |grown| ensures c in grown[p].children <==> NearestSmaller(ind + [indent], p, c) {
      GrownChildren(nodes, ind, parent, indent, grown, p, c);
    }
    forall p: nat | p < |grown| ensures Ascending(grown[p].children) {
      if p < |nodes| {
        assert Ascending(nodes[p].children);
        forall c | c in nodes[p].children ensures c < |nodes| {
          assert NearestSmaller(ind, p, c);
        }
        AscendingSnoc(nodes[p].children, |nodes|);
      }
    }
  }

  lemma AscendingSnoc(s: seq<nat>, n: nat)
    requires Ascending(s) && forall c :: c in s ==> c < n
    ensures Ascending(s + [n])
  {
    forall i, j | 0 <= i < j < |s + [n]| ensures (s + [n])[i] < (s + [n])[j] {
      assert s[i] in s;
    }
  }

  lemma LinkGrows(lower: Entry, upper: Entry, ind: seq<int>, indent: int)
    requires Linked(lower, upper, ind)
    ensures Linked(lower, upper, ind + [indent])
  {
    assert forall q :: 0 <= q < |ind| ==> (ind + [indent])[q] == ind[q];
  }

  lemma GrowStack(stack: seq<Entry>, ind: seq<int>, indent: int)
    requires IsStack(stack, ind) && ClosedAbove(stack, ind, indent) && Top(stack).indent < indent
    ensures IsStack(stack + [Entry(indent, |ind|)], ind + [indent])
  {
    var grown, ind' := stack + [Entry(indent, |ind|)], ind + [indent];
    TopIsNode(stack, ind);
    assert forall q :: 0 <= q < |ind| ==> ind'[q] == ind[q];
    forall i | 0 < i < |grown| ensures Linked(grown[i - 1], grown[i], ind') {
      if i < |stack| {
        LinkGrows(stack[i - 1], stack[i], ind, indent);
      }
    }
  }

  lemma GrowLabels(nodes: seq<Node>, lines: seq<string>, rootId: string, rootLabel: string, n: nat, parent: nat)
    requires n < |lines| && !Blank(lines[n]) && Labelled(nodes, lines, rootId, rootLabel, n) && parent < |nodes|
    ensures Labelled(Hang(nodes, parent, rootId + "." + Print(n), Strip(lines[n])), lines, rootId, rootLabel, n + 1)
  {
    hide Print, Strip, Blank, Kept;
    IndentsSnoc(lines, n);
    var r := Hang(nodes, parent, rootId + "." + Print(n), Strip(lines[n]));
    SameLabels(nodes, parent, rootId + "." + Print(n), Strip(lines[n]));
    hide Hang;
    forall k | 0 < k < |r|
      ensures r[k].id == rootId + "." + Print(Kept(lines, n + 1)[k - 1]) && r[k].caption == Strip(lines[Kept(lines, n + 1)[k - 1]])
    {
      if k < |nodes| {
        assert r[k].id == nodes[k].id && r[k].caption == nodes[k].caption;
        assert Kept(lines, n + 1)[k - 1] == Kept(lines, n)[k - 1];
      } else {
        assert Kept(lines, n + 1)[k - 1] == n;
      }
    }
  }

  /** Hanging in a node leaves the labels of the others as they are. */
  lemma SameLabels(nodes: seq<Node>, parent: nat, id: string, caption: string)
    requires parent < |nodes|
    ensures var r := Hang(nodes, parent, id, caption);
            && |r| == |nodes| + 1 && r[|nodes|] == Node(id, caption, [])
            && forall k :: 0 <= k < |nodes| ==> r[k].id == nodes[k].id && r[k].caption == nodes[k].caption
  {
  }

  lemma GrowBuilt(nodes: seq<Node>, rest: seq<Entry>, lines: seq<string>, rootId: string, rootLabel: string, n: nat)
    requires n < |lines| && !Blank(lines[n])
    requires IsTree(nodes, Indents(lines, n)) && Labelled(nodes, lines, rootId, rootLabel, n)
    requires IsStack(rest, Indents(lines, n)) && ClosedAbove(rest, Indents(lines, n), Indent(lines[n]))
    requires Top(rest).indent < Indent(lines[n]) && Top(rest).node < |nodes|
    ensures Built(Hang(nodes, Top(rest).node, rootId + "." + Print(n), Strip(lines[n])),
                  rest + [Entry(Indent(lines[n]), |nodes|)], lines, rootId, rootLabel, n + 1)
  {
    var parent := Top(rest).node;
    TopIsNode(rest, Indents(lines, n));
    IndentsSnoc(lines, n);
    GrowTree(nodes, Indents(lines, n), parent, Indent(lines[n]), rootId + "." + Print(n), Strip(lines[n]));
    GrowStack(rest, Indents(lines, n), Indent(lines[n]));
    GrowLabels(nodes, lines, rootId, rootLabel, n, parent);
  }
}

/** The tree built from indented lines reads back as those lines. */
module TreeLinesTheorems {
  import opened Common
  import opened Decimal
  import opened TreeLines

  /** Child lists only lead forward, so a traversal ends. */
  ghost predicate Forward(nodes: seq<Node>) {
    forall p, c :: 0 <= p < |nodes| && c in nodes[p].children ==> p < c < |nodes|
  }

  /** Depth-first traversal, parents before children. */
  function Preorder(nodes: seq<Node>, p: nat): seq<nat>
    requires Forward(nodes) && p < |nodes|
    decreases |nodes| - p, 1, 0
  {
    [p] + PreorderFrom(nodes, p, 0)
  }

  /** The traversals of `p`'s children from the `k`-th on, one after the other. */
  function PreorderFrom(nodes: seq<Node>, p: nat, k: nat): seq<nat>
    requires Forward(nodes) && p < |nodes| && k <= |nodes[p].children|
    decreases |nodes| - p, 0, |nodes[p].children| - k
  {
    if k == |nodes[p].children| then []
    else
      var c := nodes[p].children[k];
      assert c in nodes[p].children;
      Preorder(nodes, c) + PreorderFrom(nodes, p, k + 1)
  }

  /** `lo, lo + 1, ..., hi - 1`. */
  function Run(lo: nat, hi: nat): seq<nat>
    requires lo <= hi
  {
    seq(hi - lo, i requires 0 <= i < hi - lo => lo + i)
  }

  /** The first node after `i` that is not indented further than `i`, or the end. */
  function End(ind: seq<int>, i: nat, from: nat): (e: nat)
    requires i < from <= |ind|
    requires forall q :: i < q < from ==> ind[q] > ind[i]
    ensures from <= e <= |ind| && forall q :: i < q < e ==> ind[q] > ind[i]
    ensures e < |ind| ==> ind[e] <= ind[i]
    decreases |ind| - from
  {
    if from == |ind| || ind[from] <= ind[i] then from else End(ind, i, from + 1)
  }

  lemma TreeIsForward(nodes: seq<Node>, ind: seq<int>)
    requires IsTree(nodes, ind)
    ensures Forward(nodes)
  {
    forall p, c | 0 <= p < |nodes| && c in nodes[p].children ensures p < c < |nodes| {
      assert NearestSmaller(ind, p, c);
    }
  }

  /** A node's first child directly follows it, and a child's subtree ends where the next child starts. */
  lemma ChildrenTile(nodes: seq<Node>, ind: seq<int>, p: nat, k: nat)
    requires IsTree(nodes, ind) && p < |nodes| && k <= |nodes[p].children|
    ensures var cs, e := nodes[p].children, End(ind, p, p + 1);
            && (forall c :: c in cs ==> p < c < e)
            && (k == 0 ==> (cs == [] <==> p + 1 == e) && (cs != [] ==> cs[0] == p + 1))
            && (0 < k ==> p < cs[k - 1] < |ind| && End(ind, cs[k - 1], cs[k - 1] + 1) == if k < |cs| then cs[k] else e)
  {
    var cs, e := nodes[p].children, End(ind, p, p + 1);
    forall c | c in cs ensures p < c < e {
      assert NearestSmaller(ind, p, c);
    }
    if k == 0 {
      assert cs != [] ==> cs[0] in cs;
      if p + 1 < e {
        assert NearestSmaller(ind, p, p + 1);
        var m :| 0 <= m < |cs| && cs[m] == p + 1;
        assert cs[0] in cs && cs[0] <= cs[m];
      }
    } else {
      NextChild(nodes, ind, p, k);
    }
  }

  lemma NextChild(nodes: seq<Node>, ind: seq<int>, p: nat, k: nat)
    requires IsTree(nodes, ind) && p < |nodes| && 0 < k <= |nodes[p].children|
    ensures var cs, e := nodes[p].children, End(ind, p, p + 1);
            p < cs[k - 1] < |ind| && End(ind, cs[k - 1], cs[k - 1] + 1) == if k < |cs| then cs[k] else e
  {
    if k < |nodes[p].children| {
      NextSibling(nodes, ind, p, k);
    } else {
      LastChild(nodes, ind, p);
    }
  }

  lemma NextSibling(nodes: seq<Node>, ind: seq<int>, p: nat, k: nat)
    requires IsTree(nodes, ind) && p < |nodes| && 0 < k < |nodes[p].children|
    ensures var cs := nodes[p].children;
            p < cs[k - 1] < |ind| && End(ind, cs[k - 1], cs[k - 1] + 1) == cs[k]
  {
    hide End, IsTree;
    var cs := nodes[p].children;
    var c, d := cs[k - 1], cs[k];
    IsChild(nodes, ind, p, c);
    IsChild(nodes, ind, p, d);
    var f := End(ind, c, c + 1);
    assert f <= d;
    IsChild(nodes, ind, p, f);
    IsLater(cs, k, f);
  }

  lemma LastChild(nodes: seq<Node>, ind: seq<int>, p: nat)
    requires IsTree(nodes, ind) && p < |nodes| && nodes[p].children != []
    ensures var cs, e := nodes[p].children, End(ind, p, p + 1);
            p < cs[|cs| - 1] < |ind| && End(ind, cs[|cs| - 1], cs[|cs| - 1] + 1) == e
  {
    hide End, IsTree;
    var cs := nodes[p].children;
    var c := cs[|cs| - 1];
    IsChild(nodes, ind, p, c);
    var e := End(ind, p, p + 1);
    var f := End(ind, c, c + 1);
    assert f <= e;
    IsChild(nodes, ind, p, f);
    assert f < e ==> NearestSmaller(ind, p, f);
    IsNoLater(cs, f);
  }

  lemma IsChild(nodes: seq<Node>, ind: seq<int>, p: nat, c: nat)
    requires IsTree(nodes, ind) && p < |nodes|
    ensures |nodes| == |ind| && Ascending(nodes[p].children)
    ensures c in nodes[p].children <==> NearestSmaller(ind, p, c)
  {
  }

  lemma IsLater(cs: seq<nat>, k: nat, f: nat)
    requires forall a, b :: 0 <= a < b < |cs| ==> cs[a] < cs[b]
    requires 0 < k < |cs| && f in cs && cs[k - 1] < f
    ensures cs[k] <= f
  {
    var m :| 0 <= m < |cs| && cs[m] == f;
  }

  lemma IsNoLater(cs: seq<nat>, f: nat)
    requires forall a, b :: 0 <= a < b < |cs| ==> cs[a] < cs[b]
    requires cs != []
    ensures f in cs ==> f <= cs[|cs| - 1]
  {
    if f in cs {
      var m :| 0 <= m < |cs| && cs[m] == f;
    }
  }

  /** The subtree of a node is the run of nodes up to the next one indented no further. */
  lemma {:induction false} SubtreeIsRun(nodes: seq<Node>, ind: seq<int>, p: nat)
    requires IsTree(nodes, ind) && Forward(nodes) && p < |nodes|
    ensures Preorder(nodes, p) == Run(p, End(ind, p, p + 1))
    decreases |nodes| - p, 1, 0
  {
    var cs, e := nodes[p].children, End(ind, p, p + 1);
    ChildrenTile(nodes, ind, p, 0);
    if cs != [] {
      ChildrenAreRun(nodes, ind, p, 0);
      assert [p] + Run(p + 1, e) == Run(p, e);
    }
  }

  lemma {:induction false} ChildrenAreRun(nodes: seq<Node>, ind: seq<int>, p: nat, k: nat)
    requires IsTree(nodes, ind) && Forward(nodes) && p < |nodes| && k < |nodes[p].children|
    ensures var cs, e := nodes[p].children, End(ind, p, p + 1);
            cs[k] <= e && PreorderFrom(nodes, p, k) == Run(cs[k], e)
    decreases |nodes| - p, 0, |nodes[p].children| - k
  {
    var cs, e := nodes[p].children, End(ind, p, p + 1);
    var c := cs[k];
    assert c in cs;
    ChildrenTile(nodes, ind, p, k + 1);
    SubtreeIsRun(nodes, ind, c);
    if k + 1 < |cs| {
      ChildrenAreRun(nodes, ind, p, k + 1);
      assert Run(c, cs[k + 1]) + Run(cs[k + 1], e) == Run(c, e);
    } else {
      assert PreorderFrom(nodes, p, k + 1) == [];
    }
  }

  // ------------------------------------------------------------------
  // Main results
  // ------------------------------------------------------------------

  function Labels(nodes: seq<Node>, order: seq<nat>): seq<string>
    requires forall i :: 0 <= i < |order| ==> order[i] < |nodes|
  {
    seq(|order|, i requires 0 <= i < |order| => nodes[order[i]].caption)
  }

  /** For any lines, traversing the built tree in preorder lists the root and then exactly the non-blank
      lines, stripped and in their order. */
  lemma PreorderReadsLines(nodes: seq<Node>, lines: seq<string>, rootId: string, rootLabel: string)
    requires IsTree(nodes, Indents(lines, |lines|)) && Labelled(nodes, lines, rootId, rootLabel, |lines|)
    ensures Forward(nodes) && Preorder(nodes, 0) == Run(0, |nodes|)
    ensures var kept := Kept(lines, |lines|);
            Labels(nodes, Preorder(nodes, 0)) == [rootLabel] + seq(|kept|, k requires 0 <= k < |kept| => Strip(lines[kept[k]]))
  {
    var ind := Indents(lines, |lines|);
    TreeIsForward(nodes, ind);
    SubtreeIsRun(nodes, ind, 0);
  }

  /** Every node's parent is unique: the nearest earlier non-blank line of smaller indent, or the root. */
  lemma ParentIsUnique(nodes: seq<Node>, ind: seq<int>, p: nat, q: nat, c: nat)
    requires IsTree(nodes, ind) && p < |nodes| && q < |nodes|
    requires c in nodes[p].children && c in nodes[q].children
    ensures p == q && NearestSmaller(ind, p, c)
  {
    assert NearestSmaller(ind, p, c) && NearestSmaller(ind, q, c);
  }

  lemma EveryNodeHasParent(nodes: seq<Node>, ind: seq<int>, c: nat)
    requires IsTree(nodes, ind) && 0 < c < |nodes| && ind[0] < ind[c]
    ensures exists p :: 0 <= p < |nodes| && c in nodes[p].children
  {
    var p := c - 1;
    while ind[p] >= ind[c]
      invariant 0 <= p < c && forall q :: p < q < c ==> ind[q] >= ind[c]
      decreases p
    {
      p := p - 1;
    }
    assert NearestSmaller(ind, p, c);
  }

  /** Node ids are distinct. */
  lemma IdsDistinct(nodes: seq<Node>, lines: seq<string>, rootId: string, rootLabel: string, i: nat, j: nat)
    requires Labelled(nodes, lines, rootId, rootLabel, |lines|) && i < j < |nodes|
    ensures nodes[i].id != nodes[j].id
  {
    var kept := Kept(lines, |lines|);
    if i == 0 {
      assert |nodes[j].id| > |rootId|;
    } else if nodes[i].id == nodes[j].id {
      var a, b := Print(kept[i - 1]), Print(kept[j - 1]);
      assert a == (rootId + "." + a)[|rootId| + 1..] && b == (rootId + "." + b)[|rootId| + 1..];
      PrintInjective(kept[i - 1], kept[j - 1]);
    }
  }
}

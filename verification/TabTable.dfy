/** The table of open editor tabs. A tab's id is a hash of its path; distinct paths are taken to have
    distinct ids, so a tab is named by its path here. */
module TabTable {
  import opened Common

  datatype Tab = Tab(path: string, index: int, preview: bool)

  datatype Table = Table(tabs: seq<Tab>, active: Option<string>)

  // ------------------------------------------------------------------
  // What the operations do to the list
  // ------------------------------------------------------------------

  /** The position of the first tab with a path, or `|tabs|`. */
  function FindPath(tabs: seq<Tab>, path: string): (i: nat)
    ensures i <= |tabs| && (i < |tabs| ==> tabs[i].path == path)
    ensures forall k :: 0 <= k < i ==> tabs[k].path != path
  {
    if tabs == [] || tabs[0].path == path then 0 else 1 + FindPath(tabs[1..], path)
  }

  /** The position of the first preview tab, or `|tabs|`. */
  function FindPreview(tabs: seq<Tab>): (i: nat)
    ensures i <= |tabs| && (i < |tabs| ==> tabs[i].preview)
    ensures forall k :: 0 <= k < i ==> !tabs[k].preview
  {
    if tabs == [] || tabs[0].preview then 0 else 1 + FindPreview(tabs[1..])
  }

  /** Adds `delta` to every index from `from` on. */
  function Renumber(tabs: seq<Tab>, from: int, delta: int): (r: seq<Tab>)
    ensures |r| == |tabs|
    ensures forall k :: 0 <= k < |r| ==> r[k] == if tabs[k].index >= from then tabs[k].(index := tabs[k].index + delta) else tabs[k]
  {
    seq(|tabs|, k requires 0 <= k < |tabs| =>
      if tabs[k].index >= from then tabs[k].(index := tabs[k].index + delta) else tabs[k])
  }

  function RemoveAt(tabs: seq<Tab>, i: nat): seq<Tab>
    requires i < |tabs|
  {
    tabs[..i] + tabs[i + 1..]
  }

  /** Python's `list.insert`, which clamps the position. */
  function InsertAt(tabs: seq<Tab>, i: int, tab: Tab): seq<Tab> {
    var p := if i < 0 then (if i + |tabs| < 0 then 0 else i + |tabs|) else if i > |tabs| then |tabs| else i;
    tabs[..p] + [tab] + tabs[p..]
  }

  /** The new tab stands before the tab at `i`, counted from the end where `i` is negative; further out it is the
      first or the last. */
  lemma InsertPlace(tabs: seq<Tab>, i: int, tab: Tab)
    ensures var n, r := |tabs|, InsertAt(tabs, i, tab);
            && |r| == n + 1
            && (0 <= i <= n ==> r[i] == tab && r[..i] == tabs[..i] && r[i + 1..] == tabs[i..])
            && (-n <= i < 0 ==> r == InsertAt(tabs, n + i, tab))
            && (i > n ==> r == tabs + [tab])
            && (i < -n ==> r == [tab] + tabs)
  {
  }

  function Opened(t: Table, path: string, permanent: bool, addOk: bool): Table {
    var e := FindPath(t.tabs, path);
    if e < |t.tabs| then
      var tab := t.tabs[e];
      Table(t.tabs[e := tab.(preview := tab.preview && !permanent)], Some(path))
    else
      var p := FindPreview(t.tabs);
      var replace := p < |t.tabs| && !permanent;
      var at := if replace then t.tabs[p].index else |t.tabs|;
      var kept := if replace then Renumber(RemoveAt(t.tabs, p), at, -1) else t.tabs;
      if !addOk then Table(kept, t.active)
      else Table(InsertAt(Renumber(kept, at, 1), at, Tab(path, at, !permanent)), Some(path))
  }

  function Abs(x: int): nat {
    if x < 0 then -x else x
  }

  /** The position of the first tab whose index is nearest to `c`. */
  function Nearest(tabs: seq<Tab>, c: int): (i: nat)
    requires tabs != []
    ensures i < |tabs| && forall k :: 0 <= k < |tabs| ==> Abs(tabs[i].index - c) <= Abs(tabs[k].index - c)
  {
    if |tabs| == 1 then 0
    else
      var m := Nearest(tabs[..|tabs| - 1], c);
      if Abs(tabs[|tabs| - 1].index - c) < Abs(tabs[m].index - c) then |tabs| - 1 else m
  }

  function Closed(t: Table, path: string): Table {
    var i := FindPath(t.tabs, path);
    if i == |t.tabs| then t
    else
      var c := t.tabs[i].index;
      var rest := Renumber(RemoveAt(t.tabs, i), c + 1, -1);
      Table(rest, if rest == [] then None else Some(rest[Nearest(rest, c)].path))
  }

  lemma NearestOfOne(tabs: seq<Tab>, c: int)
    requires tabs != []
    ensures Nearest(tabs[..1], c) == 0
  {
  }

  lemma NearestStep(tabs: seq<Tab>, k: nat, c: int)
    requires 0 < k < |tabs|
    ensures var m := Nearest(tabs[..k], c);
            Nearest(tabs[..k + 1], c) == if Abs(tabs[k].index - c) < Abs(tabs[m].index - c) then k else m
  {
    assert tabs[..k + 1][..k] == tabs[..k];
  }

  class EditorTabs {
    var tabs: seq<Tab>
    var active: Option<string>

    ghost function View(): Table
      reads this
    {
      Table(tabs, active)
    }

    constructor ()
      ensures View() == Table([], None) && Inv(View())
    {
      tabs, active := [], None;
    }

    /** Moves every tab whose index is `from` or more by `delta`. */
    method Shift(from: int, delta: int)
      modifies this`tabs
      ensures tabs == Renumber(old(tabs), from, delta)
    {
      for k := 0 to |tabs|
        invariant |tabs| == |old(tabs)|
        invariant forall i :: 0 <= i < k ==> tabs[i] == Renumber(old(tabs), from, delta)[i]
        invariant forall i :: k <= i < |tabs| ==> tabs[i] == old(tabs)[i]
      {
        if tabs[k].index >= from {
          tabs := tabs[k := tabs[k].(index := tabs[k].index + delta)];
        }
      }
    }

    /** Removes the tab at `i` and moves the indices from `from` on down by one. */
    method Remove(i: nat, from: int)
      requires i < |tabs|
      modifies this`tabs
      ensures |tabs| == |old(tabs)| - 1 && tabs == Renumber(RemoveAt(old(tabs), i), from, -1)
    {
      tabs := RemoveAt(tabs, i);
      Shift(from, -1);
    }

    /** The renumbering after an insertion, which leaves the new tab at `skip` alone. */
    method ShiftOthers(skip: nat, from: int)
      modifies this`tabs
      ensures |tabs| == |old(tabs)|
      ensures forall i :: 0 <= i < |tabs| ==> tabs[i] == if i == skip then old(tabs)[i] else Renumber(old(tabs), from, 1)[i]
    {
      for k := 0 to |tabs|
        invariant |tabs| == |old(tabs)|
        invariant forall i :: 0 <= i < k ==> tabs[i] == if i == skip then old(tabs)[i] else Renumber(old(tabs), from, 1)[i]
        invariant forall i :: k <= i < |tabs| ==> tabs[i] == old(tabs)[i]
      {
        if k != skip && tabs[k].index >= from {
          tabs := tabs[k := tabs[k].(index := tabs[k].index + 1)];
        }
      }
    }

    /** Puts a new tab in at position `at` and moves the later ones up by one. */
    method Insert(at: nat, tab: Tab)
      requires at <= |tabs|
      modifies this`tabs
      ensures tabs == InsertAt(Renumber(old(tabs), at, 1), at, tab)
    {
      tabs := InsertAt(tabs, at, tab);
      ShiftOthers(at, at);
    }

    /** `_open_file_tab`; `addOk` says whether `ui.addTab` succeeds. */
    method OpenFileTab(path: string, permanent: bool, addOk: bool)
      requires Inv(View())
      modifies this
      ensures View() == Opened(old(View()), path, permanent, addOk) && Inv(View())
    {
      OpenKeeps(View(), path, permanent, addOk);
      var e := FindPath(tabs, path);
      if e < |tabs| {
        if permanent && tabs[e].preview {
          tabs := tabs[e := tabs[e].(preview := false)];
        }
        active := Some(path);
        return;
      }
      var p := FindPreview(tabs);
      var at := |tabs|;
      if p < |tabs| && !permanent {
        at := tabs[p].index;
        Remove(p, at);
      }
      if !addOk {
        return;
      }
      Insert(at, Tab(path, at, !permanent));
      active := Some(path);
    }

    /** The `tab.close.` action. */
    method CloseTab(path: string)
      requires Inv(View())
      modifies this
      ensures View() == Closed(old(View()), path) && Inv(View())
    {
      CloseKeeps(View(), path);
      var i := FindPath(tabs, path);
      if i == |tabs| {
        return;
      }
      var c := tabs[i].index;
      Remove(i, c + 1);
      if tabs == [] {
        active := None;
        return;
      }
      var n := NearestTo(c);
      active := Some(tabs[n].path);
    }

    /** The position of the first of the tabs whose index is nearest to `c`. */
    method NearestTo(c: int) returns (best: nat)
      requires tabs != []
      ensures best == Nearest(tabs, c)
    {
      hide Nearest, Abs;
      best := 0;
      NearestOfOne(tabs, c);
      for k := 1 to |tabs|
        invariant best < k && best == Nearest(tabs[..k], c)
      {
        NearestStep(tabs, k, c);
        if Abs(tabs[k].index - c) < Abs(tabs[best].index - c) {
          best := k;
        }
      }
      assert tabs[..|tabs|] == tabs;
    }
  }

  // ------------------------------------------------------------------
  // The invariant
  // ------------------------------------------------------------------

  ghost predicate Numbered(tabs: seq<Tab>) {
    forall i :: 0 <= i < |tabs| ==> tabs[i].index == i
  }

  /** Different paths, and not both previews. */
  predicate Compatible(a: Tab, b: Tab) {
    a.path != b.path && !(a.preview && b.preview)
  }

  ghost predicate AllCompatible(tabs: seq<Tab>) {
    forall i, j :: 0 <= i < j < |tabs| ==> Compatible(tabs[i], tabs[j])
  }

  ghost predicate Inv(t: Table) {
    Numbered(t.tabs) && AllCompatible(t.tabs)
  }

  /** Taking out the tab at `i` and renumbering the later ones: each other tab keeps its path and kind. */
  lemma RemovalShape(tabs: seq<Tab>, i: nat, from: int, k: nat)
    requires Numbered(tabs) && i < |tabs| && i <= from <= i + 1 && k < |tabs| - 1
    ensures Renumber(RemoveAt(tabs, i), from, -1)[k] == tabs[if k < i then k else k + 1].(index := k)
  {
  }

  lemma RemovalKeeps(tabs: seq<Tab>, i: nat, from: int)
    requires Inv(Table(tabs, None)) && i < |tabs| && i <= from <= i + 1
    ensures Inv(Table(Renumber(RemoveAt(tabs, i), from, -1), None))
  {
    var r := Renumber(RemoveAt(tabs, i), from, -1);
    forall k: nat | k < |r| ensures r[k] == tabs[if k < i then k else k + 1].(index := k) {
      RemovalShape(tabs, i, from, k);
    }
  }

  /** The tab at position `k` once `tab` is in at `i`. */
  function Widened(tabs: seq<Tab>, i: nat, tab: Tab, k: nat): Tab
    requires i <= |tabs| && k <= |tabs|
  {
    if k < i then tabs[k] else if k == i then tab else tabs[k - 1].(index := k)
  }

  /** Putting a new tab in at `i` and renumbering the later ones. */
  lemma InsertionShape(tabs: seq<Tab>, i: nat, tab: Tab, k: nat)
    requires Numbered(tabs) && i <= |tabs| && tab.index == i && k <= |tabs|
    ensures var r := InsertAt(Renumber(tabs, i, 1), i, tab);
            |r| == |tabs| + 1 && r[k] == Widened(tabs, i, tab, k)
  {
  }

  lemma InsertionKeeps(tabs: seq<Tab>, i: nat, tab: Tab)
    requires Inv(Table(tabs, None)) && i <= |tabs| && tab.index == i
    requires forall k :: 0 <= k < |tabs| ==> tabs[k].path != tab.path && !(tabs[k].preview && tab.preview)
    ensures Inv(Table(InsertAt(Renumber(tabs, i, 1), i, tab), None))
  {
    var r := InsertAt(Renumber(tabs, i, 1), i, tab);
    InsertionShape(tabs, i, tab, i);
    forall k: nat | k < |r| ensures r[k] == Widened(tabs, i, tab, k) {
      InsertionShape(tabs, i, tab, k);
    }
    hide InsertAt, Renumber, Compatible;
    WidenedKeeps(tabs, i, tab, r);
  }

  lemma WidenedKeeps(tabs: seq<Tab>, i: nat, tab: Tab, r: seq<Tab>)
    requires Inv(Table(tabs, None)) && i <= |tabs| && tab.index == i && |r| == |tabs| + 1
    requires forall k :: 0 <= k < |tabs| ==> tabs[k].path != tab.path && !(tabs[k].preview && tab.preview)
    requires forall k: nat :: k < |r| ==> r[k] == Widened(tabs, i, tab, k)
    ensures Inv(Table(r, None))
  {
    forall a: nat, b: nat | a < b < |r| ensures Compatible(r[a], r[b]) {
      if a == i {
        assert tabs[b - 1].path != tab.path;
      } else if b == i {
        assert tabs[a].path != tab.path;
      } else {
        assert Compatible(tabs[if a < i then a else a - 1], tabs[if b < i then b else b - 1]);
      }
    }
    assert forall k: nat :: k < |r| ==> r[k].index == k;
  }

  /** What a replaced preview leaves: no tab with the new path, and no preview. */
  lemma PreviewRemoved(tabs: seq<Tab>, p: nat, path: string)
    requires Inv(Table(tabs, None)) && p < |tabs| && tabs[p].preview && FindPath(tabs, path) == |tabs|
    ensures var kept := Renumber(RemoveAt(tabs, p), p, -1);
            |kept| == |tabs| - 1 && Inv(Table(kept, None))
            && forall k :: 0 <= k < |kept| ==> kept[k].path != path && !kept[k].preview
  {
    RemovalKeeps(tabs, p, p);
    forall k: nat | k < |tabs| - 1
      ensures var t := Renumber(RemoveAt(tabs, p), p, -1)[k]; t.path != path && !t.preview
    {
      RemovalShape(tabs, p, p, k);
    }
  }

  lemma OpenKeeps(t: Table, path: string, permanent: bool, addOk: bool)
    requires Inv(t)
    ensures Inv(Opened(t, path, permanent, addOk))
  {
    var e, p := FindPath(t.tabs, path), FindPreview(t.tabs);
    if e == |t.tabs| {
      assert Inv(Table(t.tabs, None));
      if p < |t.tabs| && !permanent {
        PreviewRemoved(t.tabs, p, path);
        InsertionKeeps(Renumber(RemoveAt(t.tabs, p), p, -1), p, Tab(path, p, true));
      } else {
        InsertionKeeps(t.tabs, |t.tabs|, Tab(path, |t.tabs|, !permanent));
      }
    }
  }

  lemma CloseKeeps(t: Table, path: string)
    requires Inv(t)
    ensures Inv(Closed(t, path))
  {
    var i := FindPath(t.tabs, path);
    if i < |t.tabs| {
      assert Inv(Table(t.tabs, None));
      RemovalKeeps(t.tabs, i, i + 1);
    }
  }

  datatype Action = Open(path: string, permanent: bool, addOk: bool) | Close(path: string)

  function Do(t: Table, a: Action): Table {
    match a
    case Open(path, permanent, addOk) => Opened(t, path, permanent, addOk)
    case Close(path) => Closed(t, path)
  }

  function Run(actions: seq<Action>): Table {
    if actions == [] then Table([], None)
    else Do(Run(actions[..|actions| - 1]), actions[|actions| - 1])
  }

  /** Over every run of opens, previewing, permanent or failing, and closes: the tab at position `i` has
      index `i`, paths are distinct, and at most one tab is a preview. */
  lemma TableConsistent(actions: seq<Action>, i: nat, j: nat)
    requires i < |Run(actions).tabs| && j < |Run(actions).tabs| && i != j
    ensures var tabs := Run(actions).tabs;
            tabs[i].index == i && tabs[i].path != tabs[j].path && !(tabs[i].preview && tabs[j].preview)
  {
    RunKeeps(actions);
    var tabs := Run(actions).tabs;
    assert if i < j then Compatible(tabs[i], tabs[j]) else Compatible(tabs[j], tabs[i]);
  }

  lemma {:induction false} RunKeeps(actions: seq<Action>)
    ensures Inv(Run(actions))
  {
    if actions != [] {
      var front, last := actions[..|actions| - 1], actions[|actions| - 1];
      RunKeeps(front);
      match last
      case Open(path, permanent, addOk) => OpenKeeps(Run(front), path, permanent, addOk);
      case Close(path) => CloseKeeps(Run(front), path);
    }
  }

  /** After closing the tab at position `c` the active tab is the one now at `min(c, length - 1)`, and there
      is none when the table is empty. */
  lemma CloseActivatesNeighbour(actions: seq<Action>, path: string)
    requires FindPath(Run(actions).tabs, path) < |Run(actions).tabs|
    ensures var c, after := FindPath(Run(actions).tabs, path), Closed(Run(actions), path);
            && |after.tabs| == |Run(actions).tabs| - 1
            && after.active == (if after.tabs == [] then None
                                else Some(after.tabs[if c < |after.tabs| then c else |after.tabs| - 1].path))
  {
    RunKeeps(actions);
    var t, c := Run(actions), FindPath(Run(actions).tabs, path);
    CloseKeeps(t, path);
    var rest := Closed(t, path).tabs;
    if rest != [] {
      var n := Nearest(rest, c);
      var want := if c < |rest| then c else |rest| - 1;
      assert Abs(rest[n].index - c) <= Abs(rest[want].index - c);
    }
  }

  // ------------------------------------------------------------------
  // What happens to the other tabs
  // ------------------------------------------------------------------

  function Paths(tabs: seq<Tab>): (r: seq<string>)
    ensures |r| == |tabs|
  {
    seq(|tabs|, k requires 0 <= k < |tabs| => tabs[k].path)
  }

  function Previews(tabs: seq<Tab>): (r: seq<bool>)
    ensures |r| == |tabs|
  {
    seq(|tabs|, k requires 0 <= k < |tabs| => tabs[k].preview)
  }

  lemma RemovalEffect(tabs: seq<Tab>, i: nat, from: int)
    requires Numbered(tabs) && i < |tabs| && i <= from <= i + 1
    ensures var r := Renumber(RemoveAt(tabs, i), from, -1);
            && Paths(r) == Paths(tabs)[..i] + Paths(tabs)[i + 1..]
            && Previews(r) == Previews(tabs)[..i] + Previews(tabs)[i + 1..]
  {
    var r := Renumber(RemoveAt(tabs, i), from, -1);
    forall k: nat | k < |r| ensures r[k] == tabs[if k < i then k else k + 1].(index := k) {
      RemovalShape(tabs, i, from, k);
    }
    hide Renumber, RemoveAt;
  }

  lemma InsertionEffect(tabs: seq<Tab>, i: nat, tab: Tab)
    requires Numbered(tabs) && i <= |tabs| && tab.index == i
    ensures var r := InsertAt(Renumber(tabs, i, 1), i, tab);
            && Paths(r) == Paths(tabs)[..i] + [tab.path] + Paths(tabs)[i..]
            && Previews(r) == Previews(tabs)[..i] + [tab.preview] + Previews(tabs)[i..]
  {
    var r := InsertAt(Renumber(tabs, i, 1), i, tab);
    InsertionShape(tabs, i, tab, i);
    forall k: nat | k < |r| ensures r[k] == Widened(tabs, i, tab, k) {
      InsertionShape(tabs, i, tab, k);
    }
    hide InsertAt, Renumber, Paths, Previews;
    WidenedEffect(tabs, i, tab, r);
  }

  lemma WidenedEffect(tabs: seq<Tab>, i: nat, tab: Tab, r: seq<Tab>)
    requires i <= |tabs| && |r| == |tabs| + 1
    requires forall k: nat :: k < |r| ==> r[k] == Widened(tabs, i, tab, k)
    ensures Paths(r) == Paths(tabs)[..i] + [tab.path] + Paths(tabs)[i..]
    ensures Previews(r) == Previews(tabs)[..i] + [tab.preview] + Previews(tabs)[i..]
  {
  }

  lemma SpliceBack<T>(s: seq<T>, p: nat, x: T)
    requires p < |s|
    ensures var cut := s[..p] + s[p + 1..]; cut[..p] + [x] + cut[p..] == s[p := x]
  {
  }

  /** A new preview takes the place of the old one. */
  lemma ReplacementEffect(tabs: seq<Tab>, p: nat, path: string)
    requires Inv(Table(tabs, None)) && p < |tabs| && tabs[p].preview && FindPath(tabs, path) == |tabs|
    ensures var r := InsertAt(Renumber(Renumber(RemoveAt(tabs, p), p, -1), p, 1), p, Tab(path, p, true));
            Paths(r) == Paths(tabs)[p := path] && Previews(r) == Previews(tabs)
  {
    PreviewRemoved(tabs, p, path);
    RemovalEffect(tabs, p, p);
    var kept := Renumber(RemoveAt(tabs, p), p, -1);
    InsertionEffect(kept, p, Tab(path, p, true));
    SpliceBack(Paths(tabs), p, path);
    SpliceBack(Previews(tabs), p, true);
    assert Previews(tabs)[p := true] == Previews(tabs);
    hide InsertAt, Renumber, RemoveAt, Paths, Previews;
  }

  /** Opening a path that is not open puts it where the preview was, or at the end, and leaves every other
      tab in its place. */
  lemma OpenEffect(t: Table, path: string, permanent: bool)
    requires Inv(t) && FindPath(t.tabs, path) == |t.tabs|
    ensures var p, after := FindPreview(t.tabs), Opened(t, path, permanent, true).tabs;
            if p < |t.tabs| && !permanent then
              Paths(after) == Paths(t.tabs)[p := path] && Previews(after) == Previews(t.tabs)
            else
              Paths(after) == Paths(t.tabs) + [path] && Previews(after) == Previews(t.tabs) + [!permanent]
  {
    var p, n := FindPreview(t.tabs), |t.tabs|;
    assert Inv(Table(t.tabs, None));
    hide InsertAt, Renumber, RemoveAt, Paths, Previews;
    if p < n && !permanent {
      ReplacementEffect(t.tabs, p, path);
    } else {
      InsertionEffect(t.tabs, n, Tab(path, n, !permanent));
    }
  }

  /** Opening an open path moves nothing; opening it permanently ends its being a preview. */
  lemma ReopenEffect(t: Table, path: string, permanent: bool, addOk: bool)
    requires FindPath(t.tabs, path) < |t.tabs|
    ensures var e, after := FindPath(t.tabs, path), Opened(t, path, permanent, addOk);
            && Paths(after.tabs) == Paths(t.tabs) && after.active == Some(path)
            && Previews(after.tabs) == if permanent then Previews(t.tabs)[e := false] else Previews(t.tabs)
  {
  }

  /** Closing takes out one tab and leaves the others in their order. */
  lemma CloseEffect(t: Table, path: string)
    requires Inv(t) && FindPath(t.tabs, path) < |t.tabs|
    ensures var i, after := FindPath(t.tabs, path), Closed(t, path).tabs;
            && Paths(after) == Paths(t.tabs)[..i] + Paths(t.tabs)[i + 1..]
            && Previews(after) == Previews(t.tabs)[..i] + Previews(t.tabs)[i + 1..]
  {
    hide Renumber, RemoveAt, Paths, Previews, Nearest;
    var i := FindPath(t.tabs, path);
    RemovalEffect(t.tabs, i, i + 1);
  }

  // ------------------------------------------------------------------
  // The active tab
  // ------------------------------------------------------------------

  ghost predicate ActiveIsOpen(t: Table) {
    t.active.Some? && FindPath(t.tabs, t.active.value) < |t.tabs|
  }

  /** A successful open makes the opened tab active and open. */
  lemma OpenActivates(t: Table, path: string, permanent: bool)
    requires Inv(t)
    ensures var after := Opened(t, path, permanent, true);
            after.active == Some(path) && ActiveIsOpen(after)
  {
    var after := Opened(t, path, permanent, true);
    var e := FindPath(t.tabs, path);
    if e < |t.tabs| {
      assert after.tabs[e].path == path;
    } else {
      var p := FindPreview(t.tabs);
      var at := if p < |t.tabs| && !permanent then t.tabs[p].index else |t.tabs|;
      assert after.tabs[at].path == path;
    }
  }

  /** When `ui.addTab` fails, the active tab stays open exactly unless it was the preview that had already
      been taken out to make room. */
  lemma FailedOpenDangles(t: Table, path: string, permanent: bool)
    requires Inv(t) && ActiveIsOpen(t) && FindPath(t.tabs, path) == |t.tabs|
    ensures var p := FindPreview(t.tabs);
            ActiveIsOpen(Opened(t, path, permanent, false))
            <==> permanent || p == |t.tabs| || t.active != Some(t.tabs[p].path)
  {
    var p := FindPreview(t.tabs);
    if p < |t.tabs| && !permanent {
      var kept := Renumber(RemoveAt(t.tabs, p), p, -1);
      var a := FindPath(t.tabs, t.active.value);
      forall k: nat | k < |kept| ensures kept[k].path == t.tabs[if k < p then k else k + 1].path {
        RemovalShape(t.tabs, p, p, k);
      }
      if a != p {
        assert kept[if a < p then a else a - 1].path == t.active.value;
      }
    }
  }

  // ------------------------------------------------------------------
  // When the active tab is not in the table
  // ------------------------------------------------------------------

  ghost predicate Dangling(t: Table) {
    t.active.Some? && FindPath(t.tabs, t.active.value) == |t.tabs|
  }

  /** A refused open has taken the active tab out as the preview to be replaced. */
  ghost predicate TakesActive(t: Table, a: Action) {
    && a.Open? && !a.addOk && !a.permanent && FindPath(t.tabs, a.path) == |t.tabs|
    && var p := FindPreview(t.tabs);
       p < |t.tabs| && t.active == Some(t.tabs[p].path)
  }

  /** The action names no tab in the table, and adds none. */
  ghost predicate Misses(t: Table, a: Action) {
    FindPath(t.tabs, a.path) == |t.tabs| && (a.Open? ==> !a.addOk)
  }

  lemma PathFound(tabs: seq<Tab>, path: string)
    ensures FindPath(tabs, path) < |tabs| <==> path in Paths(tabs)
  {
    if path in Paths(tabs) {
      var k :| 0 <= k < |tabs| && Paths(tabs)[k] == path;
      assert tabs[k].path == path;
    }
    if FindPath(tabs, path) < |tabs| {
      assert Paths(tabs)[FindPath(tabs, path)] == path;
    }
  }

  /** Taking the tab at `p` out removes its path and no other. */
  lemma PathsWithout(tabs: seq<Tab>, p: nat, path: string)
    requires Inv(Table(tabs, None)) && p < |tabs|
    ensures var kept := Renumber(RemoveAt(tabs, p), p, -1);
            FindPath(kept, path) == |kept| <==> FindPath(tabs, path) == |tabs| || tabs[p].path == path
  {
    hide Renumber, RemoveAt, FindPath;
    var kept := Renumber(RemoveAt(tabs, p), p, -1);
    RemovalEffect(tabs, p, p);
    PathFound(kept, path);
    PathFound(tabs, path);
    PathsDiffer(tabs);
    hide Inv;
    CutMember(Paths(tabs), p, path);
  }

  lemma PathsDiffer(tabs: seq<Tab>)
    requires Inv(Table(tabs, None))
    ensures forall i, j :: 0 <= i < j < |tabs| ==> Paths(tabs)[i] != Paths(tabs)[j]
  {
    forall i, j | 0 <= i < j < |tabs| ensures Paths(tabs)[i] != Paths(tabs)[j] {
      assert Compatible(tabs[i], tabs[j]);
    }
  }

  lemma CutMember(paths: seq<string>, p: nat, path: string)
    requires p < |paths| && forall i, j :: 0 <= i < j < |paths| ==> paths[i] != paths[j]
    ensures path in paths[..p] + paths[p + 1..] <==> path in paths && path != paths[p]
  {
    assert paths == paths[..p] + [paths[p]] + paths[p + 1..];
  }

  /** One action: the active tab is missing afterwards exactly if the action has taken it out, or it was
      missing and the action is without effect on it. */
  lemma DanglingStep(t: Table, a: Action)
    requires Inv(t)
    ensures Dangling(Do(t, a)) <==> TakesActive(t, a) || (Dangling(t) && Misses(t, a))
  {
    match a
    case Open(path, permanent, addOk) =>
      if FindPath(t.tabs, path) < |t.tabs| || addOk {
        OpenedIsActive(t, path, permanent, addOk);
      } else {
        RefusedStep(t, path, permanent);
      }
    case Close(path) =>
      if FindPath(t.tabs, path) < |t.tabs| {
        ClosedIsNotDangling(t, path);
      }
  }

  lemma OpenedIsActive(t: Table, path: string, permanent: bool, addOk: bool)
    requires Inv(t) && (FindPath(t.tabs, path) < |t.tabs| || addOk)
    ensures ActiveIsOpen(Opened(t, path, permanent, addOk))
  {
    if FindPath(t.tabs, path) < |t.tabs| {
      assert Opened(t, path, permanent, addOk) == Opened(t, path, permanent, true);
    }
    OpenActivates(t, path, permanent);
  }

  lemma RefusedStep(t: Table, path: string, permanent: bool)
    requires Inv(t) && FindPath(t.tabs, path) == |t.tabs|
    ensures Dangling(Opened(t, path, permanent, false)) <==> TakesActive(t, Open(path, permanent, false)) || Dangling(t)
  {
    var p := FindPreview(t.tabs);
    if p < |t.tabs| && !permanent && t.active.Some? {
      assert Inv(Table(t.tabs, None));
      PathsWithout(t.tabs, p, t.active.value);
    }
  }

  lemma ClosedIsNotDangling(t: Table, path: string)
    requires FindPath(t.tabs, path) < |t.tabs|
    ensures !Dangling(Closed(t, path))
  {
    var rest := Closed(t, path).tabs;
    if rest != [] {
      var n := Nearest(rest, t.tabs[FindPath(t.tabs, path)].index);
      assert Closed(t, path).active == Some(rest[n].path);
      assert FindPath(rest, rest[n].path) <= n;
    }
  }

  ghost predicate TakesAt(actions: seq<Action>, k: nat)
    requires k < |actions|
  {
    TakesActive(Run(actions[..k]), actions[k])
  }

  ghost predicate MissesAt(actions: seq<Action>, k: nat)
    requires k < |actions|
  {
    Misses(Run(actions[..k]), actions[k])
  }

  /** Action `k` of a run takes the active tab out, and no later action has an effect on it. */
  ghost predicate DanglesSince(actions: seq<Action>, k: nat) {
    k < |actions| && TakesAt(actions, k) && forall m: nat :: k < m < |actions| ==> MissesAt(actions, m)
  }

  lemma SameInFront(actions: seq<Action>, m: nat)
    requires m + 1 < |actions|
    ensures var front := actions[..|actions| - 1];
            TakesAt(actions, m) == TakesAt(front, m) && MissesAt(actions, m) == MissesAt(front, m)
  {
    assert actions[..|actions| - 1][..m] == actions[..m];
  }

  lemma DanglesSinceFront(actions: seq<Action>, k: nat)
    requires k + 1 < |actions|
    ensures var n := |actions| - 1;
            DanglesSince(actions, k) <==> DanglesSince(actions[..n], k) && MissesAt(actions, n)
  {
    hide TakesAt, MissesAt;
    var n := |actions| - 1;
    var front := actions[..n];
    SameInFront(actions, k);
    forall m: nat | m < n ensures MissesAt(actions, m) == MissesAt(front, m) {
      SameInFront(actions, m);
    }
    if DanglesSince(actions, k) {
      assert MissesAt(actions, n);
      assert forall m: nat :: k < m < n ==> MissesAt(actions, m);
    }
  }

  /** After any run the active tab is missing from the table exactly if some refused open has taken it out as
      the preview, and nothing has been opened or closed since. */
  lemma {:induction false} DanglingExactly(actions: seq<Action>)
    ensures Dangling(Run(actions)) <==> exists k :: DanglesSince(actions, k)
  {
    if actions != [] {
      var n := |actions| - 1;
      var front := actions[..n];
      RunKeeps(front);
      DanglingExactly(front);
      DanglingStep(Run(front), actions[n]);
      hide Dangling, TakesActive, Misses;
      assert TakesActive(Run(front), actions[n]) <==> DanglesSince(actions, n);
      assert MissesAt(actions, n) == Misses(Run(front), actions[n]);
      if k: nat :| DanglesSince(front, k) {
        DanglesSinceFront(actions, k);
      }
      forall k: nat | DanglesSince(actions, k) && k != n
        ensures DanglesSince(front, k) && Misses(Run(front), actions[n])
      {
        DanglesSinceFront(actions, k);
      }
    }
  }

  /** A run that ends with an active tab and an empty table: a preview, and a second one that the UI refuses. */
  lemma RefusedPreviewDangles()
    ensures var t := Run([Open("a", false, true), Open("b", false, false)]);
            t.tabs == [] && t.active == Some("a") && Dangling(t)
  {
    hide Opened;
    var a, b := Open("a", false, true), Open("b", false, false);
    assert [a][..0] == [] && [a, b][..1] == [a];
    FirstPreview();
    SecondPreviewRefused();
    assert Run([a]) == Do(Run([]), a);
  }

  lemma FirstPreview()
    ensures Opened(Table([], None), "a", false, true) == Table([Tab("a", 0, true)], Some("a"))
  {
    assert Opened(Table([], None), "a", false, true).tabs == [Tab("a", 0, true)];
  }

  lemma SecondPreviewRefused()
    ensures Opened(Table([Tab("a", 0, true)], Some("a")), "b", false, false) == Table([], Some("a"))
  {
    var tabs := [Tab("a", 0, true)];
    assert tabs[1..] == [];
    assert FindPath(tabs, "b") == 1 && FindPreview(tabs) == 0;
  }

  // ------------------------------------------------------------------
  // The other way to close a tab
  // ------------------------------------------------------------------

  /** `_ai_rpc_close_tab` filters the list without renumbering it. */
  function ClosedByRpc(tabs: seq<Tab>, i: nat): seq<Tab>
    requires i < |tabs|
  {
    RemoveAt(tabs, i)
  }

  /** It keeps the indices right exactly when it closes the last tab. */
  lemma RpcCloseBreaksNumbering(tabs: seq<Tab>, i: nat)
    requires Numbered(tabs) && i < |tabs|
    ensures Numbered(ClosedByRpc(tabs, i)) <==> i == |tabs| - 1
  {
    if i < |tabs| - 1 {
      assert ClosedByRpc(tabs, i)[i] == tabs[i + 1];
    }
  }

  /** A concrete table whose first tab is closed over RPC. */
  lemma RpcCloseLeavesGap()
    ensures var tabs := [Tab("a", 0, false), Tab("b", 1, false)];
            Numbered(tabs) && !Numbered(ClosedByRpc(tabs, 0))
  {
    RpcCloseBreaksNumbering([Tab("a", 0, false), Tab("b", 1, false)], 0);
  }
}

/** Saving a split tree and putting it back. */
module Snapshots {
  import opened Text
  import opened Strips
  import opened SplitTree
  import opened SplitAreas

  /** One pane saved: the tab it shows and its tabs in strip order. */
  datatype PaneTree = PaneTree(active: TabId, members: seq<TabId>)

  datatype LayoutTree =
    | PaneOf(pane: PaneTree)
    | SplitOf(direction: Direction, dock: bool, ratio: real, first: LayoutTree, second: LayoutTree)

  /** A pane rebuilt, its first tab shown where the one to show is not among them; nothing for a pane of no tabs. */
  function FromTree(tree: PaneTree): Option<Pane> {
    if tree.members == [] then None
    else
      var active := if tree.active in tree.members then tree.active else tree.members[0];
      Some(Pane(active, tree.members, [active] + Without(tree.members, active)))
  }

  function Clamp(ratio: real): (clamped: real)
    ensures 0.0 <= clamped <= 1.0
    ensures clamped < ratio ==> clamped == 1.0
    ensures clamped > ratio ==> clamped == 0.0
  {
    if ratio < 0.0 then 0.0 else if ratio > 1.0 then 1.0 else ratio
  }

  /** A tree rebuilt: empty panes dropped, and every split left with one side collapsed into it. */
  function LayoutTreeToNode(tree: LayoutTree): Option<Node> {
    match tree
    case PaneOf(pane) =>
      var rebuilt := FromTree(pane);
      if rebuilt.Some? then Some(Leaf(rebuilt.value)) else None
    case SplitOf(direction, dock, ratio, first, second) =>
      var a, b := LayoutTreeToNode(first), LayoutTreeToNode(second);
      if a.Some? && b.Some? then Some(Split(direction, dock, Clamp(ratio), a.value, b.value))
      else if a.Some? then a
      else b
  }

  function NodeToLayoutTree(node: Node): LayoutTree {
    match node
    case Leaf(pane) => PaneOf(PaneTree(pane.active, pane.members))
    case Split(direction, dock, ratio, first, second) =>
      SplitOf(direction, dock, ratio, NodeToLayoutTree(first), NodeToLayoutTree(second))
  }

  /** Every tab a snapshot names. */
  ghost function Named(tree: LayoutTree): multiset<TabId> {
    match tree
    case PaneOf(pane) => multiset(pane.members)
    case SplitOf(_, _, _, first, second) => Named(first) + Named(second)
  }

  /** Whether no split of a snapshot but the one at its root is the dock's. */
  predicate DockAtRoot(tree: LayoutTree) {
    tree.SplitOf? ==> NoDock(tree.first) && NoDock(tree.second)
  }

  predicate NoDock(tree: LayoutTree) {
    tree.SplitOf? ==> !tree.dock && NoDock(tree.first) && NoDock(tree.second)
  }

  lemma PaneRebuilt(tree: PaneTree)
    requires tree.members != [] && Distinct(multiset(tree.members))
    ensures FromTree(tree).Some? && FromTree(tree).value.Ok() && FromTree(tree).value.members == tree.members
  {
    var active := FromTree(tree).value.active;
    assert multiset(tree.members)[active] == 1;
    WithoutHolds(tree.members, active);
  }

  /** Whatever a snapshot holds, restoring keeps every tab it names and no other; it comes to nothing only when it names
      none. */
  lemma {:induction false} RestoreKeepsTabs(tree: LayoutTree)
    ensures LayoutTreeToNode(tree).None? <==> Named(tree) == multiset{}
    ensures LayoutTreeToNode(tree).Some? ==> HeldBy(PanesOf(LayoutTreeToNode(tree).value)) == Named(tree)
  {
    match tree
    case PaneOf(pane) =>
      if pane.members != [] {
        assert pane.members[0] in multiset(pane.members);
        HeldFirst(FromTree(pane).value, []);
        assert [FromTree(pane).value] + [] == [FromTree(pane).value];
      }
    case SplitOf(_, _, _, first, second) =>
      RestoreKeepsTabs(first);
      RestoreKeepsTabs(second);
      var a, b := LayoutTreeToNode(first), LayoutTreeToNode(second);
      if a.Some? && b.Some? {
        HeldSum(PanesOf(a.value), PanesOf(b.value));
      }
  }

  /** The panes a snapshot names tabs for, in tree order. */
  function NamedPanes(tree: LayoutTree): seq<PaneTree> {
    match tree
    case PaneOf(pane) => if pane.members == [] then [] else [pane]
    case SplitOf(_, _, _, first, second) => NamedPanes(first) + NamedPanes(second)
  }

  /** Whether a pane holds the tabs saved of it and shows the one it showed, or its first where that is gone. */
  predicate RestoredAs(pane: Pane, saved: PaneTree) {
    && pane.members == saved.members != []
    && pane.active == if saved.active in saved.members then saved.active else saved.members[0]
  }

  /** Restoring gives back each pane that a snapshot names tabs for, in its order. */
  lemma {:induction false} RestoredInOrder(tree: LayoutTree)
    ensures LayoutTreeToNode(tree).None? <==> NamedPanes(tree) == []
    ensures LayoutTreeToNode(tree).Some? ==>
      var panes := PanesOf(LayoutTreeToNode(tree).value);
      && |panes| == |NamedPanes(tree)|
      && forall i | 0 <= i < |panes| :: RestoredAs(panes[i], NamedPanes(tree)[i])
  {
    if tree.SplitOf? {
      RestoredInOrder(tree.first);
      RestoredInOrder(tree.second);
    }
  }

  /** Whether every pane of a snapshot shows one of its tabs, and every split's ratio is one. */
  predicate Whole(tree: LayoutTree) {
    match tree
    case PaneOf(pane) => pane.active in pane.members
    case SplitOf(_, _, ratio, first, second) => 0.0 <= ratio <= 1.0 && Whole(first) && Whole(second)
  }

  /** A snapshot with nothing to mend is saved again as it was. */
  lemma {:induction false} WholeTreeBack(tree: LayoutTree)
    requires Whole(tree)
    ensures LayoutTreeToNode(tree).Some? && NodeToLayoutTree(LayoutTreeToNode(tree).value) == tree
  {
    if tree.SplitOf? {
      WholeTreeBack(tree.first);
      WholeTreeBack(tree.second);
    }
  }

  lemma {:induction false} RestoredPanes(tree: LayoutTree, i: nat)
    requires Distinct(Named(tree)) && LayoutTreeToNode(tree).Some? && i < |PanesOf(LayoutTreeToNode(tree).value)|
    ensures PanesOf(LayoutTreeToNode(tree).value)[i].Ok()
  {
    match tree
    case PaneOf(pane) =>
      PaneRebuilt(pane);
    case SplitOf(_, _, _, first, second) =>
      DistinctPart(Named(first), Named(tree));
      DistinctPart(Named(second), Named(tree));
      var a, b := LayoutTreeToNode(first), LayoutTreeToNode(second);
      if a.Some? && i < |PanesOf(a.value)| {
        RestoredPanes(first, i);
      } else if a.Some? {
        RestoredPanes(second, i - |PanesOf(a.value)|);
      } else {
        RestoredPanes(second, i);
      }
  }

  lemma {:induction false} RestoredSound(tree: LayoutTree)
    requires NoDock(tree)
    ensures LayoutTreeToNode(tree).Some? ==> Sound(LayoutTreeToNode(tree).value)
  {
    if tree.SplitOf? {
      RestoredSound(tree.first);
      RestoredSound(tree.second);
    }
  }

  /** A snapshot that names no tab twice and keeps its dock at the root restores to a whole window. */
  lemma RestoredWindow(tree: LayoutTree)
    requires Distinct(Named(tree)) && DockAtRoot(tree) && LayoutTreeToNode(tree).Some?
    ensures RootSound(LayoutTreeToNode(tree).value) && StripsOf(LayoutTreeToNode(tree).value).Ok()
    ensures StripsOf(LayoutTreeToNode(tree).value).Tabs() == Named(tree)
  {
    hide LayoutTreeToNode, HeldBy, Named, RootSound, Pane.Ok, PanesOf;
    var root := LayoutTreeToNode(tree).value;
    RestoreKeepsTabs(tree);
    RestoredRoot(tree);
    forall i | 0 <= i < |PanesOf(root)| ensures PanesOf(root)[i].Ok() {
      RestoredPanes(tree, i);
    }
    SomeAbove(root);
  }

  lemma SomeAbove(root: Node)
    ensures 0 < StripsOf(root).above <= |PanesOf(root)|
  {
  }

  lemma RestoredRoot(tree: LayoutTree)
    requires DockAtRoot(tree) && LayoutTreeToNode(tree).Some?
    ensures RootSound(LayoutTreeToNode(tree).value)
  {
    if tree.SplitOf? {
      RestoredSound(tree.first);
      RestoredSound(tree.second);
    }
  }

  /** Saving a window and restoring it gives the same panes with the same strips in the same places: all but how
      recently each tab was shown. */
  lemma {:induction false} SnapshotRoundTrip(node: Node, area: Rect)
    requires forall i | 0 <= i < |PanesOf(node)| :: PanesOf(node)[i].Ok()
    requires RatiosIn(node)
    ensures LayoutTreeToNode(NodeToLayoutTree(node)).Some?
    ensures var restored := LayoutTreeToNode(NodeToLayoutTree(node)).value;
      && NodeToLayoutTree(restored) == NodeToLayoutTree(node)
      && CollectPanes(restored, area) == CollectPanes(node, area)
  {
    if node.Leaf? {
      assert PanesOf(node)[0].Ok();
      assert node.pane.active in multiset(node.pane.recent);
    } else {
      var a, b := PanesOf(node.first), PanesOf(node.second);
      assert forall i | 0 <= i < |a| :: a[i] == PanesOf(node)[i];
      assert forall i | 0 <= i < |b| :: b[i] == PanesOf(node)[|a| + i];
      var sides := area.Split(node.direction, node.ratio);
      SnapshotRoundTrip(node.first, sides.0);
      SnapshotRoundTrip(node.second, sides.1);
    }
  }

  predicate RatiosIn(node: Node) {
    node.Split? ==> 0.0 <= node.ratio <= 1.0 && RatiosIn(node.first) && RatiosIn(node.second)
  }

  lemma {:induction false} SoundRatios(node: Node)
    requires Sound(node)
    ensures RatiosIn(node)
  {
    if node.Split? {
      SoundRatios(node.first);
      SoundRatios(node.second);
    }
  }

  lemma {:induction false} SavedNames(node: Node)
    ensures Named(NodeToLayoutTree(node)) == HeldBy(PanesOf(node))
  {
    if node.Split? {
      SavedNames(node.first);
      SavedNames(node.second);
      HeldSum(PanesOf(node.first), PanesOf(node.second));
    } else {
      HeldFirst(node.pane, []);
      assert [node.pane] + [] == [node.pane];
    }
  }

  lemma {:induction false} SavedSound(node: Node)
    requires Sound(node)
    ensures NoDock(NodeToLayoutTree(node))
  {
    if node.Split? {
      SavedSound(node.first);
      SavedSound(node.second);
    }
  }

  lemma SavedDock(root: Node)
    requires RootSound(root)
    ensures DockAtRoot(NodeToLayoutTree(root))
  {
    if root.Split? {
      SavedSound(root.first);
      SavedSound(root.second);
    }
  }

  lemma RootRatios(root: Node)
    requires RootSound(root)
    ensures RatiosIn(root)
  {
    if root.Split? {
      SoundRatios(root.first);
      SoundRatios(root.second);
    }
  }
}

/** The tree of splits whose leaves are the window's panes, and its surgery. */
module SplitTree {
  import opened Text
  import opened Strips

  /** Which way a split's divider runs: across, one side above the other, or down, one beside the other. */
  datatype Direction = Horizontal | Vertical

  /** Where a new pane goes beside one there is. */
  datatype FocusDir = Down | Left | Right | Up

  datatype Node =
    | Leaf(pane: Pane)
    | Split(direction: Direction, dock: bool, ratio: real, first: Node, second: Node)

  function PanesOf(node: Node): (panes: seq<Pane>)
    ensures panes != []
  {
    match node
    case Leaf(pane) => [pane]
    case Split(_, _, _, first, second) => PanesOf(first) + PanesOf(second)
  }

  /** Every split divides its area between its sides, and none is the dock's. */
  predicate Sound(node: Node) {
    node.Split? ==> !node.dock && 0.0 <= node.ratio <= 1.0 && Sound(node.first) && Sound(node.second)
  }

  /** A whole window's tree: only the split at the root may be the dock's. */
  predicate RootSound(root: Node) {
    root.Split? ==> 0.0 <= root.ratio <= 1.0 && Sound(root.first) && Sound(root.second)
  }

  predicate HasDock(root: Node) {
    root.Split? && root.dock
  }

  /** The window as a flat list of strips. */
  function StripsOf(root: Node): Strips {
    Strips(PanesOf(root), if HasDock(root) then |PanesOf(root.first)| else |PanesOf(root)|)
  }

  lemma SoundIsRootSound(node: Node)
    requires Sound(node)
    ensures RootSound(node) && !HasDock(node)
  {
  }

  // ------------------------------------------------------------------------
  // Finding a pane
  // ------------------------------------------------------------------------

  function FindPane(node: Node, tab: TabId): Option<Pane> {
    match node
    case Leaf(pane) => if tab in pane.members then Some(pane) else None
    case Split(_, _, _, first, second) =>
      var found := FindPane(first, tab);
      if found.Some? then found else FindPane(second, tab)
  }

  /** Finding a tab's pane is finding the first that holds it. */
  lemma {:induction false} FindPaneIsFirst(node: Node, tab: TabId)
    ensures var panes := PanesOf(node); var i := Holding(panes, tab);
      FindPane(node, tab) == if i < |panes| then Some(panes[i]) else None
  {
    if node.Split? {
      FindPaneIsFirst(node.first, tab);
      FindPaneIsFirst(node.second, tab);
      HoldingSum(PanesOf(node.first), PanesOf(node.second), tab);
    }
  }

  // ------------------------------------------------------------------------
  // Replacing a pane
  // ------------------------------------------------------------------------

  /** The first pane holding `target` replaced by `by`; nothing when none holds it. */
  function Graft(node: Node, target: TabId, grafted: Node): Option<Node> {
    match node
    case Leaf(pane) => if target in pane.members then Some(grafted) else None
    case Split(_, _, _, first, second) =>
      match Graft(first, target, grafted)
      case Some(changed) => Some(node.(first := changed))
      case None =>
        match Graft(second, target, grafted)
        case Some(changed) => Some(node.(second := changed))
        case None => None
  }

  /** A pane changed in place. */
  function WithPane(node: Node, target: TabId, pane: Pane): Node {
    Graft(node, target, Leaf(pane)).GetOr(node)
  }

  lemma HoldingOne(pane: Pane, tab: TabId)
    ensures Holding([pane], tab) == if tab in pane.members then 0 else 1
  {
  }

  lemma {:induction false} GraftSplices(node: Node, target: TabId, grafted: Node)
    ensures var panes := PanesOf(node); var i := Holding(panes, target);
      if i == |panes| then Graft(node, target, grafted) == None
      else
        && Graft(node, target, grafted).Some?
        && PanesOf(Graft(node, target, grafted).value) == Splice(panes, i, PanesOf(grafted))
        && (Sound(node) && Sound(grafted) ==> Sound(Graft(node, target, grafted).value))
  {
    hide Splice, Holding;
    if node.Leaf? {
      HoldingOne(node.pane, target);
      SpliceOne(node.pane, PanesOf(grafted));
    } else {
      var a, b := PanesOf(node.first), PanesOf(node.second);
      GraftSplices(node.first, target, grafted);
      GraftSplices(node.second, target, grafted);
      HoldingSum(a, b, target);
      var i := Holding(a + b, target);
      if i < |a| + |b| {
        SpliceSum(a, b, i, PanesOf(grafted));
      }
    }
  }

  /** In the whole window, the strips change there alone, and the dock stays where it is. */
  lemma GraftInWindow(root: Node, target: TabId, grafted: Node)
    requires RootSound(root) && Sound(grafted) && StripsOf(root).At(target) < |PanesOf(root)|
    ensures Graft(root, target, grafted).Some?
    ensures RootSound(Graft(root, target, grafted).value)
    ensures StripsOf(Graft(root, target, grafted).value)
      == StripsOf(root).Spliced(StripsOf(root).At(target), PanesOf(grafted))
  {
    hide Splice, Holding;
    GraftSplices(root, target, grafted);
    if root.Split? {
      GraftSplices(root.first, target, grafted);
      GraftSplices(root.second, target, grafted);
      HoldingSum(PanesOf(root.first), PanesOf(root.second), target);
    }
  }

  lemma GraftKeepsDock(root: Node, target: TabId, pane: Pane)
    ensures HasDock(WithPane(root, target, pane)) == HasDock(root)
  {
  }

  lemma PaneInWindow(root: Node, target: TabId, pane: Pane)
    requires RootSound(root) && StripsOf(root).At(target) < |PanesOf(root)|
    ensures RootSound(WithPane(root, target, pane)) && HasDock(WithPane(root, target, pane)) == HasDock(root)
    ensures StripsOf(WithPane(root, target, pane)) == StripsOf(root).With(StripsOf(root).At(target), pane)
  {
    hide Splice, Holding, Graft, RootSound;
    GraftInWindow(root, target, Leaf(pane));
    SpliceWithOne(PanesOf(root), StripsOf(root).At(target), pane);
    GraftKeepsDock(root, target, pane);
  }

  // ------------------------------------------------------------------------
  // Splitting a pane
  // ------------------------------------------------------------------------

  function SplitAt(node: Node, target: TabId, direction: Direction, ratio: real, newTab: TabId): Option<Node> {
    match node
    case Leaf(pane) =>
      if target in pane.members then Some(Split(direction, false, ratio, node, Leaf(Only(newTab)))) else None
    case Split(_, _, _, first, second) =>
      match SplitAt(first, target, direction, ratio, newTab)
      case Some(changed) => Some(node.(first := changed))
      case None =>
        match SplitAt(second, target, direction, ratio, newTab)
        case Some(changed) => Some(node.(second := changed))
        case None => None
  }

  /** Two panes in halves, `placed` on the side it goes to. */
  function Halves(direction: FocusDir, stays: Node, placed: Node): Node {
    match direction
    case Left => Split(Vertical, false, 0.5, placed, stays)
    case Right => Split(Vertical, false, 0.5, stays, placed)
    case Up => Split(Horizontal, false, 0.5, placed, stays)
    case Down => Split(Horizontal, false, 0.5, stays, placed)
  }

  function SplitOffTab(node: Node, tab: TabId, direction: FocusDir): Option<Node> {
    match node
    case Leaf(pane) =>
      if tab in pane.members then Some(Halves(direction, Leaf(pane.Remove(tab)), Leaf(Only(tab)))) else None
    case Split(_, _, _, first, second) =>
      match SplitOffTab(first, tab, direction)
      case Some(changed) => Some(node.(first := changed))
      case None =>
        match SplitOffTab(second, tab, direction)
        case Some(changed) => Some(node.(second := changed))
        case None => None
  }

  function SplitPaneWithTab(node: Node, target: TabId, newTab: TabId, direction: FocusDir): Option<Node> {
    match node
    case Leaf(pane) =>
      if target in pane.members then Some(Halves(direction, node, Leaf(Only(newTab)))) else None
    case Split(_, _, _, first, second) =>
      match SplitPaneWithTab(first, target, newTab, direction)
      case Some(changed) => Some(node.(first := changed))
      case None =>
        match SplitPaneWithTab(second, target, newTab, direction)
        case Some(changed) => Some(node.(second := changed))
        case None => None
  }

  /** Each of the three splits replaces the one pane it splits. */
  lemma {:induction false} SplitsAreGrafts(
    node: Node, target: TabId, direction: Direction, side: FocusDir, ratio: real, newTab: TabId)
    ensures FindPane(node, target).None? ==>
      && SplitAt(node, target, direction, ratio, newTab) == None
      && SplitOffTab(node, target, side) == None
      && SplitPaneWithTab(node, target, newTab, side) == None
    ensures FindPane(node, target).Some? ==>
      var there := FindPane(node, target).value;
      && SplitAt(node, target, direction, ratio, newTab)
        == Graft(node, target, Split(direction, false, ratio, Leaf(there), Leaf(Only(newTab))))
      && SplitOffTab(node, target, side)
        == Graft(node, target, Halves(side, Leaf(there.Remove(target)), Leaf(Only(target))))
      && SplitPaneWithTab(node, target, newTab, side)
        == Graft(node, target, Halves(side, Leaf(there), Leaf(Only(newTab))))
  {
    if node.Split? {
      SplitsAreGrafts(node.first, target, direction, side, ratio, newTab);
      SplitsAreGrafts(node.second, target, direction, side, ratio, newTab);
      var found := FindPane(node, target);
      if found.Some? {
        FindIsGraft(node.first, target, Split(direction, false, ratio, Leaf(found.value), Leaf(Only(newTab))));
        FindIsGraft(node.first, target, Halves(side, Leaf(found.value.Remove(target)), Leaf(Only(target))));
        FindIsGraft(node.first, target, Halves(side, Leaf(found.value), Leaf(Only(newTab))));
      }
    }
  }

  lemma FindIsGraft(node: Node, target: TabId, grafted: Node)
    ensures FindPane(node, target).Some? <==> Graft(node, target, grafted).Some?
  {
    FindPaneIsFirst(node, target);
    GraftSplices(node, target, grafted);
  }

  // ------------------------------------------------------------------------
  // Closing a pane
  // ------------------------------------------------------------------------

  predicate LeafHolds(node: Node, target: TabId) {
    node.Leaf? && target in node.pane.members
  }

  /** The pane holding `target` gone and its sibling in their parent's place; nothing for the root pane. */
  function CloseIn(node: Node, target: TabId): Option<Node> {
    match node
    case Leaf(_) => None
    case Split(_, _, _, first, second) =>
      if LeafHolds(first, target) then Some(second)
      else if LeafHolds(second, target) then Some(first)
      else
        match CloseIn(first, target)
        case Some(changed) => Some(node.(first := changed))
        case None =>
          match CloseIn(second, target)
          case Some(changed) => Some(node.(second := changed))
          case None => None
  }

  /** At most one pane holds `target`. */
  ghost predicate HeldByOne(panes: seq<Pane>, target: TabId) {
    forall i | 0 <= i < |panes| && target in panes[i].members :: i == Holding(panes, target)
  }

  lemma HeldByOneParts(a: seq<Pane>, b: seq<Pane>, target: TabId)
    requires HeldByOne(a + b, target)
    ensures HeldByOne(a, target) && HeldByOne(b, target)
    ensures Holding(a, target) < |a| ==> Holding(b, target) == |b|
  {
    HoldingSum(a, b, target);
    assert forall i | 0 <= i < |a| :: (a + b)[i] == a[i];
    assert forall i | 0 <= i < |b| :: (a + b)[|a| + i] == b[i];
  }

  lemma TakenSum<T>(a: seq<T>, b: seq<T>, at: nat)
    requires at < |a| + |b|
    ensures Taken(a + b, at) == if at < |a| then Taken(a, at) + b else a + Taken(b, at - |a|)
  {
  }

  lemma {:induction false} CloseInTakes(node: Node, target: TabId)
    requires HeldByOne(PanesOf(node), target)
    ensures var panes := PanesOf(node); var i := Holding(panes, target);
      if node.Leaf? || i == |panes| then CloseIn(node, target) == None
      else
        && CloseIn(node, target).Some?
        && PanesOf(CloseIn(node, target).value) == Taken(panes, i)
        && (Sound(node) ==> Sound(CloseIn(node, target).value))
  {
    if node.Split? {
      var a, b := PanesOf(node.first), PanesOf(node.second);
      HeldByOneParts(a, b, target);
      HoldingSum(a, b, target);
      var i := Holding(a + b, target);
      if i < |a| + |b| {
        TakenSum(a, b, i);
      }
      if node.first.Leaf? {
        assert a == [node.first.pane];
      }
      if node.second.Leaf? {
        assert b == [node.second.pane];
      }
      CloseInTakes(node.first, target);
      CloseInTakes(node.second, target);
    }
  }

  /** Closing a pane takes its strip alone out of the window; the dock goes when either side of it is left empty. */
  lemma CloseInWindow(root: Node, target: TabId)
    requires RootSound(root) && StripsOf(root).Ok() && StripsOf(root).At(target) < |PanesOf(root)|
    ensures CloseIn(root, target).None? <==> root.Leaf?
    ensures root.Split? ==>
      && RootSound(CloseIn(root, target).value)
      && StripsOf(CloseIn(root, target).value) == StripsOf(root).Dropped(StripsOf(root).At(target))
  {
    hide Taken, Holding, HeldByOne;
    var panes := PanesOf(root);
    HeldByAtMostOne(panes, target);
    CloseInTakes(root, target);
    if root.Split? {
      var a, b := PanesOf(root.first), PanesOf(root.second);
      HeldByOneParts(a, b, target);
      HoldingSum(a, b, target);
      LeafHoldsIt(root.first, target);
      LeafHoldsIt(root.second, target);
      CloseInTakes(root.first, target);
      CloseInTakes(root.second, target);
      TakenFewer(panes, Holding(panes, target));
      if Holding(a, target) < |a| {
        TakenFewer(a, Holding(a, target));
      }
    }
  }

  lemma TakenFewer<T>(s: seq<T>, at: nat)
    requires at < |s|
    ensures |Taken(s, at)| == |s| - 1
  {
  }

  lemma LeafHoldsIt(node: Node, target: TabId)
    ensures node.Leaf? ==> PanesOf(node) == [node.pane]
    ensures node.Leaf? ==> (LeafHolds(node, target) <==> Holding(PanesOf(node), target) == 0)
    ensures LeafHolds(node, target) ==> node.Leaf?
  {
  }

  lemma HeldByAtMostOne(panes: seq<Pane>, target: TabId)
    requires Distinct(HeldBy(panes))
    ensures HeldByOne(panes, target)
  {
    forall i | 0 <= i < |panes| && target in panes[i].members ensures i == Holding(panes, target) {
      HeldOnce(panes, target, i);
    }
  }

  lemma LeafIsAlone(root: Node)
    ensures root.Leaf? <==> |PanesOf(root)| == 1
  {
    if root.Split? {
      assert |PanesOf(root)| == |PanesOf(root.first)| + |PanesOf(root.second)|;
    }
  }
}

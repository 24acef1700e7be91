/** Where the panes of a split tree sit, and how balancing shares the window among them. */
module SplitAreas {
  import opened Text
  import opened Strips
  import opened SplitTree

  /** Part of a length. */
  function Share(length: real, ratio: real): real {
    length * ratio
  }

  datatype Rect = Rect(x: real, y: real, width: real, height: real) {
    function Split(direction: Direction, ratio: real): (Rect, Rect) {
      match direction
      case Vertical =>
        var left := Share(width, ratio);
        (Rect(x, y, left, height), Rect(x + left, y, width - left, height))
      case Horizontal =>
        var top := Share(height, ratio);
        (Rect(x, y, width, top), Rect(x, y + top, width, height - top))
    }

    /** Whether a point is inside, the left and top edges included. */
    predicate Covers(px: real, py: real) {
      x <= px < x + width && y <= py < y + height
    }

    /** How far the area reaches along a split of `direction`. */
    function Extent(direction: Direction): real {
      if direction.Vertical? then width else height
    }

    /** Where along a split of `direction` the area lies: from where, and how far. */
    function Span(direction: Direction): (real, real) {
      (if direction.Vertical? then x else y, Extent(direction))
    }
  }

  /** A pane as laid out. */
  datatype PaneArea = PaneArea(active: TabId, members: seq<TabId>, rect: Rect)

  function CollectPanes(node: Node, area: Rect): (areas: seq<PaneArea>)
    ensures |areas| == |PanesOf(node)|
  {
    match node
    case Leaf(pane) => [PaneArea(pane.active, pane.members, area)]
    case Split(direction, _, ratio, first, second) =>
      var sides := area.Split(direction, ratio);
      CollectPanes(first, sides.0) + CollectPanes(second, sides.1)
  }

  /** Every pane is laid out, in tree order, with its own strip. */
  lemma {:induction false} AreasArePanes(node: Node, area: Rect, i: nat)
    requires i < |PanesOf(node)|
    ensures CollectPanes(node, area)[i].active == PanesOf(node)[i].active
    ensures CollectPanes(node, area)[i].members == PanesOf(node)[i].members
  {
    if node.Split? {
      var sides := area.Split(node.direction, node.ratio);
      if i < |PanesOf(node.first)| {
        AreasArePanes(node.first, sides.0, i);
      } else {
        AreasArePanes(node.second, sides.1, i - |PanesOf(node.first)|);
      }
    }
  }

  // ------------------------------------------------------------------------
  // Tiling
  // ------------------------------------------------------------------------

  /** How many of the areas a point is in. */
  function Covering(areas: seq<PaneArea>, px: real, py: real): nat {
    if areas == [] then 0 else (if areas[0].rect.Covers(px, py) then 1 else 0) + Covering(areas[1..], px, py)
  }

  lemma {:induction false} CoveringSum(a: seq<PaneArea>, b: seq<PaneArea>, px: real, py: real)
    ensures Covering(a + b, px, py) == Covering(a, px, py) + Covering(b, px, py)
  {
    if a == [] {
      assert a + b == b;
    } else {
      CoveringSum(a[1..], b, px, py);
      assert (a + b)[1..] == a[1..] + b;
    }
  }

  lemma ShareOf(length: real, ratio: real)
    requires length >= 0.0 && 0.0 <= ratio <= 1.0
    ensures 0.0 <= Share(length, ratio) <= length
  {
    assert length * (1.0 - ratio) >= 0.0 && length * ratio >= 0.0;
  }

  /** Each side keeps its area's extent across the split, and the two share it along. */
  lemma SidesAre(area: Rect, direction: Direction, ratio: real)
    ensures var sides := area.Split(direction, ratio);
      && sides.0.Span(direction) == (area.Span(direction).0, Share(area.Extent(direction), ratio))
      && sides.1.Span(direction) == (
        area.Span(direction).0 + Share(area.Extent(direction), ratio),
        area.Extent(direction) - Share(area.Extent(direction), ratio))
      && sides.0.Span(Across(direction)) == area.Span(Across(direction)) == sides.1.Span(Across(direction))
  {
  }

  function Across(direction: Direction): Direction {
    if direction.Vertical? then Horizontal else Vertical
  }

  lemma SidesAreAreas(area: Rect, direction: Direction, ratio: real)
    requires area.width >= 0.0 && area.height >= 0.0 && 0.0 <= ratio <= 1.0
    ensures var sides := area.Split(direction, ratio);
      && sides.0.width >= 0.0 && sides.0.height >= 0.0 && sides.1.width >= 0.0 && sides.1.height >= 0.0
  {
    hide Share;
    if direction.Vertical? {
      ShareOf(area.width, ratio);
    } else {
      ShareOf(area.height, ratio);
    }
  }

  /** The panes tile the window: each of its points is in exactly one of them, and no other point is in any. */
  lemma {:induction false} PanesTile(node: Node, area: Rect, px: real, py: real)
    requires RootSound(node) && area.width >= 0.0 && area.height >= 0.0
    ensures Covering(CollectPanes(node, area), px, py) == if area.Covers(px, py) then 1 else 0
  {
    if node.Split? {
      SidesAreAreas(area, node.direction, node.ratio);
      var sides := area.Split(node.direction, node.ratio);
      SoundIsRootSound(node.first);
      SoundIsRootSound(node.second);
      PanesTile(node.first, sides.0, px, py);
      PanesTile(node.second, sides.1, px, py);
      CoveringSum(CollectPanes(node.first, sides.0), CollectPanes(node.second, sides.1), px, py);
    } else {
      assert CollectPanes(node, area)[1..] == [];
    }
  }

  // ------------------------------------------------------------------------
  // Surgery
  // ------------------------------------------------------------------------

  /** Splitting or changing a pane leaves every other where it was, and lays out what replaces it in its own area. */
  lemma {:induction false} GraftStaysInside(node: Node, target: TabId, grafted: Node, area: Rect)
    requires Holding(PanesOf(node), target) < |PanesOf(node)|
    ensures Graft(node, target, grafted).Some?
    ensures var areas, i := CollectPanes(node, area), Holding(PanesOf(node), target);
      CollectPanes(Graft(node, target, grafted).value, area)
        == Splice(areas, i, CollectPanes(grafted, areas[i].rect))
  {
    hide Splice, Holding;
    if node.Leaf? {
      HoldingOne(node.pane, target);
      SpliceOne(CollectPanes(node, area)[0], CollectPanes(grafted, area));
    } else {
      var sides := area.Split(node.direction, node.ratio);
      var a, b := PanesOf(node.first), PanesOf(node.second);
      HoldingSum(a, b, target);
      GraftSplices(node.first, target, grafted);
      var i := Holding(a + b, target);
      var inFirst, inSecond := CollectPanes(node.first, sides.0), CollectPanes(node.second, sides.1);
      if Holding(a, target) < |a| {
        GraftStaysInside(node.first, target, grafted, sides.0);
        SpliceSum(inFirst, inSecond, i, CollectPanes(grafted, inFirst[i].rect));
      } else {
        GraftStaysInside(node.second, target, grafted, sides.1);
        SpliceSum(inFirst, inSecond, i, CollectPanes(grafted, inSecond[i - |a|].rect));
      }
    }
  }

  lemma LiftFirst<T>(a: seq<T>, b: seq<T>, lo: nat, hi: nat, mid: seq<T>)
    requires lo <= hi <= |a|
    ensures (a + b)[lo..hi] == a[lo..hi]
    ensures a[..lo] + mid + a[hi..] + b == (a + b)[..lo] + mid + (a + b)[hi..]
  {
  }

  lemma LiftSecond<T>(a: seq<T>, b: seq<T>, lo: nat, hi: nat, mid: seq<T>)
    requires lo <= hi <= |b|
    ensures (a + b)[|a| + lo..|a| + hi] == b[lo..hi]
    ensures a + (b[..lo] + mid + b[hi..]) == (a + b)[..|a| + lo] + mid + (a + b)[|a| + hi..]
  {
  }

  /** What stays of a parent losing the pane that holds `target`. */
  function Sibling(parent: Node, target: TabId): Node
    requires parent.Split?
  {
    if LeafHolds(parent.first, target) then parent.second else parent.first
  }

  lemma PanesOfSides(node: Node, area: Rect)
    requires node.Split?
    ensures var sides := area.Split(node.direction, node.ratio);
      CollectPanes(node, area) == CollectPanes(node.first, sides.0) + CollectPanes(node.second, sides.1)
  {
  }

  lemma CloseInSides(node: Node, target: TabId)
    requires node.Split?
    ensures CloseIn(node, target) ==
      if LeafHolds(node.first, target) then Some(node.second)
      else if LeafHolds(node.second, target) then Some(node.first)
      else if CloseIn(node.first, target).Some? then Some(node.(first := CloseIn(node.first, target).value))
      else if CloseIn(node.second, target).Some? then Some(node.(second := CloseIn(node.second, target).value))
      else None
  {
  }

  /** The areas from `lo` to `hi` were the closed pane's and its sibling's, the two sides of `parent`; after the close
      the sibling has the whole of their `hole`, and no pane outside it has moved. */
  ghost predicate FillsIn(node: Node, target: TabId, area: Rect, lo: nat, hi: nat, parent: Node, hole: Rect) {
    && CloseIn(node, target).Some? && parent.Split? && lo < hi <= |PanesOf(node)|
    && (LeafHolds(parent.first, target) || LeafHolds(parent.second, target))
    && CollectPanes(node, area)[lo..hi] == CollectPanes(parent, hole)
    && CollectPanes(CloseIn(node, target).value, area)
      == CollectPanes(node, area)[..lo] + CollectPanes(Sibling(parent, target), hole) + CollectPanes(node, area)[hi..]
  }

  lemma FillsInHere(node: Node, target: TabId, area: Rect)
    requires node.Split? && (LeafHolds(node.first, target) || LeafHolds(node.second, target))
    ensures FillsIn(node, target, area, 0, |PanesOf(node)|, node, area)
  {
    hide CollectPanes, LeafHolds, PanesOf;
    var areas := CollectPanes(node, area);
    var left := CollectPanes(Sibling(node, target), area);
    assert areas[0..|areas|] == areas && areas[..0] + left + areas[|areas|..] == left;
  }

  lemma FillsInFirst(node: Node, target: TabId, area: Rect, lo: nat, hi: nat, parent: Node, hole: Rect)
    requires node.Split? && !LeafHolds(node.first, target) && !LeafHolds(node.second, target)
    requires FillsIn(node.first, target, area.Split(node.direction, node.ratio).0, lo, hi, parent, hole)
    ensures FillsIn(node, target, area, lo, hi, parent, hole)
  {
    hide CollectPanes, LeafHolds, CloseIn, Rect.Split, Sibling;
    CloseInSides(node, target);
    PanesOfSides(node, area);
    PanesOfSides(CloseIn(node, target).value, area);
    var sides := area.Split(node.direction, node.ratio);
    var inFirst, inSecond := CollectPanes(node.first, sides.0), CollectPanes(node.second, sides.1);
    LiftFirst(inFirst, inSecond, lo, hi, CollectPanes(Sibling(parent, target), hole));
  }

  lemma FillsInSecond(node: Node, target: TabId, area: Rect, lo: nat, hi: nat, parent: Node, hole: Rect)
    requires node.Split? && !LeafHolds(node.first, target) && !LeafHolds(node.second, target)
    requires CloseIn(node.first, target).None?
    requires FillsIn(node.second, target, area.Split(node.direction, node.ratio).1, lo, hi, parent, hole)
    ensures FillsIn(node, target, area, |PanesOf(node.first)| + lo, |PanesOf(node.first)| + hi, parent, hole)
  {
    hide CollectPanes, LeafHolds, CloseIn, Rect.Split, Sibling;
    CloseInSides(node, target);
    PanesOfSides(node, area);
    PanesOfSides(CloseIn(node, target).value, area);
    var sides := area.Split(node.direction, node.ratio);
    var inFirst, inSecond := CollectPanes(node.first, sides.0), CollectPanes(node.second, sides.1);
    LiftSecond(inFirst, inSecond, lo, hi, CollectPanes(Sibling(parent, target), hole));
  }

  /** Closing a pane gives its parent's whole area to its sibling and moves no pane outside them. */
  lemma {:induction false} CloseFillsIn(node: Node, target: TabId, area: Rect)
    requires HeldByOne(PanesOf(node), target) && Holding(PanesOf(node), target) < |PanesOf(node)| && node.Split?
    ensures exists lo: nat, hi: nat, parent, hole :: FillsIn(node, target, area, lo, hi, parent, hole)
  {
    hide Holding, HeldByOne, FillsIn, CollectPanes, CloseIn, Rect.Split;
    if LeafHolds(node.first, target) || LeafHolds(node.second, target) {
      FillsInHere(node, target, area);
    } else {
      var sides := area.Split(node.direction, node.ratio);
      var a, b := PanesOf(node.first), PanesOf(node.second);
      HeldByOneParts(a, b, target);
      HoldingSum(a, b, target);
      LeafHoldsIt(node.first, target);
      LeafHoldsIt(node.second, target);
      if Holding(a, target) < |a| {
        CloseFillsIn(node.first, target, sides.0);
        var lo: nat, hi: nat, parent, hole :| FillsIn(node.first, target, sides.0, lo, hi, parent, hole);
        FillsInFirst(node, target, area, lo, hi, parent, hole);
      } else {
        CloseInTakes(node.first, target);
        CloseFillsIn(node.second, target, sides.1);
        var lo: nat, hi: nat, parent, hole :| FillsIn(node.second, target, sides.1, lo, hi, parent, hole);
        FillsInSecond(node, target, area, lo, hi, parent, hole);
      }
    }
  }

  // ------------------------------------------------------------------------
  // Balancing
  // ------------------------------------------------------------------------

  /** How many equal slots along `axis` a node claims: its sides add along their own split, and share across it. */
  function AxisWeight(node: Node, axis: Direction): (slots: nat)
    ensures slots >= 1
  {
    match node
    case Leaf(_) => 1
    case Split(direction, _, _, first, second) =>
      var a, b := AxisWeight(first, axis), AxisWeight(second, axis);
      if direction == axis then a + b else if a < b then b else a
  }

  function BalanceNode(node: Node): Node {
    match node
    case Leaf(_) => node
    case Split(direction, dock, _, first, second) =>
      var a, b := BalanceNode(first), BalanceNode(second);
      Split(direction, dock, EvenRatio(AxisWeight(a, direction), AxisWeight(b, direction)), a, b)
  }

  function EvenRatio(a: nat, b: nat): real
    requires a + b > 0
  {
    a as real / (a + b) as real
  }

  /** The dock keeps its height; only each side of it is balanced. */
  function Balance(root: Node): Node {
    if HasDock(root) then root.(first := BalanceNode(root.first), second := BalanceNode(root.second))
    else BalanceNode(root)
  }

  lemma EvenRatioIs(a: nat, b: nat)
    requires a >= 1 && b >= 1
    ensures 0.0 <= EvenRatio(a, b) <= 1.0
  {
  }

  lemma {:induction false} BalanceNodeKeeps(node: Node)
    ensures PanesOf(BalanceNode(node)) == PanesOf(node)
    ensures forall axis :: AxisWeight(BalanceNode(node), axis) == AxisWeight(node, axis)
    ensures Sound(node) ==> Sound(BalanceNode(node))
  {
    hide EvenRatio;
    if node.Split? {
      BalanceNodeKeeps(node.first);
      BalanceNodeKeeps(node.second);
      EvenRatioIs(AxisWeight(node.first, node.direction), AxisWeight(node.second, node.direction));
    }
  }

  /** What is balanced is so already. */
  lemma {:induction false} BalancedOnce(node: Node)
    ensures BalanceNode(BalanceNode(node)) == BalanceNode(node)
  {
    hide EvenRatio, AxisWeight;
    if node.Split? {
      var a, b := BalanceNode(node.first), BalanceNode(node.second);
      BalancedOnce(node.first);
      BalancedOnce(node.second);
      assert BalanceNode(a) == a && BalanceNode(b) == b;
    }
  }

  /** Whether balancing a window again changes nothing. */
  predicate Balanced(root: Node) {
    Balance(root) == root
  }

  lemma BalanceIsBalanced(root: Node)
    ensures Balanced(Balance(root))
  {
    hide EvenRatio, AxisWeight;
    BalancedOnce(root);
    if root.Split? {
      BalancedOnce(root.first);
      BalancedOnce(root.second);
    }
  }

  /** Balancing moves no tab and leaves the dock its height. */
  lemma BalanceKeeps(root: Node)
    requires RootSound(root)
    ensures RootSound(Balance(root)) && StripsOf(Balance(root)) == StripsOf(root)
    ensures HasDock(root) ==> HasDock(Balance(root)) && Balance(root).ratio == root.ratio
  {
    BalanceNodeKeeps(root);
    if root.Split? {
      BalanceNodeKeeps(root.first);
      BalanceNodeKeeps(root.second);
      EvenRatioIs(AxisWeight(root.first, root.direction), AxisWeight(root.second, root.direction));
    }
  }

  /** So many slots of one length. */
  function Slots(length: real, slots: nat): real {
    length * slots as real
  }

  lemma Distribute(x: real, y: real, z: real)
    ensures (x - y) * z == x * z - y * z
  {
  }

  /** Two sides balanced along their split get shares in the ratio of their slots. */
  lemma EvenShare(length: real, a: nat, b: nat)
    requires a >= 1 && b >= 1
    ensures Slots(Share(length, EvenRatio(a, b)), a + b) == Slots(length, a)
    ensures Slots(length - Share(length, EvenRatio(a, b)), a + b) == Slots(length, b)
  {
    var w := (a + b) as real;
    var share := Share(length, EvenRatio(a, b));
    assert EvenRatio(a, b) * w == a as real;
    assert share * w == length * (EvenRatio(a, b) * w);
    Distribute(length, share, w);
    Distribute(w, a as real, length);
  }

  lemma DivideOut(x: real, y: real, w: real)
    requires w >= 1.0
    ensures x * w >= y * w ==> x >= y
    ensures x * w == y * w ==> x == y
  {
    Distribute(x, y, w);
    assert x < y ==> (x - y) * w < 0.0;
    assert x > y ==> (x - y) * w > 0.0;
  }

  /** Slots that make up a side's even share make up the whole when there are as many as the whole claims. */
  lemma SlotsAlong(length: real, side: real, slot: real, w: nat, v: nat)
    requires w >= 1 && Slots(side, w + v) == Slots(length, w)
    ensures Slots(slot, w) >= side ==> Slots(slot, w + v) >= length
    ensures Slots(slot, w) == side ==> Slots(slot, w + v) == length
  {
    var gain, whole := slot * w as real - side, (w + v) as real;
    Distribute(slot * w as real, side, whole);
    assert (slot * whole) * w as real == (slot * w as real) * whole;
    assert gain >= 0.0 ==> gain * whole >= 0.0;
    DivideOut(slot * whole, length, w as real);
  }

  lemma SlotsAcross(slot: real, w: nat, v: nat)
    requires slot >= 0.0 && w <= v
    ensures Slots(slot, w) <= Slots(slot, v)
  {
    Distribute(v as real, w as real, slot);
    assert (v as real - w as real) * slot >= 0.0;
  }

  lemma OneSlot(length: real)
    ensures Slots(length, 1) == length
  {
  }

  /** Whether every split of a node runs along `axis`. */
  predicate OneWay(node: Node, axis: Direction) {
    node.Split? ==> node.direction == axis && OneWay(node.first, axis) && OneWay(node.second, axis)
  }

  lemma {:induction false} OneWayWeight(node: Node, axis: Direction)
    ensures OneWay(node, axis) ==> AxisWeight(node, axis) == |PanesOf(node)|
  {
    if node.Split? {
      OneWayWeight(node.first, axis);
      OneWayWeight(node.second, axis);
    }
  }

  /** A pane's reach, at least the even share of its node's extent. */
  predicate Reaches(node: Node, axis: Direction, extent: real, reach: real) {
    && reach >= 0.0
    && Slots(reach, AxisWeight(node, axis)) >= extent
    && (OneWay(node, axis) ==> Slots(reach, AxisWeight(node, axis)) == extent)
  }

  /** A pane that reaches its even share of a side reaches that of the whole. */
  lemma SideReaches(node: Node, inFirst: bool, axis: Direction, extent: real, sideExtent: real, reach: real)
    requires node.Split?
    requires var side := if inFirst then node.first else node.second;
      && Reaches(side, axis, sideExtent, reach)
      && if node.direction != axis then sideExtent == extent
         else Slots(sideExtent, AxisWeight(node, axis)) == Slots(extent, AxisWeight(side, axis))
    ensures Reaches(node, axis, extent, reach)
  {
    hide Slots;
    var side := if inFirst then node.first else node.second;
    var other := if inFirst then node.second else node.first;
    var w, v := AxisWeight(side, axis), AxisWeight(other, axis);
    if node.direction == axis {
      SlotsAlong(extent, sideExtent, reach, w, v);
    } else {
      SlotsAcross(reach, w, AxisWeight(node, axis));
    }
  }

  /** What a balanced split gives its sides along `axis`. */
  lemma SidesReach(node: Node, area: Rect, axis: Direction)
    requires node.Split? && area.width >= 0.0 && area.height >= 0.0
    ensures area.Extent(axis) >= 0.0
    ensures
      var d := node.direction;
      var w, v := AxisWeight(node.first, d), AxisWeight(node.second, d);
      var sides := area.Split(d, EvenRatio(w, v));
      && sides.0.width >= 0.0 && sides.0.height >= 0.0 && sides.1.width >= 0.0 && sides.1.height >= 0.0
      && if d != axis then sides.0.Extent(axis) == area.Extent(axis) == sides.1.Extent(axis)
         else
           && Slots(sides.0.Extent(axis), w + v) == Slots(area.Extent(axis), w)
           && Slots(sides.1.Extent(axis), w + v) == Slots(area.Extent(axis), v)
  {
    hide Share, EvenRatio, Slots;
    var d := node.direction;
    var w, v := AxisWeight(node.first, d), AxisWeight(node.second, d);
    EvenRatioIs(w, v);
    SidesAreAreas(area, d, EvenRatio(w, v));
    SidesAre(area, d, EvenRatio(w, v));
    EvenShare(area.Extent(d), w, v);
  }

  lemma {:induction false} PanesReach(node: Node, area: Rect, axis: Direction, i: nat)
    requires area.width >= 0.0 && area.height >= 0.0 && i < |PanesOf(node)|
    ensures |CollectPanes(BalanceNode(node), area)| == |PanesOf(node)|
    ensures Reaches(node, axis, area.Extent(axis), CollectPanes(BalanceNode(node), area)[i].rect.Extent(axis))
  {
    hide EvenRatio, Slots, Rect.Split, Rect.Extent;
    BalanceNodeKeeps(node);
    if node.Leaf? {
      OneSlot(area.Extent(axis));
      ExtentIs(area, axis);
    } else {
      BalanceNodeKeeps(node.first);
      BalanceNodeKeeps(node.second);
      SidesReach(node, area, axis);
      var sides := area.Split(
        node.direction,
        EvenRatio(AxisWeight(node.first, node.direction), AxisWeight(node.second, node.direction)));
      var k := |PanesOf(node.first)|;
      if i < k {
        PanesReach(node.first, sides.0, axis, i);
        SideReaches(node, true, axis, area.Extent(axis), sides.0.Extent(axis),
                    CollectPanes(BalanceNode(node.first), sides.0)[i].rect.Extent(axis));
      } else {
        PanesReach(node.second, sides.1, axis, i - k);
        SideReaches(node, false, axis, area.Extent(axis), sides.1.Extent(axis),
                    CollectPanes(BalanceNode(node.second), sides.1)[i - k].rect.Extent(axis));
      }
    }
  }

  lemma ExtentIs(area: Rect, axis: Direction)
    requires area.width >= 0.0 && area.height >= 0.0
    ensures area.Extent(axis) >= 0.0
  {
  }

  /** After balancing, every pane reaches at least its even share of the area along either axis, and just that along a
      chain of splits of one direction, where there is a slot for each pane. */
  lemma BalancedShares(node: Node, area: Rect, axis: Direction, i: nat)
    requires area.width >= 0.0 && area.height >= 0.0 && i < |PanesOf(node)|
    ensures |CollectPanes(BalanceNode(node), area)| == |PanesOf(node)|
    ensures var reach := CollectPanes(BalanceNode(node), area)[i].rect.Extent(axis);
      && reach * AxisWeight(node, axis) as real >= area.Extent(axis)
      && (OneWay(node, axis) ==> reach * |PanesOf(node)| as real == area.Extent(axis))
  {
    hide AxisWeight, BalanceNode, CollectPanes, PanesOf, OneWay, Rect.Extent;
    PanesReach(node, area, axis, i);
    OneWayWeight(node, axis);
  }

  // ------------------------------------------------------------------------
  // Splitting, then balancing
  // ------------------------------------------------------------------------

  /** Where along `axis` every pane of a node lies, in tree order. */
  function Spans(node: Node, axis: Direction, span: (real, real)): (spans: seq<(real, real)>)
    ensures |spans| == |PanesOf(node)|
  {
    match node
    case Leaf(_) => [span]
    case Split(direction, _, ratio, first, second) =>
      if direction != axis then Spans(first, axis, span) + Spans(second, axis, span)
      else
        var share := Share(span.1, ratio);
        Spans(first, axis, (span.0, share)) + Spans(second, axis, (span.0 + share, span.1 - share))
  }

  lemma {:induction false} SpansAreWhere(node: Node, axis: Direction, area: Rect, i: nat)
    requires i < |PanesOf(node)|
    ensures CollectPanes(node, area)[i].rect.Span(axis) == Spans(node, axis, area.Span(axis))[i]
  {
    hide Share, Rect.Split, Rect.Span;
    if node.Split? {
      SidesAre(area, node.direction, node.ratio);
      ExtentIsSpan(area, axis);
      var sides := area.Split(node.direction, node.ratio);
      if i < |PanesOf(node.first)| {
        SpansAreWhere(node.first, axis, sides.0, i);
      } else {
        SpansAreWhere(node.second, axis, sides.1, i - |PanesOf(node.first)|);
      }
    }
  }

  lemma ExtentIsSpan(area: Rect, axis: Direction)
    ensures area.Span(axis).1 == area.Extent(axis)
  {
  }

  /** Where along `axis` the sides of a balanced split lie. */
  function SideSpans(node: Node, axis: Direction, span: (real, real)): ((real, real), (real, real))
    requires node.Split?
  {
    if node.direction != axis then (span, span)
    else
      var share := Share(span.1, EvenRatio(AxisWeight(node.first, axis), AxisWeight(node.second, axis)));
      ((span.0, share), (span.0 + share, span.1 - share))
  }

  /** The panes of a balanced node, along `axis`. */
  function BalancedSpans(node: Node, axis: Direction, span: (real, real)): seq<(real, real)> {
    Spans(BalanceNode(node), axis, span)
  }

  lemma BalanceNodeOfSides(node: Node)
    ensures node.Leaf? ==> BalanceNode(node) == node
    ensures node.Split? ==>
      BalanceNode(node) == Split(
        node.direction, node.dock,
        EvenRatio(AxisWeight(node.first, node.direction), AxisWeight(node.second, node.direction)),
        BalanceNode(node.first), BalanceNode(node.second))
  {
    hide EvenRatio;
    if node.Split? {
      BalanceNodeKeeps(node.first);
      BalanceNodeKeeps(node.second);
    }
  }

  lemma SpansOfSides(node: Node, axis: Direction, span: (real, real))
    ensures node.Leaf? ==> Spans(node, axis, span) == [span]
    ensures node.Split? && node.direction != axis ==>
      Spans(node, axis, span) == Spans(node.first, axis, span) + Spans(node.second, axis, span)
    ensures node.Split? && node.direction == axis ==>
      var share := Share(span.1, node.ratio);
      Spans(node, axis, span)
        == Spans(node.first, axis, (span.0, share)) + Spans(node.second, axis, (span.0 + share, span.1 - share))
  {
    hide Share;
  }

  lemma BalancedSpansAre(node: Node, axis: Direction, span: (real, real))
    ensures BalancedSpans(node, axis, span) == Spans(BalanceNode(node), axis, span)
  {
  }

  lemma BalancedSpansOfSides(node: Node, axis: Direction, span: (real, real))
    ensures |BalancedSpans(node, axis, span)| == |PanesOf(node)|
    ensures node.Leaf? ==> BalancedSpans(node, axis, span) == [span]
    ensures node.Split? ==>
      var sides := SideSpans(node, axis, span);
      BalancedSpans(node, axis, span)
        == BalancedSpans(node.first, axis, sides.0) + BalancedSpans(node.second, axis, sides.1)
  {
    hide EvenRatio, Share, BalanceNode, AxisWeight, Spans, PanesOf, BalancedSpans;
    BalanceNodeKeeps(node);
    BalanceNodeOfSides(node);
    BalancedSpansAre(node, axis, span);
    SpansOfSides(BalanceNode(node), axis, span);
    if node.Split? {
      var sides := SideSpans(node, axis, span);
      BalancedSpansAre(node.first, axis, sides.0);
      BalancedSpansAre(node.second, axis, sides.1);
    }
  }

  lemma GraftOfSides(node: Node, target: TabId, grafted: Node)
    ensures node.Leaf? && target in node.pane.members ==> Graft(node, target, grafted) == Some(grafted)
    ensures node.Split? && Graft(node.first, target, grafted).Some? ==>
      Graft(node, target, grafted) == Some(node.(first := Graft(node.first, target, grafted).value))
    ensures node.Split? && Graft(node.first, target, grafted).None? && Graft(node.second, target, grafted).Some? ==>
      Graft(node, target, grafted) == Some(node.(second := Graft(node.second, target, grafted).value))
  {
  }

  lemma {:induction false} GraftKeepsWeight(node: Node, target: TabId, grafted: Node, axis: Direction)
    requires AxisWeight(grafted, axis) == 1
    ensures Graft(node, target, grafted).Some? ==>
      AxisWeight(Graft(node, target, grafted).value, axis) == AxisWeight(node, axis)
  {
    if node.Split? {
      GraftKeepsWeight(node.first, target, grafted, axis);
      GraftKeepsWeight(node.second, target, grafted, axis);
    }
  }

  /** A pane grafted in its place that claims one slot along `axis`, as the pane did, changes no other's share of it. */
  lemma {:induction false} GraftAcross(node: Node, target: TabId, grafted: Node, axis: Direction, span: (real, real))
    requires Holding(PanesOf(node), target) < |PanesOf(node)| && AxisWeight(grafted, axis) == 1
    ensures Graft(node, target, grafted).Some?
    ensures var spans, i := BalancedSpans(node, axis, span), Holding(PanesOf(node), target);
      && i < |spans|
      && BalancedSpans(Graft(node, target, grafted).value, axis, span)
        == Splice(spans, i, BalancedSpans(grafted, axis, spans[i]))
  {
    hide Splice, Holding, EvenRatio, Share, BalancedSpans, AxisWeight, Graft, PanesOf;
    GraftOfSides(node, target, grafted);
    BalancedSpansOfSides(node, axis, span);
    if node.Leaf? {
      SpliceOnLeaf(node, target, span, BalancedSpans(grafted, axis, span));
    } else {
      var a, b := PanesOf(node.first), PanesOf(node.second);
      PanesOfSplit(node);
      HoldingSum(a, b, target);
      GraftSplices(node.first, target, grafted);
      var sides := SideSpans(node, axis, span);
      var inFirst, inSecond := BalancedSpans(node.first, axis, sides.0), BalancedSpans(node.second, axis, sides.1);
      BalancedSpansOfSides(node.first, axis, sides.0);
      var i := Holding(a + b, target);
      if Holding(a, target) < |a| {
        GraftKeepsWeight(node.first, target, grafted, axis);
        GraftAcross(node.first, target, grafted, axis, sides.0);
        SpliceSum(inFirst, inSecond, i, BalancedSpans(grafted, axis, inFirst[i]));
      } else {
        GraftKeepsWeight(node.second, target, grafted, axis);
        GraftAcross(node.second, target, grafted, axis, sides.1);
        SpliceSum(inFirst, inSecond, i, BalancedSpans(grafted, axis, inSecond[i - |a|]));
      }
      BalancedSpansOfSides(Graft(node, target, grafted).value, axis, span);
    }
  }

  lemma SpliceOnLeaf<T>(node: Node, target: TabId, x: T, xs: seq<T>)
    requires node.Leaf? && Holding(PanesOf(node), target) < |PanesOf(node)|
    ensures Holding(PanesOf(node), target) == 0 && target in node.pane.members && Splice([x], 0, xs) == xs
  {
    HoldingOne(node.pane, target);
    SpliceOne(x, xs);
  }

  /** Splitting a pane and balancing resizes nothing across the split: every other pane lies where it did along that
      axis, and the new pane where the one split does. */
  lemma SplitResizesAlongOnly(
    node: Node, target: TabId, direction: Direction, ratio: real, newTab: TabId, span: (real, real))
    requires Holding(PanesOf(node), target) < |PanesOf(node)|
    ensures SplitAt(node, target, direction, ratio, newTab).Some?
    ensures var spans, i := BalancedSpans(node, Across(direction), span), Holding(PanesOf(node), target);
      && i < |spans|
      && BalancedSpans(SplitAt(node, target, direction, ratio, newTab).value, Across(direction), span)
        == spans[..i] + [spans[i], spans[i]] + spans[i + 1..]
  {
    hide Holding, BalancedSpans;
    SplitsAreGrafts(node, target, direction, Down, ratio, newTab);
    FindPaneIsFirst(node, target);
    var there := FindPane(node, target).value;
    var grafted := Split(direction, false, ratio, Leaf(there), Leaf(Only(newTab)));
    GraftAcross(node, target, grafted, Across(direction), span);
    var spans, i := BalancedSpans(node, Across(direction), span), Holding(PanesOf(node), target);
    BalancedSpansOfSides(grafted, Across(direction), spans[i]);
    BalancedSpansOfSides(Leaf(there), Across(direction), spans[i]);
    BalancedSpansOfSides(Leaf(Only(newTab)), Across(direction), spans[i]);
  }

  // ------------------------------------------------------------------------
  // What a split resizes along its own axis
  // ------------------------------------------------------------------------

  /** How many slots along `axis` a node would claim were the pane holding `target` to claim so many. */
  function SlotsWith(node: Node, target: TabId, axis: Direction, claims: nat): nat {
    match node
    case Leaf(_) => claims
    case Split(direction, _, _, first, second) =>
      var inFirst := Holding(PanesOf(first), target) < |PanesOf(first)|;
      var a := if inFirst then SlotsWith(first, target, axis, claims) else AxisWeight(first, axis);
      var b := if inFirst then AxisWeight(second, axis) else SlotsWith(second, target, axis, claims);
      if direction == axis then a + b else if a < b then b else a
  }

  /** The side of a split the pane holding `target` is on. */
  function SideOf(node: Node, target: TabId): Node
    requires node.Split?
  {
    if Holding(PanesOf(node.first), target) < |PanesOf(node.first)| then node.first else node.second
  }

  /** Whether some split along `axis` around the pane holding `target` has a side that would then claim more or fewer
      slots than it does. */
  predicate Reweighed(node: Node, target: TabId, axis: Direction, claims: nat) {
    node.Split?
    && var side := SideOf(node, target);
       || (node.direction == axis && SlotsWith(side, target, axis, claims) != AxisWeight(side, axis))
       || Reweighed(side, target, axis, claims)
  }

  lemma {:induction false} SlotsAreGrafted(node: Node, target: TabId, grafted: Node, axis: Direction)
    requires Holding(PanesOf(node), target) < |PanesOf(node)|
    ensures Graft(node, target, grafted).Some?
    ensures AxisWeight(Graft(node, target, grafted).value, axis)
      == SlotsWith(node, target, axis, AxisWeight(grafted, axis))
  {
    hide Holding;
    if node.Leaf? {
      HoldingOne(node.pane, target);
    } else {
      HoldingSum(PanesOf(node.first), PanesOf(node.second), target);
      GraftSplices(node.first, target, grafted);
      if Holding(PanesOf(node.first), target) < |PanesOf(node.first)| {
        SlotsAreGrafted(node.first, target, grafted, axis);
      } else {
        SlotsAreGrafted(node.second, target, grafted, axis);
      }
    }
  }

  /** Every pane but the one at `i` is where it was, that one replaced by as many as there are more. */
  ghost predicate OthersStay<T>(before: seq<T>, after: seq<T>, i: nat) {
    && i < |before| <= |after| + 1
    && i <= |after| && after[..i] == before[..i]
    && after[|after| - (|before| - i - 1)..] == before[i + 1..]
  }

  lemma OthersInFirst<T>(a: seq<T>, b: seq<T>, a': seq<T>, b': seq<T>, i: nat)
    requires i < |a| <= |a'| && |b| == |b'|
    ensures OthersStay(a + b, a' + b', i) <==> OthersStay(a, a', i) && b == b'
  {
    var n := |a'| - (|a| - i - 1);
    assert (a + b)[..i] == a[..i] && (a' + b')[..i] == a'[..i];
    assert (a + b)[i + 1..] == a[i + 1..] + b && (a' + b')[n..] == a'[n..] + b';
    SumsAlike(a[i + 1..], b, a'[n..], b');
  }

  lemma OthersInSecond<T>(a: seq<T>, b: seq<T>, a': seq<T>, b': seq<T>, i: nat)
    requires i < |b| <= |b'| && |a| == |a'|
    ensures OthersStay(a + b, a' + b', |a| + i) <==> a == a' && OthersStay(b, b', i)
  {
    var n := |b'| - (|b| - i - 1);
    assert (a + b)[..|a| + i] == a + b[..i] && (a' + b')[..|a| + i] == a' + b'[..i];
    assert (a + b)[|a| + i + 1..] == b[i + 1..] && (a' + b')[|a| + n..] == b'[n..];
    SumsAlike(a, b[..i], a', b'[..i]);
  }

  lemma SumsAlike<T>(a: seq<T>, b: seq<T>, a': seq<T>, b': seq<T>)
    requires |a| == |a'|
    ensures a + b == a' + b' <==> a == a' && b == b'
  {
    if a + b == a' + b' {
      assert a == (a + b)[..|a|] && a' == (a' + b')[..|a|];
      assert b == (a + b)[|a|..] && b' == (a' + b')[|a|..];
    }
  }

  /** Balanced panes fill their span from end to end. */
  lemma {:induction false} SpanFilled(node: Node, axis: Direction, span: (real, real))
    ensures var spans := BalancedSpans(node, axis, span);
      && |spans| > 0 && spans[0].0 == span.0
      && spans[|spans| - 1].0 + spans[|spans| - 1].1 == span.0 + span.1
  {
    hide EvenRatio, Share, BalancedSpans, AxisWeight;
    BalancedSpansOfSides(node, axis, span);
    if node.Split? {
      var sides := SideSpans(node, axis, span);
      SpanFilled(node.first, axis, sides.0);
      SpanFilled(node.second, axis, sides.1);
    }
  }

  lemma SameSpansSameSpan(node: Node, axis: Direction, a: (real, real), b: (real, real))
    requires BalancedSpans(node, axis, a) == BalancedSpans(node, axis, b)
    ensures a.0 == b.0 && a.1 == b.1
  {
    hide BalancedSpans;
    SpanFilled(node, axis, a);
    SpanFilled(node, axis, b);
  }

  lemma RatioTells(a: nat, a': nat, b: nat)
    requires a >= 1 && a' >= 1 && b >= 1
    ensures EvenRatio(a, b) == EvenRatio(a', b) ==> a == a'
    ensures EvenRatio(b, a) == EvenRatio(b, a') ==> a == a'
  {
    var x, x', y := a as real, a' as real, b as real;
    if EvenRatio(a, b) == EvenRatio(a', b) {
      assert x * (x' + y) == x' * (x + y);
      assert x * y == x' * y;
    }
    if EvenRatio(b, a) == EvenRatio(b, a') {
      assert y * (y + x') == y * (y + x);
      assert y * x == y * x';
    }
  }

  lemma ShareTells(length: real, r: real, r': real)
    requires length > 0.0
    ensures Share(length, r) == Share(length, r') ==> r == r'
  {
    if length * r == length * r' {
      assert length * (r - r') == 0.0;
    }
  }

  /** Another number of slots on one side moves the divider. */
  lemma SharesTell(length: real, a: nat, b: nat, a': nat, b': nat)
    requires length > 0.0 && a >= 1 && b >= 1 && a' >= 1 && b' >= 1
    requires (a != a' && b == b') || (a == a' && b != b')
    ensures Share(length, EvenRatio(a, b)) != Share(length, EvenRatio(a', b'))
  {
    hide EvenRatio, Share;
    ShareTells(length, EvenRatio(a, b), EvenRatio(a', b'));
    if b == b' {
      RatioTells(a, a', b);
    } else {
      RatioTells(b, b', a);
    }
  }

  lemma SidesPositive(node: Node, axis: Direction, span: (real, real))
    requires node.Split? && span.1 > 0.0
    ensures SideSpans(node, axis, span).0.1 > 0.0 && SideSpans(node, axis, span).1.1 > 0.0
  {
    var a, b := AxisWeight(node.first, axis), AxisWeight(node.second, axis);
    RatioInside(a, b);
    hide EvenRatio;
    var r := EvenRatio(a, b);
    assert span.1 * r > 0.0 && span.1 * (1.0 - r) > 0.0;
    assert span.1 * (1.0 - r) == span.1 - span.1 * r;
  }

  lemma RatioInside(a: nat, b: nat)
    requires a >= 1 && b >= 1
    ensures 0.0 < EvenRatio(a, b) < 1.0
  {
    PartOfWhole(a as real, (a + b) as real);
  }

  lemma PartOfWhole(part: real, whole: real)
    requires 0.0 < part < whole
    ensures 0.0 < part / whole < 1.0
  {
    var ratio := part / whole;
    assert ratio * whole == part;
    assert ratio >= 1.0 ==> (ratio - 1.0) * whole >= 0.0;
    assert ratio <= 0.0 ==> (-ratio) * whole >= 0.0;
  }

  /** A pane replaced where it was, with all balanced again: every other pane stays where it was along an axis exactly
      when no split along it has a side that claims another number of slots. */
  lemma {:induction false} GraftAlongIff(node: Node, target: TabId, grafted: Node, axis: Direction, span: (real, real))
    requires Holding(PanesOf(node), target) < |PanesOf(node)| && span.1 > 0.0
    ensures Graft(node, target, grafted).Some?
    ensures OthersStay(BalancedSpans(node, axis, span), BalancedSpans(Graft(node, target, grafted).value, axis, span),
                       Holding(PanesOf(node), target))
      <==> !Reweighed(node, target, axis, AxisWeight(grafted, axis))
  {
    hide Holding, EvenRatio, Share, BalancedSpans, AxisWeight, Graft, SlotsWith, OthersStay, PanesOf, SideSpans;
    GraftOfSides(node, target, grafted);
    BalancedSpansOfSides(node, axis, span);
    if node.Leaf? {
      GraftOnLeaf(node, target, grafted, axis, span);
    } else {
      var a, b := PanesOf(node.first), PanesOf(node.second);
      PanesOfSplit(node);
      HoldingSum(a, b, target);
      GraftSplices(node.first, target, grafted);
      var sides := SideSpans(node, axis, span);
      SidesPositive(node, axis, span);
      BalancedSpansOfSides(node.first, axis, sides.0);
      BalancedSpansOfSides(node.second, axis, sides.1);
      if Holding(a, target) < |a| {
        GraftAlongIff(node.first, target, grafted, axis, sides.0);
        GraftInFirst(node, target, Graft(node.first, target, grafted).value, grafted, axis, span);
      } else {
        GraftAlongIff(node.second, target, grafted, axis, sides.1);
        GraftInSecond(node, target, Graft(node.second, target, grafted).value, grafted, axis, span);
      }
    }
  }

  lemma PanesOfSplit(node: Node)
    requires node.Split?
    ensures PanesOf(node) == PanesOf(node.first) + PanesOf(node.second)
  {
  }

  lemma GraftInFirst(node: Node, target: TabId, changed: Node, grafted: Node, axis: Direction, span: (real, real))
    requires node.Split? && span.1 > 0.0 && Holding(PanesOf(node.first), target) < |PanesOf(node.first)|
    requires Graft(node.first, target, grafted) == Some(changed)
    ensures
      var i, sides := Holding(PanesOf(node.first), target), SideSpans(node, axis, span);
      OthersStay(BalancedSpans(node, axis, span), BalancedSpans(node.(first := changed), axis, span), i)
      <==> && OthersStay(BalancedSpans(node.first, axis, sides.0), BalancedSpans(changed, axis, sides.0), i)
           && (node.direction == axis ==>
                 SlotsWith(node.first, target, axis, AxisWeight(grafted, axis)) == AxisWeight(node.first, axis))
  {
    hide Holding, EvenRatio, Share, BalancedSpans, AxisWeight, Graft, SlotsWith, OthersStay, PanesOf;
    var after := node.(first := changed);
    var sides, moved := SideSpans(node, axis, span), SideSpans(after, axis, span);
    SlotsAreGrafted(node.first, target, grafted, axis);
    GrownPanes(node.first, target, grafted);
    BalancedSpansOfSides(node, axis, span);
    BalancedSpansOfSides(after, axis, span);
    BalancedSpansOfSides(node.first, axis, sides.0);
    BalancedSpansOfSides(changed, axis, moved.0);
    BalancedSpansOfSides(node.second, axis, sides.1);
    BalancedSpansOfSides(node.second, axis, moved.1);
    OthersInFirst(BalancedSpans(node.first, axis, sides.0), BalancedSpans(node.second, axis, sides.1),
                  BalancedSpans(changed, axis, moved.0), BalancedSpans(node.second, axis, moved.1),
                  Holding(PanesOf(node.first), target));
    if node.direction == axis && AxisWeight(changed, axis) != AxisWeight(node.first, axis) {
      SharesTell(span.1, AxisWeight(node.first, axis), AxisWeight(node.second, axis), AxisWeight(changed, axis),
                 AxisWeight(node.second, axis));
      if BalancedSpans(node.second, axis, sides.1) == BalancedSpans(node.second, axis, moved.1) {
        SameSpansSameSpan(node.second, axis, sides.1, moved.1);
      }
    }
  }

  lemma GraftInSecond(node: Node, target: TabId, changed: Node, grafted: Node, axis: Direction, span: (real, real))
    requires node.Split? && span.1 > 0.0 && Holding(PanesOf(node.second), target) < |PanesOf(node.second)|
    requires Graft(node.second, target, grafted) == Some(changed)
    ensures
      var i, sides := Holding(PanesOf(node.second), target), SideSpans(node, axis, span);
      OthersStay(BalancedSpans(node, axis, span), BalancedSpans(node.(second := changed), axis, span),
                 |PanesOf(node.first)| + i)
      <==> && OthersStay(BalancedSpans(node.second, axis, sides.1), BalancedSpans(changed, axis, sides.1), i)
           && (node.direction == axis ==>
                 SlotsWith(node.second, target, axis, AxisWeight(grafted, axis)) == AxisWeight(node.second, axis))
  {
    hide Holding, EvenRatio, Share, BalancedSpans, AxisWeight, Graft, SlotsWith, OthersStay, PanesOf;
    var after := node.(second := changed);
    var sides, moved := SideSpans(node, axis, span), SideSpans(after, axis, span);
    SlotsAreGrafted(node.second, target, grafted, axis);
    GrownPanes(node.second, target, grafted);
    BalancedSpansOfSides(node, axis, span);
    BalancedSpansOfSides(after, axis, span);
    BalancedSpansOfSides(node.second, axis, sides.1);
    BalancedSpansOfSides(changed, axis, moved.1);
    BalancedSpansOfSides(node.first, axis, sides.0);
    BalancedSpansOfSides(node.first, axis, moved.0);
    OthersInSecond(BalancedSpans(node.first, axis, sides.0), BalancedSpans(node.second, axis, sides.1),
                   BalancedSpans(node.first, axis, moved.0), BalancedSpans(changed, axis, moved.1),
                   Holding(PanesOf(node.second), target));
    if node.direction == axis && AxisWeight(changed, axis) != AxisWeight(node.second, axis) {
      SharesTell(span.1, AxisWeight(node.first, axis), AxisWeight(node.second, axis), AxisWeight(node.first, axis),
                 AxisWeight(changed, axis));
      if BalancedSpans(node.first, axis, sides.0) == BalancedSpans(node.first, axis, moved.0) {
        SameSpansSameSpan(node.first, axis, sides.0, moved.0);
      }
    }
  }

  lemma GrownPanes(node: Node, target: TabId, grafted: Node)
    requires Holding(PanesOf(node), target) < |PanesOf(node)|
    ensures Graft(node, target, grafted).Some? && |PanesOf(Graft(node, target, grafted).value)| >= |PanesOf(node)|
  {
    hide Holding, Graft;
    GraftSplices(node, target, grafted);
    SomePanes(grafted);
  }

  lemma {:induction false} SomePanes(node: Node)
    ensures |PanesOf(node)| >= 1
  {
    if node.Split? {
      SomePanes(node.first);
      SomePanes(node.second);
    }
  }

  lemma GraftOnLeaf(node: Node, target: TabId, grafted: Node, axis: Direction, span: (real, real))
    requires node.Leaf? && Holding(PanesOf(node), target) < |PanesOf(node)|
    ensures Graft(node, target, grafted) == Some(grafted)
    ensures OthersStay(BalancedSpans(node, axis, span), BalancedSpans(grafted, axis, span), 0)
    ensures Holding(PanesOf(node), target) == 0
  {
    hide BalancedSpans, Holding;
    HoldingOne(node.pane, target);
    BalancedSpansOfSides(node, axis, span);
    SpanFilled(grafted, axis, span);
  }

  /** Splitting a pane and balancing leaves every other pane where it was along the split too exactly when no split
      around it that runs the same way has a side that claims more slots with the pane counted twice. */
  lemma SplitResizesAlongIff(
    node: Node, target: TabId, direction: Direction, ratio: real, newTab: TabId, span: (real, real))
    requires Holding(PanesOf(node), target) < |PanesOf(node)| && span.1 > 0.0
    ensures SplitAt(node, target, direction, ratio, newTab).Some?
    ensures
      OthersStay(BalancedSpans(node, direction, span),
                 BalancedSpans(SplitAt(node, target, direction, ratio, newTab).value, direction, span),
                 Holding(PanesOf(node), target))
      <==> !Reweighed(node, target, direction, 2)
  {
    hide Holding, BalancedSpans, OthersStay, Reweighed, Graft;
    SplitsAreGrafts(node, target, direction, Down, ratio, newTab);
    FindPaneIsFirst(node, target);
    var there := FindPane(node, target).value;
    var grafted := Split(direction, false, ratio, Leaf(there), Leaf(Only(newTab)));
    assert AxisWeight(grafted, direction) == 2;
    GraftAlongIff(node, target, grafted, direction, span);
  }

  /** Two stacked panes beside a third: splitting one of the two side by side widens the other. */
  lemma SplitWidensSibling(a: TabId, b: TabId, c: TabId, newTab: TabId)
    requires a != b && a != c
    ensures
      var stack := Split(Horizontal, false, 0.5, Leaf(Only(a)), Leaf(Only(b)));
      var node := Split(Vertical, false, 0.5, stack, Leaf(Only(c)));
      var after := SplitAt(node, a, Vertical, 0.5, newTab);
      && after.Some? && |PanesOf(node)| == 3 && |PanesOf(after.value)| == 4
      && PanesOf(node)[1] == PanesOf(after.value)[2] == Only(b)
      && var before := BalancedSpans(node, Vertical, (0.0, 6.0));
         var balanced := BalancedSpans(after.value, Vertical, (0.0, 6.0));
      && |before| == 3 && before[1] == (0.0, 3.0)
      && |balanced| == 4 && balanced[2] == (0.0, 4.0)
  {
    var stack := Split(Horizontal, false, 0.5, Leaf(Only(a)), Leaf(Only(b)));
    var split := Split(Vertical, false, 0.5, Leaf(Only(a)), Leaf(Only(newTab)));
    var wider := Split(Horizontal, false, 0.5, split, Leaf(Only(b)));
    var node := Split(Vertical, false, 0.5, stack, Leaf(Only(c)));
    var after := Split(Vertical, false, 0.5, wider, Leaf(Only(c)));
    assert SplitAt(stack, a, Vertical, 0.5, newTab) == Some(wider);
    assert SplitAt(node, a, Vertical, 0.5, newTab) == Some(after);
    StackBeside(stack, Leaf(Only(c)), (0.0, 6.0));
    StackBeside(wider, Leaf(Only(c)), (0.0, 6.0));
    BalancedSpansOfSides(stack, Vertical, (0.0, 3.0));
    BalancedSpansOfSides(wider, Vertical, (0.0, 4.0));
    BalancedSpansOfSides(stack.first, Vertical, (0.0, 3.0));
    BalancedSpansOfSides(stack.second, Vertical, (0.0, 3.0));
    BalancedSpansOfSides(split, Vertical, (0.0, 4.0));
    BalancedSpansOfSides(stack.second, Vertical, (0.0, 4.0));
  }

  lemma StackBeside(stack: Node, beside: Node, span: (real, real))
    requires beside.Leaf?
    ensures
      var share := Share(span.1, EvenRatio(AxisWeight(stack, Vertical), 1));
      BalancedSpans(Split(Vertical, false, 0.5, stack, beside), Vertical, span)
        == BalancedSpans(stack, Vertical, (span.0, share)) + [(span.0 + share, span.1 - share)]
  {
    hide EvenRatio, Share, BalancedSpans;
    var node := Split(Vertical, false, 0.5, stack, beside);
    BalancedSpansOfSides(node, Vertical, span);
    BalancedSpansOfSides(beside, Vertical, SideSpans(node, Vertical, span).1);
  }

  // ------------------------------------------------------------------------
  // Closing, then balancing
  // ------------------------------------------------------------------------

  /** Which way the split runs whose side is the pane holding `target`. */
  function ParentDirection(node: Node, target: TabId): Direction
    requires node.Split?
  {
    if LeafHolds(node.first, target) || LeafHolds(node.second, target) then node.direction
    else if node.first.Split? && Holding(PanesOf(node.first), target) < |PanesOf(node.first)| then
      ParentDirection(node.first, target)
    else if node.second.Split? then ParentDirection(node.second, target)
    else node.direction
  }

  lemma {:induction false} CloseKeepsWeight(node: Node, target: TabId)
    requires HeldByOne(PanesOf(node), target) && Holding(PanesOf(node), target) < |PanesOf(node)| && node.Split?
    ensures CloseIn(node, target).Some?
    ensures var axis := Across(ParentDirection(node, target));
      AxisWeight(CloseIn(node, target).value, axis) == AxisWeight(node, axis)
  {
    hide Holding, HeldByOne;
    var a, b := PanesOf(node.first), PanesOf(node.second);
    HeldByOneParts(a, b, target);
    HoldingSum(a, b, target);
    LeafHoldsIt(node.first, target);
    LeafHoldsIt(node.second, target);
    if !LeafHolds(node.first, target) && !LeafHolds(node.second, target) {
      if Holding(a, target) < |a| {
        CloseKeepsWeight(node.first, target);
      } else {
        CloseInTakes(node.first, target);
        CloseKeepsWeight(node.second, target);
      }
    }
  }

  /** Whether the pane holding `target` is itself a side of the split at the top. */
  predicate SideHolds(node: Node, target: TabId) {
    node.Split? && (LeafHolds(node.first, target) || LeafHolds(node.second, target))
  }

  lemma ClosedHere(node: Node, target: TabId)
    requires HeldByOne(PanesOf(node), target) && SideHolds(node, target)
    ensures ParentDirection(node, target) == node.direction
    ensures var i := Holding(PanesOf(node), target);
      if LeafHolds(node.first, target)
      then i == 0 && |PanesOf(node.first)| == 1 && CloseIn(node, target) == Some(node.second)
      else i == |PanesOf(node.first)| && |PanesOf(node.second)| == 1 && CloseIn(node, target) == Some(node.first)
  {
    hide Holding, HeldByOne;
    HeldByOneParts(PanesOf(node.first), PanesOf(node.second), target);
    HoldingSum(PanesOf(node.first), PanesOf(node.second), target);
    LeafHoldsIt(node.first, target);
    LeafHoldsIt(node.second, target);
  }

  lemma ClosedDeeper(node: Node, target: TabId)
    requires HeldByOne(PanesOf(node), target) && Holding(PanesOf(node), target) < |PanesOf(node)|
    requires node.Split? && !SideHolds(node, target)
    ensures var side, i := SideOf(node, target), Holding(PanesOf(node), target);
      && side.Split? && ParentDirection(node, target) == ParentDirection(side, target)
      && HeldByOne(PanesOf(side), target) && Holding(PanesOf(side), target) < |PanesOf(side)|
      && CloseIn(side, target).Some?
      && (i < |PanesOf(node.first)| ==>
            && side == node.first && Holding(PanesOf(side), target) == i
            && CloseIn(node, target) == Some(node.(first := CloseIn(side, target).value)))
      && (i >= |PanesOf(node.first)| ==>
            && side == node.second && Holding(PanesOf(side), target) == i - |PanesOf(node.first)|
            && CloseIn(node, target) == Some(node.(second := CloseIn(side, target).value)))
  {
    hide Holding, HeldByOne;
    HeldByOneParts(PanesOf(node.first), PanesOf(node.second), target);
    HoldingSum(PanesOf(node.first), PanesOf(node.second), target);
    LeafHoldsIt(node.first, target);
    LeafHoldsIt(node.second, target);
    CloseInTakes(node.first, target);
    CloseInTakes(node.second, target);
  }

  /** One pane's span out of those of both sides. */
  lemma CloseAcrossHere(node: Node, target: TabId, span: (real, real))
    requires HeldByOne(PanesOf(node), target) && SideHolds(node, target)
    ensures CloseIn(node, target).Some?
    ensures var axis := Across(ParentDirection(node, target));
      var spans, i := BalancedSpans(node, axis, span), Holding(PanesOf(node), target);
      i < |spans| && BalancedSpans(CloseIn(node, target).value, axis, span) == Taken(spans, i)
  {
    hide Holding, HeldByOne, Taken, BalancedSpans, CloseIn, PanesOf, ParentDirection;
    ClosedHere(node, target);
    var axis := Across(node.direction);
    BalancedSpansOfSides(node, axis, span);
    var inFirst, inSecond := BalancedSpans(node.first, axis, span), BalancedSpans(node.second, axis, span);
    BalancedSpansOfSides(node.first, axis, span);
    BalancedSpansOfSides(node.second, axis, span);
    TakenSum(inFirst, inSecond, if LeafHolds(node.first, target) then 0 else |inFirst|);
    TakenOnly(span);
    assert [] + inSecond == inSecond && inFirst + [] == inFirst;
  }

  /** Closing a pane and balancing resizes nothing across the split it closed: every other pane lies where it did along
      that axis. */
  lemma {:induction false} CloseResizesAlongOnly(node: Node, target: TabId, span: (real, real))
    requires HeldByOne(PanesOf(node), target) && Holding(PanesOf(node), target) < |PanesOf(node)| && node.Split?
    ensures CloseIn(node, target).Some?
    ensures var axis := Across(ParentDirection(node, target));
      var spans, i := BalancedSpans(node, axis, span), Holding(PanesOf(node), target);
      i < |spans| && BalancedSpans(CloseIn(node, target).value, axis, span) == Taken(spans, i)
  {
    hide Holding, HeldByOne, Taken, EvenRatio, Share, BalancedSpans, AxisWeight, CloseIn, PanesOf, ParentDirection,
      SideOf;
    if SideHolds(node, target) {
      CloseAcrossHere(node, target, span);
    } else {
      ClosedDeeper(node, target);
      var side, axis := SideOf(node, target), Across(ParentDirection(node, target));
      var sides := SideSpans(node, axis, span);
      CloseKeepsWeight(side, target);
      CloseResizesAlongOnly(
        side, target, if Holding(PanesOf(node), target) < |PanesOf(node.first)| then sides.0 else sides.1);
      BalancedSpansOfSides(node, axis, span);
      BalancedSpansOfSides(node.first, axis, sides.0);
      BalancedSpansOfSides(node.second, axis, sides.1);
      TakenSum(BalancedSpans(node.first, axis, sides.0), BalancedSpans(node.second, axis, sides.1),
               Holding(PanesOf(node), target));
      BalancedSpansOfSides(CloseIn(node, target).value, axis, span);
    }
  }

  lemma TakenOnly<T>(x: T)
    ensures Taken([x], 0) == []
  {
  }

  // ------------------------------------------------------------------------
  // Placing beside, then balancing
  // ------------------------------------------------------------------------

  /** Whether `b` lies against the side of `a` that a direction names. */
  predicate LiesToward(direction: FocusDir, a: Rect, b: Rect) {
    match direction
    case Left => b.x + b.width == a.x && b.y == a.y && b.height == a.height
    case Right => a.x + a.width == b.x && b.y == a.y && b.height == a.height
    case Up => b.y + b.height == a.y && b.x == a.x && b.width == a.width
    case Down => a.y + a.height == b.y && b.x == a.x && b.width == a.width
  }

  /** Of two neighbours in tree order, the one placed comes first when it goes left or up; it lies on the side asked. */
  predicate PlacedAt(areas: seq<PaneArea>, i: nat, direction: FocusDir) {
    && i + 1 < |areas|
    && if direction.Left? || direction.Up? then LiesToward(direction, areas[i + 1].rect, areas[i].rect)
       else LiesToward(direction, areas[i].rect, areas[i + 1].rect)
  }

  lemma HalvesPlace(direction: FocusDir, stays: Pane, placed: Pane, area: Rect)
    ensures PlacedAt(CollectPanes(BalanceNode(Halves(direction, Leaf(stays), Leaf(placed))), area), 0, direction)
  {
    hide Share, EvenRatio;
  }

  lemma PlacedInSum(a: seq<PaneArea>, b: seq<PaneArea>, i: nat, direction: FocusDir)
    ensures PlacedAt(a, i, direction) ==> PlacedAt(a + b, i, direction)
    ensures PlacedAt(b, i, direction) ==> PlacedAt(a + b, |a| + i, direction)
  {
    hide LiesToward;
    assert forall k | 0 <= k < |a| :: (a + b)[k] == a[k];
    assert forall k | 0 <= k < |b| :: (a + b)[|a| + k] == b[k];
  }

  /** However deep in the tree, a pane placed beside another lies against the side asked once all is balanced. */
  lemma {:induction false} BalancedPlaces(
    node: Node, target: TabId, direction: FocusDir, stays: Pane, placed: Pane, area: Rect)
    requires Holding(PanesOf(node), target) < |PanesOf(node)|
    ensures Graft(node, target, Halves(direction, Leaf(stays), Leaf(placed))).Some?
    ensures PlacedAt(
      CollectPanes(BalanceNode(Graft(node, target, Halves(direction, Leaf(stays), Leaf(placed))).value), area),
      Holding(PanesOf(node), target), direction)
  {
    hide Holding, EvenRatio, Rect.Split, PlacedAt, Halves;
    var halves := Halves(direction, Leaf(stays), Leaf(placed));
    if node.Leaf? {
      HoldingOne(node.pane, target);
      HalvesPlace(direction, stays, placed, area);
    } else {
      var a, b := PanesOf(node.first), PanesOf(node.second);
      HoldingSum(a, b, target);
      GraftSplices(node.first, target, halves);
      GraftSplices(node.second, target, halves);
      var split := BalanceNode(Graft(node, target, halves).value);
      var sides := area.Split(split.direction, split.ratio);
      var inFirst, inSecond := CollectPanes(split.first, sides.0), CollectPanes(split.second, sides.1);
      if Holding(a, target) < |a| {
        BalancedPlaces(node.first, target, direction, stays, placed, sides.0);
        PlacedInSum(inFirst, inSecond, Holding(a, target), direction);
      } else {
        BalanceNodeKeeps(node.first);
        BalancedPlaces(node.second, target, direction, stays, placed, sides.1);
        PlacedInSum(inFirst, inSecond, Holding(b, target), direction);
      }
    }
  }
}

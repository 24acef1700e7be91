/** The window's layout: its tree of panes, its dock and its focus. */
module Layout {
  import opened Text
  import opened Strips
  import opened StripLaws
  import opened SplitTree
  import opened SplitAreas
  import opened Snapshots
  import opened WindowLaws

  datatype DockState = Absent | Hidden | Shown

  class Layout {
    var dockHidden: bool
    var dockReturn: Option<TabId>
    var focused: TabId
    var root: Node
    var zoomed: bool

    /** The window as a flat list of strips. */
    ghost function Window(): Strips
      reads this
    {
      StripsOf(root)
    }

    ghost function Tabs(): multiset<TabId>
      reads this
    {
      Window().Tabs()
    }

    /** A whole window whose focus is on a tab of a laid-out pane. */
    ghost predicate Valid()
      reads this
    {
      Intact(root) && Window().LaysOut(focused, dockHidden)
    }

    /** Whether the focus is on a tab a laid-out pane shows. */
    ghost predicate FocusShown()
      reads this
    {
      Window().Shows(focused, dockHidden)
    }

    // ----------------------------------------------------------------------
    // Construction and snapshots
    // ----------------------------------------------------------------------

    constructor WithRoot(tab: TabId)
      ensures Valid() && FocusShown() && focused == tab && !zoomed && !dockHidden && dockReturn == None
      ensures root == Leaf(Only(tab)) && Window() == Strips([Only(tab)], 1) && Tabs() == multiset{tab}
    {
      dockHidden, dockReturn, focused, root, zoomed := false, None, tab, Leaf(Only(tab)), false;
      new;
      HeldFirst(Only(tab), []);
      assert [Only(tab)] + [] == [Only(tab)];
    }

    constructor Of(tree: Node, tab: TabId)
      ensures root == tree && focused == tab && !zoomed && !dockHidden && dockReturn == None
    {
      dockHidden, dockReturn, focused, root, zoomed := false, None, tab, tree, false;
    }

    /** A layout rebuilt from a snapshot: nothing when the snapshot names no tab. */
    static method FromTree(tree: LayoutTree, tab: TabId) returns (layout: Layout?)
      ensures layout == null <==> Named(tree) == multiset{}
      ensures layout != null ==> fresh(layout) && !layout.zoomed
      ensures layout != null && Distinct(Named(tree)) && DockAtRoot(tree) ==>
        && layout.Valid() && layout.FocusShown() && layout.Tabs() == Named(tree)
        && var restored := StripsOf(LayoutTreeToNode(tree).GetOr(layout.root));
        if tab in Named(tree) then
          && layout.focused == tab && restored.At(tab) < |restored.panes|
          && layout.Window() == restored.With(restored.At(tab), restored.panes[restored.At(tab)].Show(tab))
        else layout.focused == layout.Window().panes[0].active && layout.Window() == restored
    {
      hide RootSound, Strips.Ok, Strips.Tabs, Strips.LaysOut, Strips.Shows, StripsOf, LayoutTreeToNode, Named,
        Distinct, DockAtRoot, FindPane, ShownTabs;
      RestoreKeepsTabs(tree);
      var rebuilt := LayoutTreeToNode(tree);
      if rebuilt == None {
        return null;
      }
      if Distinct(Named(tree)) && DockAtRoot(tree) {
        RestoredWindow(tree);
        assert Intact(rebuilt.value);
      }
      layout := new Layout.Of(rebuilt.value, tab);
      Found(rebuilt.value, tab);
      var found := layout.Focus(tab);
      if !found {
        layout.focused := ShownTabs(LaidOut(layout.root, layout.dockHidden))[0];
        if Intact(rebuilt.value) {
          FirstIsShown(layout.root, layout.dockHidden);
          FirstShownIs(layout.root, layout.dockHidden);
          ShownIsLaidOut(layout.Window(), layout.focused, layout.dockHidden);
        }
      }
    }

    function ExportTree(): LayoutTree
      reads this
    {
      NodeToLayoutTree(root)
    }

    /** What is saved names each tab once, with its dock at the root, and restores to the same panes in the same
        places. */
    lemma SavedIsWhole(viewport: Rect)
      requires Valid()
      ensures Named(ExportTree()) == Tabs() && Distinct(Named(ExportTree())) && DockAtRoot(ExportTree())
      ensures LayoutTreeToNode(ExportTree()).Some?
      ensures var restored := LayoutTreeToNode(ExportTree()).value;
        && CollectPanes(restored, viewport) == CollectPanes(root, viewport)
        && NodeToLayoutTree(restored) == ExportTree()
    {
      hide Pane.Ok, Strips.LaysOut, CollectPanes, LayoutTreeToNode, Distinct;
      RootRatios(root);
      SnapshotRoundTrip(root, viewport);
      SavedNames(root);
      SavedDock(root);
    }

    // ----------------------------------------------------------------------
    // Queries
    // ----------------------------------------------------------------------

    function Shown(): seq<TabId>
      reads this
    {
      ShownTabs(LaidOut(root, dockHidden))
    }

    function Contains(tab: TabId): bool
      reads this
    {
      Holds(root, tab)
    }

    function TabsInPane(tab: TabId): seq<TabId>
      reads this
    {
      var pane := FindPane(root, tab);
      if pane.Some? then pane.value.members else []
    }

    function Dock(): DockState
      reads this
    {
      if !HasDock(root) then Absent else if dockHidden then Hidden else DockState.Shown
    }

    /** Every pane laid out; when zoomed only the focused one, over the whole window. */
    function Panes(viewport: Rect): seq<PaneArea>
      reads this
    {
      var areas := CollectPanes(LaidOut(root, dockHidden), viewport);
      if zoomed then Zoomed(areas, focused, viewport) else areas
    }

    /** A zoomed window is the focused pane alone, its strip whole, over all of it; and nothing at all exactly when the
        focus is on a tab its pane does not show. */
    lemma ZoomShowsFocused(viewport: Rect)
      requires Valid() && zoomed
      ensures FocusShown() ==> Panes(viewport) == [PaneArea(focused, TabsInPane(focused), viewport)]
      ensures Panes(viewport) == [] <==> !FocusShown()
    {
      hide Pane.Ok, Strips.Tabs, LaidOut, FindPane, Zoomed, CollectPanes, Strips.Ok;
      var laid := LaidOut(root, dockHidden);
      var areas := CollectPanes(laid, viewport);
      LaidOutPanes(root, dockHidden);
      Found(root, focused);
      OkRange(Window());
      var i := Window().At(focused);
      forall k | 0 <= k < |areas| ensures areas[k].active == focused ==> k == i {
        AreasArePanes(laid, viewport, k);
        ActiveIsMember(Window(), k);
      }
      AreasArePanes(laid, viewport, i);
      ZoomedIsOne(areas, i, focused, viewport);
    }

    /** The panes laid out tile the window: each of its points is in exactly one of them, and no other point is in any.
        Only a zoomed window whose focus is on a tab its pane does not show is left blank. */
    lemma PanesTileWindow(viewport: Rect, px: real, py: real)
      requires Valid() && viewport.width >= 0.0 && viewport.height >= 0.0
      ensures Covering(Panes(viewport), px, py) ==
        if viewport.Covers(px, py) && (!zoomed || FocusShown()) then 1 else 0
    {
      hide Strips.Ok, LaidOut, Strips.LaysOut, Strips.Shows, RootSound;
      LaidOutPanes(root, dockHidden);
      if zoomed {
        ZoomShowsFocused(viewport);
      } else {
        PanesTile(LaidOut(root, dockHidden), viewport, px, py);
      }
    }

    // ----------------------------------------------------------------------
    // Splits
    // ----------------------------------------------------------------------

    method ToggleZoom()
      modifies this`zoomed
      ensures zoomed == !old(zoomed)
    {
      zoomed := !zoomed;
    }

    /** Split the focused pane: a new pane right after it, holding the new tab alone, shown and focused. */
    method Split(direction: Direction, ratio: real, newTab: TabId)
      requires Valid() && newTab !in Tabs()
      modifies this
      ensures Valid() && FocusShown() && focused == newTab && !zoomed
      ensures var was := old(Window()); var i := was.At(old(focused));
        i < |was.panes| && Window() == was.Spliced(i, [was.panes[i], Only(newTab)])
      ensures Tabs() == old(Tabs()) + multiset{newTab}
      ensures SplitAt(old(root), old(focused), direction, Clamp(ratio), newTab) == Some(root)
      ensures dockHidden == old(dockHidden) && dockReturn == old(dockReturn)
    {
      hide Intact, Strips.Tabs, Strips.Spliced, Strips.LaysOut, Strips.Shows, StripsOf, SplitAt, Strips.At;
      LaidOutIsHeld(root, focused, dockHidden);
      Found(root, newTab);
      SplitInWindow(root, focused, dockHidden, direction, Clamp(ratio), newTab);
      var changed := SplitAt(root, focused, direction, Clamp(ratio), newTab);
      root := changed.GetOr(root);
      focused := newTab;
      zoomed := false;
      ShownIsLaidOut(Window(), focused, dockHidden);
    }

    /** Share the window evenly along every split but the dock's; no tab moves. */
    method BalancePanes()
      requires Intact(root)
      modifies this`root
      ensures root == Balance(old(root)) && Window() == old(Window()) && Intact(root)
      ensures old(Valid()) ==> Valid()
      ensures old(FocusShown()) ==> FocusShown()
    {
      hide Strips.Ok, RootSound, StripsOf;
      BalanceKeeps(root);
      root := Balance(root);
    }

    // ----------------------------------------------------------------------
    // Tabs
    // ----------------------------------------------------------------------

    /** Add a tab to the focused pane after the one it shows, shown and focused. */
    method AddTab(newTab: TabId)
      requires Valid() && newTab !in Tabs()
      modifies this`root, this`focused
      ensures Valid() && FocusShown() && focused == newTab
      ensures var was := old(Window()); var i := was.At(old(focused));
        && i < |was.panes| && was.panes[i].active in was.panes[i].members
        && Window() == was.With(i, was.panes[i].Beside(newTab).Show(newTab))
      ensures Tabs() == old(Tabs()) + multiset{newTab}
    {
      hide Intact, Strips.Tabs, Strips.LaysOut, Strips.Shows, StripsOf, FindPane, Strips.At, Pane.Beside, Pane.Show;
      LaidOutIsHeld(root, focused, dockHidden);
      Found(root, focused);
      Found(root, newTab);
      var pane := FindPane(root, focused);
      if pane.Some? {
        JoinsInWindow(root, focused, newTab, dockHidden);
        root := WithPane(root, focused, pane.value.Beside(newTab).Show(newTab));
      }
      focused := newTab;
      ShownIsLaidOut(Window(), focused, dockHidden);
    }

    /** Add a tab to the pane holding `beside` without showing it. */
    method AddBackgroundTab(beside: TabId, newTab: TabId)
      requires Valid() && newTab !in Tabs()
      modifies this`root
      ensures Valid() && (old(FocusShown()) ==> FocusShown())
      ensures if !old(Contains(beside)) then root == old(root)
        else
          var was := old(Window()); var i := was.At(beside);
          && i < |was.panes| && was.panes[i].active in was.panes[i].members
          && Window() == was.With(i, was.panes[i].Beside(newTab).(recent := was.panes[i].recent + [newTab]))
          && Tabs() == old(Tabs()) + multiset{newTab}
    {
      hide Intact, Strips.Tabs, Strips.LaysOut, Strips.Shows, StripsOf, FindPane, Strips.At, Pane.Beside, Pane.Show;
      Found(root, beside);
      Found(root, newTab);
      var pane := FindPane(root, beside);
      if pane.Some? {
        JoinsUnseenInWindow(root, beside, newTab, focused, dockHidden);
        root := WithPane(root, beside, pane.value.Beside(newTab).(recent := pane.value.recent + [newTab]));
      }
    }

    /** Add a tab to the pane holding `beside`, shown and focused when asked. Asked to show it beside a tab there is
        not, the focus goes to a tab in no pane. */
    method AddTabBeside(beside: TabId, newTab: TabId, show: bool)
      requires Valid() && newTab !in Tabs()
      modifies this`root, this`focused, this`dockHidden
      ensures Intact(root)
      ensures Valid() <==> !show || old(Contains(beside))
      ensures show && old(Contains(beside)) ==> FocusShown()
      ensures !show && old(FocusShown()) ==> FocusShown()
      ensures focused == (if show then newTab else old(focused))
      ensures if !old(Contains(beside)) then root == old(root)
        else
          var was := old(Window()); var i := was.At(beside);
          && i < |was.panes| && was.panes[i].active in was.panes[i].members
          && Window() == was.With(
            i,
            if show then was.panes[i].Beside(newTab).Show(newTab)
            else was.panes[i].Beside(newTab).(recent := was.panes[i].recent + [newTab]))
          && Tabs() == old(Tabs()) + multiset{newTab}
      ensures dockHidden == (old(dockHidden) && !(show && old(InDock(root, beside))))
    {
      hide Intact, Strips.Tabs, Strips.LaysOut, Strips.Shows, StripsOf, FindPane, Strips.At, Pane.Beside, Pane.Show,
        InDock;
      Found(root, beside);
      Found(root, newTab);
      ghost var was := root;
      var pane := FindPane(root, beside);
      if pane.Some? {
        if show {
          JoinsInWindow(root, beside, newTab, dockHidden);
          root := WithPane(root, beside, pane.value.Beside(newTab).Show(newTab));
        } else {
          JoinsUnseenInWindow(root, beside, newTab, focused, dockHidden);
          root := WithPane(root, beside, pane.value.Beside(newTab).(recent := pane.value.recent + [newTab]));
        }
      }
      if show {
        FoundInDock(was, beside);
        FoundInDock(root, newTab);
        AbsentIsNowhere(was, newTab, dockHidden);
        if InDock(root, newTab) {
          dockHidden := false;
        }
        focused := newTab;
        if pane.Some? {
          ShownIsLaidOut(Window(), newTab, dockHidden);
        }
      }
    }

    /** Show and focus a tab wherever it is; in a dock put away, it brings the dock back. */
    method Focus(tab: TabId) returns (found: bool)
      modifies this`root, this`focused, this`dockHidden, this`dockReturn
      ensures found <==> old(Contains(tab))
      ensures !found ==> root == old(root) && focused == old(focused)
      ensures !found ==> dockHidden == old(dockHidden) && dockReturn == old(dockReturn)
      ensures found ==> focused == tab
      ensures found && old(Intact(root)) ==>
        && Valid() && FocusShown() && Tabs() == old(Tabs())
        && old(Window()).At(tab) < |old(Window()).panes|
        && Window() == old(Window()).With(old(Window()).At(tab), old(Window()).panes[old(Window()).At(tab)].Show(tab))
        && dockHidden == (old(dockHidden) && !old(InDock(root, tab)))
        && dockReturn == if old(dockHidden && InDock(root, tab)) then Some(old(focused)) else old(dockReturn)
    {
      hide Intact, Strips.Tabs, Strips.LaysOut, Strips.Shows, StripsOf, FindPane, Strips.At, Pane.Show, InDock,
        WithPane;
      var pane := FindPane(root, tab);
      if pane == None {
        return false;
      }
      if Intact(root) {
        ShowInWindow(root, tab, dockHidden);
      }
      root := WithPane(root, tab, pane.value.Show(tab));
      if InDock(root, tab) {
        if dockHidden {
          dockReturn := Some(focused);
        }
        dockHidden := false;
      }
      focused := tab;
      if old(Intact(root)) {
        ShownIsLaidOut(Window(), focused, dockHidden);
      }
      return true;
    }

    /** Remove a tab: it alone goes, its pane with it when that is left empty. Nothing changes for a tab in no pane or
        the last tab of all. */
    method Close(tab: TabId) returns (changed: bool)
      requires Valid()
      modifies this`root, this`focused
      ensures Valid() && (old(FocusShown()) ==> FocusShown())
      ensures changed <==> old(Contains(tab) && !Alone(root, tab))
      ensures !changed ==> root == old(root) && focused == old(focused)
      ensures changed ==>
        && old(Window()).At(tab) < |old(Window()).panes|
        && TakeOut(old(root), tab) == Some(root)
        && Window() == Detached(old(Window()), tab)
        && Tabs() == old(Tabs()) - multiset{tab} && !Contains(tab)
      ensures tab != old(focused) ==> focused == old(focused)
      ensures changed && tab == old(focused) ==>
        && FocusShown() && Window().panes != []
        && var was := old(Window()); var pane := was.panes[was.At(tab)];
           if |pane.members| <= 1 then focused == Window().panes[0].active
           else |pane.recent| > 1 && focused == if pane.active == tab then pane.recent[1] else pane.active
    {
      hide Intact, Strips.Tabs, Strips.LaysOut, Strips.Shows, StripsOf, FindPane, Strips.At, CloseIn, Graft, WithPane,
        Pane.Remove, ShownTabs, Alone, Detached;
      var pane := FindPane(root, tab);
      if pane == None {
        return false;
      }
      TakeOutOfWindow(root, tab);
      if !Alone(root, tab) {
        CloseFocusInWindow(root, tab, focused, dockHidden);
      }
      HeldInPane(root, tab);
      if |pane.value.members| > 1 {
        ShownNext(root, tab);
        root := WithPane(root, tab, pane.value.Remove(tab));
        if focused == tab {
          FirstShownIs(root, dockHidden);
          focused := pane.value.Remove(tab).active;
          ShownIsLaidOut(Window(), focused, dockHidden);
        }
        return true;
      }
      var left := CloseIn(root, tab);
      if left == None {
        return false;
      }
      root := left.value;
      if focused == tab {
        FirstShownIs(root, dockHidden);
        focused := Shown()[0];
        ShownIsLaidOut(Window(), focused, dockHidden);
      }
      return true;
    }

    // ----------------------------------------------------------------------
    // The dock
    // ----------------------------------------------------------------------

    /** Dock a new pane under all there are and focus it; nothing when there is a dock already. */
    method OpenDock(newTab: TabId, share: real)
      requires Valid() && (!HasDock(root) ==> newTab !in Tabs())
      modifies this
      ensures Valid() && (old(FocusShown()) ==> FocusShown())
      ensures old(HasDock(root)) ==>
        && root == old(root) && focused == old(focused) && dockHidden == old(dockHidden)
        && dockReturn == old(dockReturn) && zoomed == old(zoomed)
      ensures !old(HasDock(root)) ==>
        && FocusShown() && focused == newTab && dockReturn == Some(old(focused)) && !dockHidden && !zoomed
        && Dock() == DockState.Shown
        && root == SplitTree.Split(Horizontal, true, Clamp(1.0 - share), old(root), Leaf(Only(newTab)))
        && Window() == Strips(old(Window()).panes + [Only(newTab)], |old(Window()).panes|)
        && Tabs() == old(Tabs()) + multiset{newTab}
    {
      hide Intact, Strips.Tabs, Strips.LaysOut, Strips.Shows, StripsOf;
      if HasDock(root) {
        return;
      }
      Found(root, newTab);
      DockOpens(root, Clamp(1.0 - share), newTab);
      root := SplitTree.Split(Horizontal, true, Clamp(1.0 - share), root, Leaf(Only(newTab)));
      dockReturn := Some(focused);
      dockHidden := false;
      zoomed := false;
      focused := newTab;
      ShownIsLaidOut(Window(), focused, dockHidden);
    }

    /** Put the dock away and take the focus out of it: to the tab it came from, or the first shown above. The focus is
        then on a shown tab unless it went back to one its pane had stopped showing, and only then. */
    method HideDock()
      requires Valid()
      modifies this`dockHidden, this`focused
      ensures Valid()
      ensures dockHidden == (old(dockHidden) || HasDock(root))
      ensures Dock() == if old(Dock()).Absent? then Absent else Hidden
      ensures focused ==
        if !old(InDock(root, focused)) then old(focused)
        else if dockReturn.Some? && Holds(root, dockReturn.value) && !InDock(root, dockReturn.value)
        then dockReturn.value
        else ShownTabs(root.first)[0]
      ensures old(FocusShown()) ==> (FocusShown() <==> !ReturnsToHidden(root, old(focused), dockReturn))
    {
      hide Intact, Strips.Tabs, Strips.LaysOut, Strips.Shows, StripsOf, FindPane, ShownTabs;
      if !HasDock(root) {
        return;
      }
      DockCloses(root, focused, dockReturn, dockHidden);
      dockHidden := true;
      if InDock(root, focused) {
        var back := Above(root, dockReturn);
        var above := Shown()[0];
        focused := back.GetOr(above);
      }
    }

    /** Show the dock and focus the tab its pane shows. */
    method ShowDock()
      requires Valid()
      modifies this`dockHidden, this`dockReturn, this`zoomed, this`focused
      ensures Valid() && (old(FocusShown()) ==> FocusShown())
      ensures !HasDock(root) ==>
        && focused == old(focused) && dockHidden == old(dockHidden)
        && dockReturn == old(dockReturn) && zoomed == old(zoomed)
      ensures Dock() == if old(Dock()).Absent? then Absent else DockState.Shown
      ensures HasDock(root) ==>
        && FocusShown() && InDock(root, focused) && focused == ShownTabs(root.second)[0] && !dockHidden && !zoomed
        && dockReturn == if old(InDock(root, focused)) then None else Some(old(focused))
    {
      hide Intact, Strips.Tabs, Strips.LaysOut, Strips.Shows, StripsOf, ShownTabs, InDock;
      if !HasDock(root) {
        return;
      }
      var tab := ShownTabs(root.second)[0];
      dockReturn := if InDock(root, focused) then None else Some(focused);
      dockHidden := false;
      zoomed := false;
      focused := tab;
      DockShows(root);
      ShownIsLaidOut(Window(), focused, dockHidden);
      FirstInDock(root);
    }

    // ----------------------------------------------------------------------
    // Moving tabs
    // ----------------------------------------------------------------------

    /** Show the next or previous tab of the focused strip, without wrapping round. */
    method CycleTab(forward: bool) returns (changed: bool)
      requires Valid()
      modifies this`root, this`focused, this`dockHidden, this`dockReturn
      ensures Valid() && (old(FocusShown()) ==> FocusShown()) && Tabs() == old(Tabs())
      ensures
        var members := old(TabsInPane(focused));
        var at := Position(members, old(focused));
        && old(focused) in members
        && (changed <==> if forward then at + 1 < |members| else at > 0)
        && (changed ==> FocusShown() && focused == members[if forward then at + 1 else at - 1])
      ensures !changed ==> root == old(root) && focused == old(focused)
      ensures changed ==>
        var was := old(Window()); var i := was.At(focused);
        i < |was.panes| && Window() == was.With(i, was.panes[i].Show(focused))
    {
      hide Intact, Strips.Tabs, Strips.LaysOut, Strips.Shows, StripsOf, FindPane, Strips.At, WithPane, InDock;
      LaidOutIsHeld(root, focused, dockHidden);
      HeldInPane(root, focused);
      var members := TabsInPane(focused);
      var count := |members|;
      if count <= 1 {
        return false;
      }
      var index := Position(members, focused);
      if forward && index + 1 < count {
        HeldInPaneToo(root, focused, members[index + 1]);
        changed := Focus(members[index + 1]);
      } else if !forward && index > 0 {
        HeldInPaneToo(root, focused, members[index - 1]);
        changed := Focus(members[index - 1]);
      } else {
        return false;
      }
    }

    /** Move the focused tab one place along its strip. */
    method MoveTab(forward: bool) returns (moved: bool)
      requires Valid()
      modifies this`root
      ensures Valid() && (old(FocusShown()) ==> FocusShown()) && Tabs() == old(Tabs())
      ensures
        var members := old(TabsInPane(focused));
        var at := Position(members, focused);
        && focused in members
        && (moved <==> if forward then at + 1 < |members| else at > 0)
        && (!moved ==> root == old(root))
        && (moved ==>
              var to := if forward then at + 1 else at - 1;
              var was := old(Window()); var i := was.At(focused);
              && i < |was.panes| && was.panes[i].members == members
              && Window() == was.With(i, was.panes[i].(members := Moved(members, at, to))))
    {
      hide Intact, Strips.Tabs, Strips.LaysOut, Strips.Shows, StripsOf, FindPane, Strips.At, WithPane, Moved, Position,
        Strips.With, LaidOut, PanesOf, Graft;
      LaidOutIsHeld(root, focused, dockHidden);
      HeldInPane(root, focused);
      var pane := FindPane(root, focused).value;
      var members := pane.members;
      var at := Position(members, focused);
      if (if forward then at + 1 >= |members| else at == 0) {
        return false;
      }
      var to := if forward then at + 1 else at - 1;
      SwapIsMove(members, at, to);
      MovedKeepsOrder(members, at, to);
      ReorderInWindow(root, focused, Moved(members, at, to), focused, dockHidden);
      root := WithPane(root, focused, pane.(members := members[at := members[to]][to := members[at]]));
      return true;
    }

    /** Move a tab to where another is: along their strip, or into the other's. */
    method MoveTabTo(tab: TabId, target: TabId) returns (moved: bool)
      requires Valid()
      modifies this`root, this`focused
      ensures Intact(root) && Tabs() == old(Tabs())
      ensures moved <==> tab != target && old(Contains(tab) && Contains(target))
      ensures !moved ==> root == old(root) && focused == old(focused)
      ensures moved && old(SamePane(Window(), tab, target)) ==>
        && Valid() && (old(FocusShown()) ==> FocusShown()) && focused == old(focused)
        && var was := old(Window()); var i := was.At(tab); var members := was.panes[i].members;
        && tab in members && target in members
        && var moved := Moved(members, Position(members, tab), Position(members, target));
        Window() == was.With(i, was.panes[i].(members := moved))
      ensures moved && !old(SamePane(Window(), tab, target)) ==>
        && root == Transferred(old(root), tab, target, Position(old(TabsInPane(target)), target))
        && TransferredAt(old(Window()), Window(), tab, target, Position(old(TabsInPane(target)), target))
        && focused == tab
        && (Valid() <==> old(Window().LaysOut(target, dockHidden) || OnlyAbove(Window(), tab)))
        && (FocusShown() <==> Valid())
    {
      hide Intact, Strips.Tabs, Strips.LaysOut, Strips.Shows, StripsOf, FindPane, Strips.At, WithPane, SamePane,
        OnlyAbove, TransferredAt;
      if tab == target || !Contains(tab) || !Contains(target) {
        return false;
      }
      HeldInPane(root, tab);
      HeldInPane(root, target);
      SamePaneIs(root, tab, target);
      var pane := FindPane(root, tab).value;
      if target in pane.members {
        var from, to := Position(pane.members, tab), Position(pane.members, target);
        MovedKeepsOrder(pane.members, from, to);
        ReorderInWindow(root, tab, Moved(pane.members, from, to), focused, dockHidden);
        root := WithPane(root, tab, pane.(members := Moved(pane.members, from, to)));
        return true;
      }
      var to := Position(FindPane(root, target).value.members, target);
      moved := TransferTabToPane(tab, target, Some(to));
    }

    /** Move a tab to the end of the strip that holds another. */
    method MoveTabToPane(tab: TabId, target: TabId) returns (moved: bool)
      requires Valid()
      modifies this`root, this`focused
      ensures Intact(root) && Tabs() == old(Tabs())
      ensures moved <==>
        && old(Contains(tab) && Contains(target))
        && (old(SamePane(Window(), tab, target)) ==>
              Position(old(TabsInPane(tab)), tab) + 1 < |old(TabsInPane(tab))|)
      ensures !moved ==> root == old(root) && focused == old(focused)
      ensures moved && old(SamePane(Window(), tab, target)) ==>
        && Valid() && (old(FocusShown()) ==> FocusShown()) && focused == old(focused)
        && var was := old(Window()); var i := was.At(tab); var members := was.panes[i].members;
        && tab in members
        && Window() == was.With(i, was.panes[i].(members := Moved(members, Position(members, tab), |members| - 1)))
      ensures moved && !old(SamePane(Window(), tab, target)) ==>
        && root == Transferred(old(root), tab, target, |old(TabsInPane(target))|)
        && TransferredAt(old(Window()), Window(), tab, target, |old(TabsInPane(target))|)
        && focused == tab
        && (Valid() <==> old(Window().LaysOut(target, dockHidden) || OnlyAbove(Window(), tab)))
        && (FocusShown() <==> Valid())
    {
      hide Intact, Strips.Tabs, Strips.LaysOut, Strips.Shows, StripsOf, FindPane, Strips.At, WithPane, SamePane,
        OnlyAbove, TransferredAt;
      SamePaneIs(root, tab, target);
      if !Contains(tab) || !Contains(target) {
        return false;
      }
      HeldInPane(root, tab);
      HeldInPane(root, target);
      var pane := FindPane(root, tab).value;
      if target in pane.members {
        var from, to := Position(pane.members, tab), |pane.members| - 1;
        if from == to {
          return false;
        }
        MovedKeepsOrder(pane.members, from, to);
        ReorderInWindow(root, tab, Moved(pane.members, from, to), focused, dockHidden);
        root := WithPane(root, tab, pane.(members := Moved(pane.members, from, to)));
        return true;
      }
      moved := TransferTabToPane(tab, target, None);
    }

    /** Move a tab into another pane's strip, shown and focused there; its own pane goes when it was its only tab, and
        the window is then balanced. */
    method TransferTabToPane(tab: TabId, target: TabId, insertAt: Option<nat>) returns (moved: bool)
      requires Valid() && Contains(tab) && Contains(target) && !SamePane(Window(), tab, target)
      modifies this`root, this`focused
      ensures moved && Intact(root) && Tabs() == old(Tabs()) && focused == tab
      ensures root == Transferred(old(root), tab, target, insertAt.GetOr(|old(TabsInPane(target))|))
      ensures TransferredAt(old(Window()), Window(), tab, target, insertAt.GetOr(|old(TabsInPane(target))|))
      ensures Valid() <==> old(Window().LaysOut(target, dockHidden) || OnlyAbove(Window(), tab))
      ensures FocusShown() <==> Valid()
    {
      hide Intact, Strips.Tabs, Strips.LaysOut, Strips.Shows, StripsOf, FindPane, Strips.At, WithPane, Strips.With,
        SamePane, OnlyAbove, Pane.Receive, Pane.Remove, CloseIn, Balance, RootSound, Detached;
      Found(root, tab);
      var pane := FindPane(root, tab).value;
      var at := insertAt.GetOr(|FindPane(root, target).value.members|);
      TransferInWindow(root, tab, target, at, dockHidden);
      if |pane.members| > 1 {
        root := WithPane(root, tab, pane.Remove(tab));
        root := WithPane(root, target, FindPane(root, target).value.Receive(tab, at));
        focused := tab;
      } else {
        root := CloseIn(root, tab).GetOr(root);
        root := WithPane(root, target, FindPane(root, target).value.Receive(tab, at));
        focused := tab;
        BalancePanes();
      }
      return true;
    }

    /** Make a tab a new pane beside the one holding another, and balance the window. */
    method SplitTabToNewPane(tab: TabId, target: TabId, direction: FocusDir) returns (moved: bool)
      requires Valid()
      modifies this`root, this`focused
      ensures Intact(root) && Tabs() == old(Tabs())
      ensures moved <==>
        && old(Contains(tab) && Contains(target))
        && (old(SamePane(Window(), tab, target)) ==> |old(TabsInPane(tab))| > 1)
      ensures !moved ==> root == old(root) && focused == old(focused)
      ensures moved ==>
        && focused == tab
        && root == Balance(Parted(old(root), tab, target, direction))
        && (Valid() <==> old(Window().LaysOut(target, dockHidden) || OnlyAbove(Window(), tab)))
        && (FocusShown() <==> Valid())
        && PartedInto(old(Window()), Window(), tab, target, direction)
    {
      hide Intact, Strips.Tabs, Strips.LaysOut, Strips.Shows, StripsOf, FindPane, Strips.At, WithPane, SamePane,
        OnlyAbove, Pane.Remove, CloseIn, Balance, RootSound, Detached, SplitOffTab, SplitPaneWithTab, Strips.Spliced,
        Sides, PartedInto;
      Found(root, tab);
      SamePaneIs(root, tab, target);
      if !Contains(tab) {
        return false;
      }
      HeldInPane(root, tab);
      var pane := FindPane(root, tab).value;
      if target in pane.members {
        HeldInPaneToo(root, tab, target);
        if |pane.members| <= 1 {
          return false;
        }
        PartsInPlace(root, tab, target, dockHidden, direction);
        root := SplitOffTab(root, tab, direction).GetOr(root);
      } else {
        if !Contains(target) {
          return false;
        }
        PartsAway(root, tab, target, dockHidden, direction);
        if |pane.members| > 1 {
          root := WithPane(root, tab, pane.Remove(tab));
        } else {
          root := CloseIn(root, tab).GetOr(root);
        }
        root := SplitPaneWithTab(root, target, tab, direction).GetOr(root);
      }
      focused := tab;
      BalancePanes();
      return true;
    }

    /** Make a tab a new pane beside its own. */
    method MoveTabToNewPane(tab: TabId, direction: FocusDir) returns (moved: bool)
      requires Valid()
      modifies this`root, this`focused
      ensures Intact(root) && Tabs() == old(Tabs())
      ensures moved <==> |old(TabsInPane(tab))| > 1
      ensures !moved ==> root == old(root) && focused == old(focused)
      ensures moved ==>
        && focused == tab
        && root == Balance(Parted(old(root), tab, tab, direction))
        && (Valid() <==> old(Window().LaysOut(tab, dockHidden)))
        && (FocusShown() <==> Valid())
        && PartedInto(old(Window()), Window(), tab, tab, direction)
    {
      hide Intact, Strips.Tabs, Strips.LaysOut, Strips.Shows, StripsOf, FindPane, Strips.At, WithPane, OnlyAbove,
        PartedInto, SamePane;
      if Contains(tab) {
        HeldInPane(root, tab);
        SamePaneIs(root, tab, tab);
        SeveralNotAlone(root, tab);
      }
      moved := SplitTabToNewPane(tab, tab, direction);
    }

    // ----------------------------------------------------------------------
    // Focus between panes
    // ----------------------------------------------------------------------

    /** Focus the pane at a place in tree order. */
    method FocusByIndex(index: nat) returns (found: bool)
      requires Valid()
      modifies this`focused
      ensures Valid() && (old(FocusShown()) ==> FocusShown())
      ensures found <==> index < |Shown()|
      ensures if found then FocusShown() && focused == Shown()[index] else focused == old(focused)
    {
      hide Intact, Strips.Tabs, Strips.LaysOut, Strips.Shows, StripsOf, LaidOut, ShownTabs;
      var shown := Shown();
      if index < |shown| {
        focused := shown[index];
        ShownIsInSight(root, dockHidden, index);
        ShownIsLaidOut(Window(), focused, dockHidden);
        return true;
      }
      return false;
    }

    /** Focus the next pane in tree order, wrapping round. */
    method FocusNext()
      requires Valid()
      modifies this`focused
      ensures Valid() && (old(FocusShown()) ==> FocusShown())
      ensures old(FocusShown()) ==>
        && old(focused) in Shown()
        && focused == Shown()[(Position(Shown(), old(focused)) + 1) % |Shown()|]
      ensures !old(FocusShown()) ==> focused == old(focused)
    {
      hide Intact, Strips.Tabs, Strips.LaysOut, Strips.Shows, StripsOf, LaidOut, ShownTabs;
      var panes := Shown();
      InSightIsShown(root, focused, dockHidden);
      var index := Position(panes, focused);
      if index < |panes| {
        focused := panes[(index + 1) % |panes|];
        ShownIsInSight(root, dockHidden, (index + 1) % |panes|);
        ShownIsLaidOut(Window(), focused, dockHidden);
      }
    }
  }

  /** The tree with `tab` moved into the strip that holds `target`, balanced where its pane went with it. */
  function Transferred(root: Node, tab: TabId, target: TabId, at: nat): Node
    requires Holds(root, tab)
  {
    var left := TakeOut(root, tab).GetOr(root);
    var pane := FindPane(left, target);
    var moved := if pane.Some? then WithPane(left, target, pane.value.Receive(tab, at)) else left;
    if |FindPane(root, tab).value.members| > 1 then moved else Balance(moved)
  }

  /** Moving a pane's last tab away leaves the window balanced. */
  lemma TransferBalances(root: Node, tab: TabId, target: TabId, at: nat)
    requires Holds(root, tab) && |FindPane(root, tab).value.members| <= 1
    ensures Balanced(Transferred(root, tab, target, at))
  {
    hide FindPane, Balance, TakeOut, Balanced;
    var left := TakeOut(root, tab).GetOr(root);
    var pane := FindPane(left, target);
    BalanceIsBalanced(if pane.Some? then WithPane(left, target, pane.value.Receive(tab, at)) else left);
  }

  /** The tree with `tab` a pane of its own on a side of the one that holds `target`, still to be balanced. */
  function Parted(root: Node, tab: TabId, target: TabId, direction: FocusDir): Node
    requires Holds(root, tab)
  {
    if target in FindPane(root, tab).value.members then SplitOffTab(root, tab, direction).GetOr(root)
    else SplitPaneWithTab(TakeOut(root, tab).GetOr(root), target, tab, direction).GetOr(root)
  }

  /** Moving a tab between panes that both stay moves no rectangle of the window, the dock shown or away. */
  lemma TransferMovesNoPane(root: Node, tab: TabId, target: TabId, at: nat, hidden: bool, area: Rect, i: nat)
    requires Intact(root) && Holds(root, tab) && Holds(root, target) && !SamePane(StripsOf(root), tab, target)
    requires |FindPane(root, tab).value.members| > 1 && i < |CollectPanes(LaidOut(root, hidden), area)|
    ensures
      var before := CollectPanes(LaidOut(root, hidden), area);
      var after := CollectPanes(LaidOut(Transferred(root, tab, target, at), hidden), area);
      |after| == |before| && after[i].rect == before[i].rect
  {
    hide CollectPanes, FindPane, Pane.Ok, Graft, SamePane, TakeOut, PanesOf, Holding, LaidOut;
    Found(root, tab);
    TakeOutStaysInside(root, tab, hidden, area);
    TakenOutFor(root, tab, target, false);
    var left := TakeOut(root, tab).value;
    Found(left, target);
    ChangedStaysInside(left, target, FindPane(left, target).value.Receive(tab, at), hidden, area);
  }

  /** Where the pane split and the pane made are in tree order: the one that stays, and the one placed. */
  function StaysAt(i: nat, direction: FocusDir): nat {
    if direction.Left? || direction.Up? then i + 1 else i
  }

  function PlacedIndex(i: nat, direction: FocusDir): nat {
    if direction.Left? || direction.Up? then i else i + 1
  }

  /** Where the pane that splits is in tree order once `tab` is out of any other. */
  function SplitIndex(root: Node, tab: TabId, target: TabId): nat
    requires Holds(root, tab)
  {
    if target in FindPane(root, tab).value.members then StripsOf(root).At(tab)
    else StripsOf(TakeOut(root, tab).GetOr(root)).At(target)
  }

  /** What a pane keeps once `tab` is made a pane of its own beside it. */
  function Staying(root: Node, tab: TabId, target: TabId): Pane
    requires Holds(root, tab) && Holds(root, target)
  {
    if target in FindPane(root, tab).value.members then FindPane(root, tab).value.Remove(tab)
    else FindPane(root, target).value
  }

  /** A tab made a pane of its own lies against the side asked of the pane it was put beside, in the balanced window as
      it is laid out. */
  lemma PartedLiesToward(root: Node, tab: TabId, target: TabId, direction: FocusDir, hidden: bool, area: Rect)
    requires Intact(root) && Holds(root, tab) && Holds(root, target)
    requires SamePane(StripsOf(root), tab, target) ==> |FindPane(root, tab).value.members| > 1
    requires StripsOf(root).LaysOut(target, hidden) || OnlyAbove(StripsOf(root), tab)
    ensures
      var areas := CollectPanes(LaidOut(Balance(Parted(root, tab, target, direction)), hidden), area);
      var i := SplitIndex(root, tab, target);
      var stays, placed := StaysAt(i, direction), PlacedIndex(i, direction);
      && i + 1 < |areas|
      && areas[placed].members == [tab] && areas[stays].members == Staying(root, tab, target).members
      && LiesToward(direction, areas[stays].rect, areas[placed].rect)
  {
    hide FindPane, Pane.Ok, LiesToward, CollectPanes, PanesOf, Graft, SamePane, Holding, Strips.LaysOut, OnlyAbove,
      TakeOut, Balance, SplitOffTab, SplitPaneWithTab, Pane.Remove, RootSound, Strips.Tabs, LaidOut;
    Found(root, tab);
    Found(root, target);
    SamePaneIs(root, tab, target);
    var stays := Staying(root, tab, target);
    if SamePane(StripsOf(root), tab, target) {
      HeldInPaneToo(root, tab, target);
      SeveralNotAlone(root, tab);
      LaysOutIs(StripsOf(root), tab, hidden);
      LaysOutIs(StripsOf(root), target, hidden);
      SplitsAreGrafts(root, tab, Horizontal, direction, 0.0, tab);
      PlacedLiesToward(root, tab, direction, stays, tab, hidden, area);
    } else {
      TakenOutFor(root, tab, target, hidden);
      OtherPane(root, tab, target);
      TakeOutOfWindow(root, tab);
      var left := TakeOut(root, tab).value;
      SplitsAreGrafts(left, target, Horizontal, direction, 0.0, tab);
      PlacedLiesToward(left, target, direction, stays, tab, hidden, area);
    }
  }

  /** The same for a pane grafted in halves, wherever it is. */
  lemma PlacedLiesToward(
    root: Node, target: TabId, direction: FocusDir, stays: Pane, tab: TabId, hidden: bool, area: Rect)
    requires RootSound(root) && Holds(root, target) && StripsOf(root).LaysOut(target, hidden)
    ensures Graft(root, target, Halves(direction, Leaf(stays), Leaf(Only(tab)))).Some?
    ensures
      var whole := Balance(Graft(root, target, Halves(direction, Leaf(stays), Leaf(Only(tab)))).value);
      var areas := CollectPanes(LaidOut(whole, hidden), area);
      var i := StripsOf(root).At(target);
      var stayed, placed := StaysAt(i, direction), PlacedIndex(i, direction);
      && i + 1 < |areas|
      && areas[placed].members == [tab] && areas[stayed].members == stays.members
      && LiesToward(direction, areas[stayed].rect, areas[placed].rect)
  {
    hide FindPane, LiesToward, CollectPanes, Graft, Holding, Balance, RootSound, Strips.Tabs, LaidOut, Halves, PanesOf;
    Found(root, target);
    var i := StripsOf(root).At(target);
    var halves := Halves(direction, Leaf(stays), Leaf(Only(tab)));
    HalvesAre(direction, stays, Only(tab));
    WindowPlaces(root, target, direction, stays, Only(tab), hidden, area);
    GraftInWindow(root, target, halves);
    var grafted := Graft(root, target, halves).value;
    BalanceKeeps(grafted);
    var laid := LaidOut(Balance(grafted), hidden);
    LaidOutPanes(Balance(grafted), hidden);
    AreasArePanes(laid, area, i);
    AreasArePanes(laid, area, i + 1);
  }

  /** The window with `tab` moved into the pane that holds `target`, `at` a place in its strip. */
  ghost predicate TransferredAt(was: Strips, now: Strips, tab: TabId, target: TabId, at: nat) {
    && was.At(tab) < |was.panes|
    && var left := Detached(was, tab);
    && left.At(target) < |left.panes|
    && now == left.With(left.At(target), left.panes[left.At(target)].Receive(tab, at))
  }

  /** The window with `tab` a pane of its own beside the one that holds `target`. */
  ghost predicate PartedInto(was: Strips, now: Strips, tab: TabId, target: TabId, direction: FocusDir) {
    && was.At(tab) < |was.panes|
    && if SamePane(was, tab, target) then
         now == was.Spliced(was.At(tab), Sides(direction, was.panes[was.At(tab)].Remove(tab), Only(tab)))
       else
         var left := Detached(was, tab);
         && left.At(target) < |left.panes|
         && now == left.Spliced(left.At(target), Sides(direction, left.panes[left.At(target)], Only(tab)))
  }

  lemma PartsInPlace(root: Node, tab: TabId, target: TabId, hidden: bool, direction: FocusDir)
    requires Intact(root) && Holds(root, tab) && Holds(root, target) && SamePane(StripsOf(root), tab, target)
    requires |FindPane(root, tab).value.members| > 1
    ensures
      var s, changed := StripsOf(root), SplitOffTab(root, tab, direction);
      && changed.Some? && Intact(changed.value)
      && PartedInto(s, StripsOf(changed.value), tab, target, direction)
      && StripsOf(changed.value).Tabs() == s.Tabs()
      && (StripsOf(changed.value).LaysOut(tab, hidden) <==> s.LaysOut(target, hidden) || OnlyAbove(s, tab))
      && (StripsOf(changed.value).Shows(tab, hidden) <==> s.LaysOut(target, hidden) || OnlyAbove(s, tab))
  {
    hide Intact, Strips.Tabs, Strips.Spliced, Strips.Shows, StripsOf, FindPane, Strips.At, SplitOffTab, Sides,
      Strips.Laid, OnlyAbove;
    SplitOffInWindow(root, tab, hidden, direction);
    SamePaneIs(root, tab, target);
    HeldInPaneToo(root, tab, target);
    SeveralNotAlone(root, tab);
    LaidOutIfShown(StripsOf(SplitOffTab(root, tab, direction).value), tab, hidden);
  }

  lemma LaidOutIfShown(s: Strips, tab: TabId, hidden: bool)
    ensures s.Shows(tab, hidden) ==> s.LaysOut(tab, hidden)
  {
  }

  lemma PartsAway(root: Node, tab: TabId, target: TabId, hidden: bool, direction: FocusDir)
    requires Intact(root) && Holds(root, tab) && Holds(root, target) && !SamePane(StripsOf(root), tab, target)
    ensures TakeOut(root, tab).Some? && Holds(TakeOut(root, tab).value, target)
    ensures
      var s, changed := StripsOf(root), SplitPaneWithTab(TakeOut(root, tab).value, target, tab, direction);
      && changed.Some? && Intact(changed.value)
      && PartedInto(s, StripsOf(changed.value), tab, target, direction)
      && StripsOf(changed.value).Tabs() == s.Tabs()
      && (StripsOf(changed.value).LaysOut(tab, hidden) <==> s.LaysOut(target, hidden) || OnlyAbove(s, tab))
      && (StripsOf(changed.value).Shows(tab, hidden) <==> s.LaysOut(target, hidden) || OnlyAbove(s, tab))
  {
    hide Intact, Strips.Tabs, Strips.Spliced, Strips.Shows, Strips.LaysOut, StripsOf, FindPane, Strips.At,
      SplitPaneWithTab, Sides, Strips.Laid, OnlyAbove, SamePane, TakeOut, Detached;
    PartInWindow(root, tab, target, hidden, direction);
  }

  /** A zoomed window: the focused pane alone, over all of it. */
  function Zoomed(areas: seq<PaneArea>, focused: TabId, viewport: Rect): seq<PaneArea> {
    if areas == [] then []
    else
      (if areas[0].active == focused then [areas[0].(rect := viewport)] else [])
      + Zoomed(areas[1..], focused, viewport)
  }

  lemma {:induction false} ZoomedIsOne(areas: seq<PaneArea>, i: nat, focused: TabId, viewport: Rect)
    requires forall k | 0 <= k < |areas| :: areas[k].active == focused ==> k == i
    ensures Zoomed(areas, focused, viewport) ==
      if i < |areas| && areas[i].active == focused then [areas[i].(rect := viewport)] else []
  {
    if areas != [] {
      if i == 0 {
        ZoomedIsNone(areas[1..], focused, viewport);
      } else {
        ZoomedIsOne(areas[1..], i - 1, focused, viewport);
      }
    }
  }

  lemma {:induction false} ZoomedIsNone(areas: seq<PaneArea>, focused: TabId, viewport: Rect)
    requires forall k | 0 <= k < |areas| :: areas[k].active != focused
    ensures Zoomed(areas, focused, viewport) == []
  {
    if areas != [] {
      ZoomedIsNone(areas[1..], focused, viewport);
    }
  }

  const TWO_TABS := Pane(2, [0, 2], [2, 0])

  /** The panes on the way to a focus left hidden: a dock opened over one pane, and a tab shown in that pane. */
  lemma OnTheWay()
    ensures var s := Strips([Only(0)] + [Only(1)], 1);
      && s == Strips([Only(0), Only(1)], 1) && s.At(0) == 0 && 0 in Only(0).members
      && s.With(0, Only(0).Beside(2).Show(2)) == Strips([TWO_TABS, Only(1)], 1)
    ensures var s := Strips([TWO_TABS, Only(1)], 1);
      s.At(1) == 1 && s.With(1, Only(1).Show(1)) == s
  {
    assert Inserted([0], 1, 2) == [0, 2];
    assert Only(0).Beside(2) == Pane(0, [0, 2], [0]);
    WithoutAbsent([0], 2);
    assert Only(0).Beside(2).Show(2) == TWO_TABS;
    assert [1][1..] == [] && Without([1], 1) == [];
    assert Only(1).Show(1) == Only(1);
    HoldingSum([TWO_TABS], [Only(1)], 1);
    HoldingOne(TWO_TABS, 1);
    assert [TWO_TABS] + [Only(1)] == [TWO_TABS, Only(1)];
  }

  lemma ReturnGoneStale(root: Node)
    requires Intact(root) && StripsOf(root) == Strips([TWO_TABS, Only(1)], 1)
    ensures ReturnsToHidden(root, 1, Some(0))
  {
    hide Pane.Ok, FindPane;
    var s := StripsOf(root);
    Found(root, 0);
    Found(root, 1);
    FoundInDock(root, 0);
    FoundInDock(root, 1);
    IsAt(s, 0, 0);
    IsAt(s, 1, 1);
  }

  /** Asked to show a tab beside one there is not, the layout focuses a tab in no pane. */
  method FocusInNoPane() returns (layout: Layout)
    ensures fresh(layout) && Intact(layout.root) && !layout.Valid() && !layout.Contains(layout.focused)
  {
    hide Intact, Strips.Tabs, Strips.LaysOut, Strips.Shows, StripsOf, Strips.At;
    layout := new Layout.WithRoot(0);
    Found(layout.root, 1);
    Found(layout.root, 5);
    layout.AddTabBeside(5, 1, true);
  }

  /** Putting the dock away can leave the focus on a tab no pane shows: the one it came from, once its pane has come to
      show another. */
  method FocusLeftHidden() returns (layout: Layout)
    ensures fresh(layout) && layout.Valid() && !layout.FocusShown()
  {
    hide Intact, Strips.Tabs, Strips.LaysOut, Strips.Shows, StripsOf, FindPane, Strips.At, HasDock, Holds, InDock,
      Pane.Beside, Pane.Show, Strips.With, ReturnsToHidden, Above, Only;
    OnTheWay();
    layout := new Layout.WithRoot(0);
    Found(layout.root, 0);
    layout.OpenDock(1, 0.3);
    Found(layout.root, 0);
    Found(layout.root, 1);
    Found(layout.root, 2);
    FoundInDock(layout.root, 0);
    FoundInDock(layout.root, 1);
    layout.AddTabBeside(0, 2, true);
    Found(layout.root, 1);
    var found := layout.Focus(1);
    ReturnGoneStale(layout.root);
    layout.HideDock();
  }

  /** Putting the dock away from a zoomed window in the same way leaves nothing laid out at all. */
  method ZoomLeftBlank() returns (layout: Layout)
    ensures fresh(layout) && layout.Valid() && layout.zoomed
    ensures forall viewport :: layout.Panes(viewport) == []
  {
    hide Intact, Strips.Tabs, Strips.LaysOut, Strips.Shows, StripsOf, FindPane, Strips.At, HasDock, Holds, InDock,
      Pane.Beside, Pane.Show, Strips.With, ReturnsToHidden, Above, Only;
    OnTheWay();
    layout := new Layout.WithRoot(0);
    Found(layout.root, 0);
    layout.OpenDock(1, 0.3);
    Found(layout.root, 0);
    Found(layout.root, 1);
    Found(layout.root, 2);
    FoundInDock(layout.root, 0);
    FoundInDock(layout.root, 1);
    layout.AddTabBeside(0, 2, true);
    Found(layout.root, 1);
    var found := layout.Focus(1);
    ReturnGoneStale(layout.root);
    layout.ToggleZoom();
    layout.HideDock();
    forall viewport ensures layout.Panes(viewport) == [] {
      layout.ZoomShowsFocused(viewport);
    }
  }
}

/** The changes to a split tree, as the window's strips see them. */
module WindowLaws {
  import opened Text
  import opened Strips
  import opened StripLaws
  import opened SplitTree
  import opened SplitAreas

  /** A whole window: its tree sound, its panes whole, no tab in it twice. */
  ghost predicate Intact(root: Node) {
    RootSound(root) && StripsOf(root).Ok()
  }

  predicate Holds(root: Node, tab: TabId) {
    FindPane(root, tab).Some?
  }

  /** Whether `tab` is in the dock. */
  predicate InDock(root: Node, tab: TabId) {
    HasDock(root) && Holds(root.second, tab)
  }

  /** The part of the tree laid out: all of it, or what is above a dock put away. */
  function LaidOut(root: Node, hidden: bool): Node {
    if HasDock(root) && hidden then root.first else root
  }

  /** The tabs shown, in tree order. */
  function ShownTabs(node: Node): (shown: seq<TabId>)
    ensures |shown| == |PanesOf(node)|
  {
    seq(|PanesOf(node)|, (i: nat) requires i < |PanesOf(node)| => PanesOf(node)[i].active)
  }

  /** Finding a tab, in the tree and in the strips. */
  lemma Found(root: Node, tab: TabId)
    ensures Holds(root, tab) <==> StripsOf(root).At(tab) < |StripsOf(root).panes|
    ensures Holds(root, tab) ==> FindPane(root, tab).value == StripsOf(root).panes[StripsOf(root).At(tab)]
    ensures Holds(root, tab) <==> tab in StripsOf(root).Tabs()
    ensures StripsOf(root).panes == PanesOf(root)
  {
    FindPaneIsFirst(root, tab);
    HeldIsAt(StripsOf(root), tab);
  }

  lemma FoundInDock(root: Node, tab: TabId)
    requires Intact(root)
    ensures InDock(root, tab) <==>
      StripsOf(root).above <= StripsOf(root).At(tab) < |StripsOf(root).panes|
    ensures InDock(root, tab) ==> Holds(root, tab) && StripsOf(root).HasDock()
    ensures HasDock(root) <==> StripsOf(root).HasDock()
  {
    hide Pane.Ok;
    if HasDock(root) {
      var a, b := PanesOf(root.first), PanesOf(root.second);
      FindPaneIsFirst(root.second, tab);
      FindPaneIsFirst(root, tab);
      HoldingSum(a, b, tab);
      var i := Holding(b, tab);
      if i < |b| {
        assert (a + b)[|a| + i] == b[i];
        IsAt(StripsOf(root), tab, |a| + i);
      }
    }
  }

  lemma LaidOutPanes(root: Node, hidden: bool)
    ensures PanesOf(LaidOut(root, hidden)) == StripsOf(root).panes[..StripsOf(root).Laid(hidden)]
    ensures RootSound(root) ==> RootSound(LaidOut(root, hidden))
  {
  }

  /** The panes of the dock, the last of the window's. */
  lemma DockPanes(root: Node)
    requires HasDock(root)
    ensures PanesOf(root.second) == StripsOf(root).panes[StripsOf(root).above..]
  {
  }

  lemma TwoPanes(direction: Direction, ratio: real, a: Pane, b: Pane)
    requires 0.0 <= ratio <= 1.0
    ensures Sound(Split(direction, false, ratio, Leaf(a), Leaf(b)))
    ensures PanesOf(Split(direction, false, ratio, Leaf(a), Leaf(b))) == [a, b]
  {
  }

  lemma TwoAreas(direction: Direction, ratio: real, a: Pane, b: Pane, area: Rect)
    ensures var halves := area.Split(direction, ratio);
      CollectPanes(Split(direction, false, ratio, Leaf(a), Leaf(b)), area)
        == [PaneArea(a.active, a.members, halves.0), PaneArea(b.active, b.members, halves.1)]
  {
    hide Rect.Split;
  }

  lemma SplitInWindow(root: Node, tab: TabId, hidden: bool, direction: Direction, ratio: real, newTab: TabId)
    requires Intact(root) && Holds(root, tab) && !Holds(root, newTab) && 0.0 <= ratio <= 1.0
    ensures var s, changed := StripsOf(root), SplitAt(root, tab, direction, ratio, newTab); var i := s.At(tab);
      && changed.Some? && Intact(changed.value) && i < |s.panes|
      && StripsOf(changed.value) == s.Spliced(i, [s.panes[i], Only(newTab)])
      && StripsOf(changed.value).Tabs() == s.Tabs() + multiset{newTab}
      && (s.LaysOut(tab, hidden) ==> StripsOf(changed.value).Shows(newTab, hidden))
  {
    hide Strips.Ok, Strips.Spliced, Strips.LaysOut, Strips.Shows, Strips.Tabs, RootSound, Graft, Strips.At, StripsOf,
      FindPane;
    Found(root, tab);
    Found(root, newTab);
    var s := StripsOf(root);
    var i := s.At(tab);
    SplitsAreGrafts(root, tab, direction, Down, ratio, newTab);
    TwoPanes(direction, ratio, s.panes[i], Only(newTab));
    GraftInWindow(root, tab, Split(direction, false, ratio, Leaf(s.panes[i]), Leaf(Only(newTab))));
    SplitsOff(s, i, newTab, [s.panes[i], Only(newTab)], hidden);
    LaysOutIs(s, tab, hidden);
  }

  lemma LaysOutIs(s: Strips, tab: TabId, hidden: bool)
    ensures s.LaysOut(tab, hidden) <==> s.At(tab) < s.Laid(hidden)
  {
  }

  /** Two halves, as strips. */
  function Sides(direction: FocusDir, stays: Pane, placed: Pane): seq<Pane> {
    if direction.Left? || direction.Up? then [placed, stays] else [stays, placed]
  }

  lemma HalvesAre(direction: FocusDir, stays: Pane, placed: Pane)
    ensures PanesOf(Halves(direction, Leaf(stays), Leaf(placed))) == Sides(direction, stays, placed)
    ensures Sound(Halves(direction, Leaf(stays), Leaf(placed)))
  {
  }

  lemma SplitOffInWindow(root: Node, tab: TabId, hidden: bool, direction: FocusDir)
    requires Intact(root) && Holds(root, tab) && |FindPane(root, tab).value.members| > 1
    ensures var s, changed := StripsOf(root), SplitOffTab(root, tab, direction); var i := s.At(tab);
      && changed.Some? && Intact(changed.value) && i < |s.panes|
      && StripsOf(changed.value) == s.Spliced(i, Sides(direction, s.panes[i].Remove(tab), Only(tab)))
      && StripsOf(changed.value).Tabs() == s.Tabs()
      && (StripsOf(changed.value).LaysOut(tab, hidden) <==> s.LaysOut(tab, hidden))
      && (s.LaysOut(tab, hidden) ==> StripsOf(changed.value).Shows(tab, hidden))
  {
    hide Strips.Ok, Strips.Spliced, Strips.LaysOut, Strips.Shows, Strips.Tabs, RootSound, Graft, Strips.At, StripsOf,
      FindPane;
    Found(root, tab);
    var s := StripsOf(root);
    var left := s.panes[s.At(tab)].Remove(tab);
    SplitsAreGrafts(root, tab, Horizontal, direction, 0.0, tab);
    HalvesAre(direction, left, Only(tab));
    GraftInWindow(root, tab, Halves(direction, Leaf(left), Leaf(Only(tab))));
    PartsFrom(s, tab, Sides(direction, left, Only(tab)), hidden);
  }

  lemma SplitWithInWindow(root: Node, target: TabId, tab: TabId, hidden: bool, direction: FocusDir)
    requires Intact(root) && Holds(root, target) && !Holds(root, tab)
    ensures var s, changed := StripsOf(root), SplitPaneWithTab(root, target, tab, direction); var i := s.At(target);
      && changed.Some? && Intact(changed.value) && i < |s.panes|
      && StripsOf(changed.value) == s.Spliced(i, Sides(direction, s.panes[i], Only(tab)))
      && StripsOf(changed.value).Tabs() == s.Tabs() + multiset{tab}
      && (StripsOf(changed.value).LaysOut(tab, hidden) <==> s.LaysOut(target, hidden))
      && (s.LaysOut(target, hidden) ==> StripsOf(changed.value).Shows(tab, hidden))
  {
    hide Strips.Ok, Strips.Spliced, Strips.LaysOut, Strips.Shows, Strips.Tabs, RootSound, Graft, Strips.At, StripsOf,
      FindPane;
    Found(root, target);
    Found(root, tab);
    var s := StripsOf(root);
    var i := s.At(target);
    SplitsAreGrafts(root, target, Horizontal, direction, 0.0, tab);
    HalvesAre(direction, s.panes[i], Only(tab));
    GraftInWindow(root, target, Halves(direction, Leaf(s.panes[i]), Leaf(Only(tab))));
    SplitsOff(s, i, tab, Sides(direction, s.panes[i], Only(tab)), hidden);
    LaysOutIs(s, target, hidden);
  }

  /** A tab out of the tree: out of its strip, or its pane closed with it. */
  function TakeOut(root: Node, tab: TabId): Option<Node>
    requires Holds(root, tab)
  {
    var pane := FindPane(root, tab).value;
    if |pane.members| > 1 then Some(WithPane(root, tab, pane.Remove(tab))) else CloseIn(root, tab)
  }

  /** Only the last tab of the last pane cannot be taken out. */
  predicate Alone(root: Node, tab: TabId) {
    root.Leaf? && |root.pane.members| <= 1 && Holds(root, tab)
  }

  lemma TakeOutOfWindow(root: Node, tab: TabId)
    requires Intact(root) && Holds(root, tab)
    ensures TakeOut(root, tab).None? <==> Alone(root, tab)
    ensures !Alone(root, tab) ==>
      && Intact(TakeOut(root, tab).value)
      && StripsOf(root).At(tab) < |StripsOf(root).panes|
      && (|StripsOf(root).panes[StripsOf(root).At(tab)].members| > 1 || |StripsOf(root).panes| > 1)
      && StripsOf(TakeOut(root, tab).value) == Detached(StripsOf(root), tab)
      && StripsOf(TakeOut(root, tab).value).Tabs() == StripsOf(root).Tabs() - multiset{tab}
      && !Holds(TakeOut(root, tab).value, tab)
  {
    hide Strips.Ok, Strips.Tabs, RootSound, StripsOf, FindPane, Strips.With, Strips.Dropped, Strips.At, WithPane,
      Graft, CloseIn;
    Found(root, tab);
    var pane := FindPane(root, tab).value;
    LeafIsAlone(root);
    LeafFound(root, tab);
    if |pane.members| > 1 {
      PaneInWindow(root, tab, pane.Remove(tab));
      DetachedKeeps(StripsOf(root), tab);
      Found(WithPane(root, tab, pane.Remove(tab)), tab);
    } else {
      CloseInWindow(root, tab);
      if root.Split? {
        DetachedKeeps(StripsOf(root), tab);
        Found(CloseIn(root, tab).value, tab);
      }
    }
  }

  lemma LeafFound(root: Node, tab: TabId)
    requires Holds(root, tab)
    ensures root.Leaf? ==> FindPane(root, tab).value == root.pane
  {
  }

  // ------------------------------------------------------------------------
  // The focus
  // ------------------------------------------------------------------------

  lemma LaidOutIsHeld(root: Node, tab: TabId, hidden: bool)
    requires Intact(root) && StripsOf(root).LaysOut(tab, hidden)
    ensures Holds(root, tab)
  {
    Found(root, tab);
  }

  lemma ShownIsLaidOut(s: Strips, tab: TabId, hidden: bool)
    requires s.Shows(tab, hidden)
    ensures s.LaysOut(tab, hidden)
  {
  }

  /** The first tab shown is in sight. */
  lemma FirstIsShown(root: Node, hidden: bool)
    requires Intact(root)
    ensures StripsOf(root).Shows(ShownTabs(LaidOut(root, hidden))[0], hidden)
  {
    hide Pane.Ok;
    LaidOutPanes(root, hidden);
    ActiveIsMember(StripsOf(root), 0);
  }

  /** Every tab shown is in sight. */
  lemma ShownIsInSight(root: Node, hidden: bool, i: nat)
    requires Intact(root) && i < |ShownTabs(LaidOut(root, hidden))|
    ensures StripsOf(root).Shows(ShownTabs(LaidOut(root, hidden))[i], hidden)
    ensures StripsOf(root).At(ShownTabs(LaidOut(root, hidden))[i]) == i
    ensures |ShownTabs(LaidOut(root, hidden))| == StripsOf(root).Laid(hidden)
  {
    hide Pane.Ok;
    LaidOutPanes(root, hidden);
    ActiveIsMember(StripsOf(root), i);
  }

  /** A tab joining the pane of another, shown there: in sight unless that pane is in a dock put away. */
  lemma JoinsInWindow(root: Node, beside: TabId, newTab: TabId, hidden: bool)
    requires Intact(root) && Holds(root, beside) && !Holds(root, newTab)
    ensures var s := StripsOf(root); var i := s.At(beside);
      && i < |s.panes| && s.panes[i] == FindPane(root, beside).value && s.panes[i].active in s.panes[i].members
    ensures
      var s := StripsOf(root); var i := s.At(beside);
      var changed := WithPane(root, beside, s.panes[i].Beside(newTab).Show(newTab));
      && Intact(changed) && StripsOf(changed) == s.With(i, s.panes[i].Beside(newTab).Show(newTab))
      && StripsOf(changed).Tabs() == s.Tabs() + multiset{newTab}
      && InDock(changed, newTab) == InDock(root, beside)
      && StripsOf(changed).Shows(newTab, hidden && !InDock(root, beside))
      && (s.LaysOut(beside, hidden) ==> StripsOf(changed).Shows(newTab, hidden))
  {
    hide Strips.Ok, Strips.Tabs, RootSound, FindPane, Pane.Ok, Pane.Beside, Pane.Show, WithPane, StripsOf, InDock,
      Strips.At;
    Found(root, beside);
    Found(root, newTab);
    var s := StripsOf(root);
    var i := s.At(beside);
    JoinsShown(s, i, newTab);
    PaneInWindow(root, beside, s.panes[i].Beside(newTab).Show(newTab));
    FoundInDock(root, beside);
    FoundInDock(WithPane(root, beside, s.panes[i].Beside(newTab).Show(newTab)), newTab);
    OkRange(s);
  }

  lemma OkRange(s: Strips)
    requires s.Ok()
    ensures 0 < s.above <= |s.panes|
  {
  }

  lemma JoinsUnseenInWindow(root: Node, beside: TabId, newTab: TabId, focused: TabId, hidden: bool)
    requires Intact(root) && Holds(root, beside) && !Holds(root, newTab) && StripsOf(root).LaysOut(focused, hidden)
    ensures var s := StripsOf(root); var i := s.At(beside);
      && i < |s.panes| && s.panes[i] == FindPane(root, beside).value && s.panes[i].active in s.panes[i].members
    ensures
      var s := StripsOf(root); var i := s.At(beside);
      var joined := s.panes[i].Beside(newTab).(recent := s.panes[i].recent + [newTab]);
      var changed := WithPane(root, beside, joined);
      && Intact(changed) && StripsOf(changed) == s.With(i, joined)
      && StripsOf(changed).Tabs() == s.Tabs() + multiset{newTab}
      && StripsOf(changed).LaysOut(focused, hidden)
      && (s.Shows(focused, hidden) ==> StripsOf(changed).Shows(focused, hidden))
  {
    hide Strips.Ok, Strips.Tabs, RootSound, FindPane, Pane.Ok, Pane.Beside, Pane.Show, WithPane, StripsOf, InDock,
      Strips.Shows, Strips.With;
    Found(root, beside);
    Found(root, newTab);
    LaidOutIsHeld(root, focused, hidden);
    Found(root, focused);
    var s := StripsOf(root);
    var i := s.At(beside);
    JoinsUnseen(s, i, newTab, focused, hidden);
    PaneInWindow(root, beside, s.panes[i].Beside(newTab).(recent := s.panes[i].recent + [newTab]));
  }

  lemma AbsentIsNowhere(root: Node, tab: TabId, hidden: bool)
    requires Intact(root) && !Holds(root, tab)
    ensures !StripsOf(root).LaysOut(tab, hidden) && !InDock(root, tab)
  {
    hide Pane.Ok;
    Found(root, tab);
    FoundInDock(root, tab);
  }

  /** Where the focus is after a tab is taken out. */
  lemma CloseFocusInWindow(root: Node, tab: TabId, focused: TabId, hidden: bool)
    requires Intact(root) && Holds(root, tab) && StripsOf(root).LaysOut(focused, hidden) && !Alone(root, tab)
    ensures TakeOut(root, tab).Some?
    ensures var left := TakeOut(root, tab).value;
      && (focused != tab ==>
            && StripsOf(left).LaysOut(focused, hidden)
            && (StripsOf(root).Shows(focused, hidden) ==> StripsOf(left).Shows(focused, hidden)))
      && (focused == tab ==>
            StripsOf(left).Shows(
              if |FindPane(root, tab).value.members| > 1 then FindPane(root, tab).value.Remove(tab).active
              else ShownTabs(LaidOut(left, hidden))[0],
              hidden))
  {
    hide RootSound, Strips.Ok, Strips.Tabs, FindPane, Pane.Ok, Pane.Remove, StripsOf, Detached, Strips.Shows,
      Strips.LaysOut, ShownTabs, Strips.At, TakeOut, Alone, LaidOut;
    LaidOutIsHeld(root, focused, hidden);
    Found(root, focused);
    Found(root, tab);
    TakeOutOfWindow(root, tab);
    var s, left := StripsOf(root), TakeOut(root, tab).value;
    if focused != tab {
      DetachedOther(s, tab, focused, hidden);
    } else {
      DetachedFocus(s, tab, hidden);
      FirstIsShown(left, hidden);
      DetachedPane(s, tab);
    }
  }

  /** What a pane of several shows once a tab is out of it: the one shown last before, if it was the one shown. */
  lemma ShownNext(root: Node, tab: TabId)
    requires Intact(root) && Holds(root, tab) && |FindPane(root, tab).value.members| > 1
    ensures StripsOf(root).At(tab) < |StripsOf(root).panes|
    ensures var pane := StripsOf(root).panes[StripsOf(root).At(tab)];
      && pane == FindPane(root, tab).value && |pane.recent| > 1
      && pane.Remove(tab).active == if pane.active == tab then pane.recent[1] else pane.active
  {
    hide RootSound, Strips.Tabs, FindPane, Pane.Remove;
    Found(root, tab);
    PaneIn(StripsOf(root), StripsOf(root).At(tab));
    RemoveKeeps(FindPane(root, tab).value, tab);
  }

  /** The first tab shown is the one the first pane shows, wherever the dock is. */
  lemma FirstShownIs(root: Node, hidden: bool)
    requires Intact(root)
    ensures StripsOf(root).panes != [] && ShownTabs(LaidOut(root, hidden)) != []
    ensures ShownTabs(LaidOut(root, hidden))[0] == StripsOf(root).panes[0].active
  {
    hide Pane.Ok, Strips.Tabs;
    LaidOutPanes(root, hidden);
  }

  lemma DetachedPane(s: Strips, tab: TabId)
    requires s.At(tab) < |s.panes|
    ensures |s.panes[s.At(tab)].members| > 1 ==>
      Detached(s, tab) == s.With(s.At(tab), s.panes[s.At(tab)].Remove(tab))
  {
  }

  /** Showing a tab moves none, and brings back into sight a dock that holds it. */
  lemma ShowInWindow(root: Node, tab: TabId, hidden: bool)
    requires Intact(root) && Holds(root, tab)
    ensures var s := StripsOf(root); var i := s.At(tab);
      && i < |s.panes| && s.panes[i] == FindPane(root, tab).value
      && var changed := WithPane(root, tab, s.panes[i].Show(tab));
      && Intact(changed) && StripsOf(changed) == s.With(i, s.panes[i].Show(tab))
      && StripsOf(changed).Tabs() == s.Tabs()
      && InDock(changed, tab) == InDock(root, tab)
      && StripsOf(changed).Shows(tab, hidden && !InDock(root, tab))
      && (s.LaysOut(tab, hidden) ==> StripsOf(changed).Shows(tab, hidden))
  {
    hide Strips.Ok, Strips.Tabs, RootSound, FindPane, Pane.Ok, Pane.Show, WithPane, StripsOf, InDock, Strips.At;
    Found(root, tab);
    var s := StripsOf(root);
    var i := s.At(tab);
    ShownIn(s, tab);
    PaneInWindow(root, tab, s.panes[i].Show(tab));
    FoundInDock(root, tab);
    FoundInDock(WithPane(root, tab, s.panes[i].Show(tab)), tab);
    OkRange(s);
  }

  // ------------------------------------------------------------------------
  // The dock
  // ------------------------------------------------------------------------

  /** A dock opened under a window: its panes above as they were, and the new one below. */
  lemma DockOpens(root: Node, ratio: real, newTab: TabId)
    requires Intact(root) && !HasDock(root) && !Holds(root, newTab) && 0.0 <= ratio <= 1.0
    ensures
      var docked := SplitTree.Split(Horizontal, true, ratio, root, Leaf(Only(newTab)));
      var s := StripsOf(root);
      && Intact(docked) && StripsOf(docked) == Strips(s.panes + [Only(newTab)], |s.panes|)
      && StripsOf(docked).Tabs() == s.Tabs() + multiset{newTab}
      && StripsOf(docked).Shows(newTab, false)
  {
    hide Pane.Ok, FindPane, Holding, HeldBy;
    var docked := SplitTree.Split(Horizontal, true, ratio, root, Leaf(Only(newTab)));
    var s := StripsOf(root);
    Found(root, newTab);
    OnlyOk(newTab);
    SoundBelow(root);
    assert PanesOf(Leaf(Only(newTab))) == [Only(newTab)] && PanesOf(docked) == s.panes + [Only(newTab)];
    HeldSum(s.panes, [Only(newTab)]);
    HeldFirst(Only(newTab), []);
    HeldNone();
    assert [Only(newTab)] + [] == [Only(newTab)];
    OneMore(s.Tabs(), multiset{}, newTab);
    assert multiset(Only(newTab).members) == multiset{newTab};
    assert StripsOf(docked).panes[|s.panes|] == Only(newTab);
    IsAt(StripsOf(docked), newTab, |s.panes|);
  }

  lemma SoundBelow(root: Node)
    requires RootSound(root) && !HasDock(root)
    ensures Sound(root)
  {
  }

  /** The tab the focus goes back to when the dock is put away: the one noted, while it is above the dock. */
  function Above(root: Node, dockReturn: Option<TabId>): Option<TabId> {
    if dockReturn.Some? && Holds(root, dockReturn.value) && !InDock(root, dockReturn.value) then dockReturn else None
  }

  /** Whether the tab the focus would go back to is no longer the one its pane shows. */
  predicate ReturnsToHidden(root: Node, focused: TabId, dockReturn: Option<TabId>) {
    && InDock(root, focused)
    && Above(root, dockReturn).Some?
    && FindPane(root, dockReturn.value).value.active != dockReturn.value
  }

  /** Putting the dock away leaves the focus in a pane in sight, on the tab it shows unless it goes back to one its pane
      no longer shows. */
  lemma DockCloses(root: Node, focused: TabId, dockReturn: Option<TabId>, hidden: bool)
    requires Intact(root) && HasDock(root) && StripsOf(root).LaysOut(focused, hidden)
    ensures
      var back := if InDock(root, focused) then Above(root, dockReturn).GetOr(ShownTabs(root.first)[0]) else focused;
      && StripsOf(root).LaysOut(back, true)
      && (InDock(root, focused) || StripsOf(root).Shows(focused, hidden) ==>
            (StripsOf(root).Shows(back, true) <==> !ReturnsToHidden(root, focused, dockReturn)))
  {
    hide Strips.Ok, RootSound, FindPane, Strips.Tabs, Strips.At, ShownTabs;
    LaidOutIsHeld(root, focused, hidden);
    FoundInDock(root, focused);
    Found(root, focused);
    FirstIsShown(root, true);
    OkRange(StripsOf(root));
    if dockReturn.Some? {
      Found(root, dockReturn.value);
      FoundInDock(root, dockReturn.value);
    }
  }

  /** The dock's own shown tab, in sight once the dock is shown. */
  lemma DockShows(root: Node)
    requires Intact(root) && HasDock(root)
    ensures StripsOf(root).Shows(ShownTabs(root.second)[0], false)
  {
    hide Pane.Ok, Strips.Tabs;
    DockPanes(root);
    ActiveIsMember(StripsOf(root), StripsOf(root).above);
  }

  // ------------------------------------------------------------------------
  // Moving a tab
  // ------------------------------------------------------------------------

  /** A strip in another order, in its place. */
  lemma ReorderInWindow(root: Node, tab: TabId, members: seq<TabId>, focused: TabId, hidden: bool)
    requires Intact(root) && Holds(root, tab) && StripsOf(root).LaysOut(focused, hidden)
    requires multiset(members) == multiset(FindPane(root, tab).value.members)
    ensures
      var s := StripsOf(root); var i := s.At(tab);
      && i < |s.panes| && s.panes[i] == FindPane(root, tab).value
      && var changed := WithPane(root, tab, s.panes[i].(members := members));
      && Intact(changed) && StripsOf(changed) == s.With(i, s.panes[i].(members := members))
      && StripsOf(changed).Tabs() == s.Tabs()
      && StripsOf(changed).LaysOut(focused, hidden)
      && (s.Shows(focused, hidden) ==> StripsOf(changed).Shows(focused, hidden))
  {
    hide Strips.Ok, Strips.Tabs, RootSound, FindPane, WithPane, StripsOf, Strips.At, Pane.Ok;
    Found(root, tab);
    var s := StripsOf(root);
    var i := s.At(tab);
    PaneIn(s, i);
    ReorderedOk(s.panes[i], members);
    SameTabs(s, i, s.panes[i].(members := members));
    PaneInWindow(root, tab, s.panes[i].(members := members));
  }

  lemma ReorderedOk(pane: Pane, members: seq<TabId>)
    requires pane.Ok() && multiset(members) == multiset(pane.members)
    ensures pane.(members := members).Ok()
  {
    assert pane.members[0] in multiset(members);
  }

  lemma SamePaneIs(root: Node, a: TabId, b: TabId)
    ensures SamePane(StripsOf(root), a, b) <==> Holds(root, a) && b in FindPane(root, a).value.members
  {
    Found(root, a);
  }

  lemma OtherPane(root: Node, tab: TabId, target: TabId)
    requires Intact(root) && Holds(root, tab) && Holds(root, target) && !SamePane(StripsOf(root), tab, target)
    ensures tab != target && StripsOf(root).At(tab) != StripsOf(root).At(target) && !Alone(root, tab)
  {
    hide Pane.Ok, FindPane;
    Found(root, tab);
    Found(root, target);
    LeafIsAlone(root);
  }

  /** Once a tab is out, a tab of another pane is still in that pane. */
  lemma TakenOutFor(root: Node, tab: TabId, target: TabId, hidden: bool)
    requires Intact(root) && Holds(root, tab) && Holds(root, target) && !SamePane(StripsOf(root), tab, target)
    ensures TakeOut(root, tab).Some? && Holds(TakeOut(root, tab).value, target)
    ensures var s, left := StripsOf(root), TakeOut(root, tab).value;
      && FindPane(left, target) == FindPane(root, target)
      && s.At(tab) < |s.panes| && StripsOf(left) == Detached(s, tab)
      && (StripsOf(left).LaysOut(target, hidden) <==> s.LaysOut(target, hidden) || OnlyAbove(s, tab))
  {
    hide Strips.Ok, Strips.Tabs, RootSound, FindPane, StripsOf, Strips.At, TakeOut, Alone, Detached, Strips.LaysOut,
      SamePane, OnlyAbove;
    OtherPane(root, tab, target);
    Found(root, tab);
    Found(root, target);
    TakeOutOfWindow(root, tab);
    DetachedOther(StripsOf(root), tab, target, hidden);
    Found(TakeOut(root, tab).value, target);
  }

  /** A tab moved from its pane into another's strip: no tab is lost, and it is in sight unless it went into a dock put
      away that something is still above. */
  lemma TransferInWindow(root: Node, tab: TabId, target: TabId, at: nat, hidden: bool)
    requires Intact(root) && Holds(root, tab) && Holds(root, target) && !SamePane(StripsOf(root), tab, target)
    ensures TakeOut(root, tab).Some? && Holds(TakeOut(root, tab).value, target)
    ensures
      var s, left := StripsOf(root), TakeOut(root, tab).value;
      && s.At(tab) < |s.panes|
      && var t := Detached(s, tab);
      var j := t.At(target);
      && j < |t.panes| && t.panes[j] == FindPane(left, target).value == FindPane(root, target).value
      && var changed := WithPane(left, target, t.panes[j].Receive(tab, at));
      && Intact(changed) && StripsOf(changed) == t.With(j, t.panes[j].Receive(tab, at))
      && StripsOf(changed).Tabs() == s.Tabs()
      && (StripsOf(changed).LaysOut(tab, hidden) <==> s.LaysOut(target, hidden) || OnlyAbove(s, tab))
      && (StripsOf(changed).Shows(tab, hidden) <==> s.LaysOut(target, hidden) || OnlyAbove(s, tab))
  {
    hide Strips.Ok, Strips.Tabs, RootSound, FindPane, StripsOf, TakeOut, Alone, Detached, WithPane, Pane.Receive,
      OnlyAbove, SamePane, Strips.At;
    Found(root, tab);
    Found(root, target);
    OtherPane(root, tab, target);
    TakeOutOfWindow(root, tab);
    TakenOutFor(root, tab, target, hidden);
    var s, left := StripsOf(root), TakeOut(root, tab).value;
    Found(left, target);
    Found(left, tab);
    var t := Detached(s, tab);
    var j := t.At(target);
    Receives(t, j, tab, at);
    PaneInWindow(left, target, t.panes[j].Receive(tab, at));
    AsBefore(s.Tabs(), multiset{tab});
  }

  lemma PartInWindow(root: Node, tab: TabId, target: TabId, hidden: bool, direction: FocusDir)
    requires Intact(root) && Holds(root, tab) && Holds(root, target) && !SamePane(StripsOf(root), tab, target)
    ensures TakeOut(root, tab).Some? && Holds(TakeOut(root, tab).value, target)
    ensures
      var s, left := StripsOf(root), TakeOut(root, tab).value;
      && s.At(tab) < |s.panes|
      && var t := Detached(s, tab);
      var j := t.At(target);
      && j < |t.panes|
      && var changed := SplitPaneWithTab(left, target, tab, direction);
      && changed.Some? && Intact(changed.value)
      && StripsOf(changed.value) == t.Spliced(j, Sides(direction, t.panes[j], Only(tab)))
      && StripsOf(changed.value).Tabs() == s.Tabs()
      && (StripsOf(changed.value).LaysOut(tab, hidden) <==> s.LaysOut(target, hidden) || OnlyAbove(s, tab))
      && (StripsOf(changed.value).Shows(tab, hidden) <==> s.LaysOut(target, hidden) || OnlyAbove(s, tab))
  {
    hide Strips.Ok, Strips.Tabs, RootSound, FindPane, StripsOf, TakeOut, Alone, Detached, OnlyAbove, SamePane,
      SplitPaneWithTab, Strips.Spliced, Strips.At, Strips.LaysOut, Sides;
    Found(root, tab);
    Found(root, target);
    OtherPane(root, tab, target);
    TakeOutOfWindow(root, tab);
    TakenOutFor(root, tab, target, hidden);
    SplitWithInWindow(TakeOut(root, tab).value, target, tab, hidden, direction);
    AsBefore(StripsOf(root).Tabs(), multiset{tab});
  }

  lemma FirstInDock(root: Node)
    requires Intact(root) && HasDock(root)
    ensures InDock(root, ShownTabs(root.second)[0])
  {
    hide Pane.Ok, Strips.Tabs;
    DockPanes(root);
    ActiveIsMember(StripsOf(root), StripsOf(root).above);
    FoundInDock(root, ShownTabs(root.second)[0]);
  }

  /** A tab found is in its pane's strip. */
  lemma HeldInPane(root: Node, tab: TabId)
    requires Holds(root, tab)
    ensures tab in FindPane(root, tab).value.members
    ensures StripsOf(root).At(tab) < |StripsOf(root).panes|
    ensures FindPane(root, tab).value == StripsOf(root).panes[StripsOf(root).At(tab)]
  {
    Found(root, tab);
  }

  lemma HeldInPaneToo(root: Node, tab: TabId, other: TabId)
    requires Intact(root) && Holds(root, tab) && other in FindPane(root, tab).value.members
    ensures Holds(root, other) && StripsOf(root).At(other) == StripsOf(root).At(tab)
  {
    hide Pane.Ok, FindPane;
    Found(root, tab);
    IsAt(StripsOf(root), other, StripsOf(root).At(tab));
    Found(root, other);
  }

  /** Trading places with a neighbour is moving one place along. */
  lemma SwapIsMove(tabs: seq<TabId>, at: nat, to: nat)
    requires at < |tabs| && to < |tabs| && (to == at + 1 || at == to + 1)
    ensures tabs[at := tabs[to]][to := tabs[at]] == Moved(tabs, at, to)
  {
  }

  lemma SeveralNotAlone(root: Node, tab: TabId)
    requires Intact(root) && Holds(root, tab)
    ensures |FindPane(root, tab).value.members| > 1 ==> !OnlyAbove(StripsOf(root), tab)
  {
    hide Pane.Ok, FindPane;
    Found(root, tab);
    if |FindPane(root, tab).value.members| > 1 {
      NotOnlyAbove(StripsOf(root), tab);
    }
  }

  /** A shown tab in sight is one of those shown, and no other is. */
  lemma InSightIsShown(root: Node, tab: TabId, hidden: bool)
    requires Intact(root)
    ensures tab in ShownTabs(LaidOut(root, hidden)) <==> StripsOf(root).Shows(tab, hidden)
  {
    hide Pane.Ok, Strips.Tabs, LaidOut;
    var shown := ShownTabs(LaidOut(root, hidden));
    LaidOutPanes(root, hidden);
    OkRange(StripsOf(root));
    if tab in shown {
      var i :| 0 <= i < |shown| && shown[i] == tab;
      ShownIsInSight(root, hidden, i);
    }
    if StripsOf(root).Shows(tab, hidden) {
      assert shown[StripsOf(root).At(tab)] == tab;
    }
  }

  // ------------------------------------------------------------------------
  // Where panes end up
  // ------------------------------------------------------------------------

  /** A pane placed beside another lies against the side asked in the window as it is laid out, balanced. */
  lemma WindowPlaces(
    root: Node, target: TabId, direction: FocusDir, stays: Pane, placed: Pane, hidden: bool, area: Rect)
    requires RootSound(root) && StripsOf(root).LaysOut(target, hidden) && StripsOf(root).At(target) < |PanesOf(root)|
    ensures Graft(root, target, Halves(direction, Leaf(stays), Leaf(placed))).Some?
    ensures PlacedAt(
      CollectPanes(
        LaidOut(Balance(Graft(root, target, Halves(direction, Leaf(stays), Leaf(placed))).value), hidden), area),
      StripsOf(root).At(target), direction)
  {
    hide Holding, EvenRatio, Rect.Split, PlacedAt;
    var halves := Halves(direction, Leaf(stays), Leaf(placed));
    GraftSplices(root, target, halves);
    if !HasDock(root) {
      BalancedPlaces(root, target, direction, stays, placed, area);
      NoDockHere(root, target, direction, stays, placed);
    } else {
      var a, b := PanesOf(root.first), PanesOf(root.second);
      HoldingSum(a, b, target);
      GraftSplices(root.first, target, halves);
      GraftSplices(root.second, target, halves);
      var whole := Balance(Graft(root, target, halves).value);
      var sides := area.Split(whole.direction, whole.ratio);
      var above := if hidden then area else sides.0;
      if Holding(a, target) < |a| {
        BalancedPlaces(root.first, target, direction, stays, placed, above);
      } else {
        BalanceNodeKeeps(root.first);
        BalancedPlaces(root.second, target, direction, stays, placed, sides.1);
      }
      PlacedInSum(CollectPanes(whole.first, sides.0), CollectPanes(whole.second, sides.1),
                  if Holding(a, target) < |a| then Holding(a, target) else Holding(b, target), direction);
    }
  }

  lemma NoDockHere(root: Node, target: TabId, direction: FocusDir, stays: Pane, placed: Pane)
    requires !HasDock(root) && Graft(root, target, Halves(direction, Leaf(stays), Leaf(placed))).Some?
    ensures !HasDock(Graft(root, target, Halves(direction, Leaf(stays), Leaf(placed))).value)
  {
  }

  /** A pane changed in place changes what its own rectangle shows and no rectangle, in the window as it is laid out. */
  lemma ChangedStaysInside(root: Node, tab: TabId, pane: Pane, hidden: bool, area: Rect)
    requires Holds(root, tab)
    ensures Graft(root, tab, Leaf(pane)).Some?
    ensures
      var areas, i := CollectPanes(LaidOut(root, hidden), area), StripsOf(root).At(tab);
      CollectPanes(LaidOut(Graft(root, tab, Leaf(pane)).value, hidden), area) ==
        if i < |areas| then areas[i := PaneArea(pane.active, pane.members, areas[i].rect)] else areas
  {
    hide CollectPanes, FindPane, Pane.Ok, Holding, PanesOf, Graft;
    Found(root, tab);
    GraftOfWindow(root, tab, Leaf(pane), hidden);
    var laid := LaidOut(root, hidden);
    LaidOutHolding(root, tab, hidden);
    if Holding(PanesOf(laid), tab) < |PanesOf(laid)| {
      GraftStaysInside(laid, tab, Leaf(pane), area);
      var areas, i := CollectPanes(laid, area), Holding(PanesOf(laid), tab);
      LeafArea(pane, areas[i].rect);
      SpliceWithOne(areas, i, PaneArea(pane.active, pane.members, areas[i].rect));
    }
  }

  /** A tab is found where it is in the part laid out, or past all of it. */
  lemma LaidOutHolding(root: Node, tab: TabId, hidden: bool)
    requires Holds(root, tab)
    ensures var laid, i := LaidOut(root, hidden), StripsOf(root).At(tab);
      if Holding(PanesOf(laid), tab) < |PanesOf(laid)| then i == Holding(PanesOf(laid), tab) else i >= |PanesOf(laid)|
  {
    hide Holding, FindPane;
    Found(root, tab);
    if root.Split? {
      HoldingSum(PanesOf(root.first), PanesOf(root.second), tab);
    }
  }

  /** A pane replaced in the window is replaced in the part laid out, if it is there. */
  lemma GraftOfWindow(root: Node, tab: TabId, grafted: Node, hidden: bool)
    requires Holds(root, tab) && (grafted.Split? ==> !grafted.dock)
    ensures Graft(root, tab, grafted).Some?
    ensures var laid := LaidOut(root, hidden);
      LaidOut(Graft(root, tab, grafted).value, hidden)
        == if Holding(PanesOf(laid), tab) < |PanesOf(laid)| then Graft(laid, tab, grafted).GetOr(laid) else laid
  {
    hide Holding, FindPane, PanesOf;
    Found(root, tab);
    GraftSplices(root, tab, grafted);
    if root.Split? {
      GraftSplices(root.first, tab, grafted);
      GraftSplices(root.second, tab, grafted);
    }
  }

  /** Splitting a pane lays its two halves out in its own area of the window, in the ratio asked, and moves no other
      pane; one in a dock put away changes nothing. */
  lemma SplitHalves(
    root: Node, tab: TabId, direction: Direction, ratio: real, newTab: TabId, hidden: bool, area: Rect)
    requires Holds(root, tab)
    ensures SplitAt(root, tab, direction, ratio, newTab).Some?
    ensures
      var areas, i := CollectPanes(LaidOut(root, hidden), area), StripsOf(root).At(tab);
      var after := CollectPanes(LaidOut(SplitAt(root, tab, direction, ratio, newTab).value, hidden), area);
      if i >= |areas| then after == areas
      else
        var halves := areas[i].rect.Split(direction, ratio);
        after == areas[..i] + [areas[i].(rect := halves.0), PaneArea(newTab, [newTab], halves.1)] + areas[i + 1..]
  {
    hide Rect.Split, CollectPanes, Graft, Holding, FindPane, PanesOf, SplitAt, Strips.Tabs;
    Found(root, tab);
    SplitsAreGrafts(root, tab, direction, Down, ratio, newTab);
    var i := StripsOf(root).At(tab);
    var there := PanesOf(root)[i];
    var halves := Split(direction, false, ratio, Leaf(there), Leaf(Only(newTab)));
    GraftOfWindow(root, tab, halves, hidden);
    var laid := LaidOut(root, hidden);
    LaidOutHolding(root, tab, hidden);
    if Holding(PanesOf(laid), tab) < |PanesOf(laid)| {
      GraftStaysInside(laid, tab, halves, area);
      LaidOutPanes(root, hidden);
      AreasArePanes(laid, area, i);
      TwoAreas(direction, ratio, there, Only(newTab), CollectPanes(laid, area)[i].rect);
    }
  }

  /** A tab taken out of a pane of several leaves every rectangle of the window as it was, the dock shown or away. */
  lemma TakeOutStaysInside(root: Node, tab: TabId, hidden: bool, area: Rect)
    requires Holds(root, tab) && |FindPane(root, tab).value.members| > 1
    ensures TakeOut(root, tab).Some?
    ensures
      var areas, i := CollectPanes(LaidOut(root, hidden), area), StripsOf(root).At(tab);
      var left := FindPane(root, tab).value.Remove(tab);
      CollectPanes(LaidOut(TakeOut(root, tab).value, hidden), area) ==
        if i < |areas| then areas[i := PaneArea(left.active, left.members, areas[i].rect)] else areas
  {
    hide CollectPanes, FindPane, Pane.Ok, Graft, LaidOut;
    ChangedStaysInside(root, tab, FindPane(root, tab).value.Remove(tab), hidden, area);
  }

  lemma LeafArea(pane: Pane, area: Rect)
    ensures CollectPanes(Leaf(pane), area) == [PaneArea(pane.active, pane.members, area)]
  {
  }

  /** A pane's only tab taken out of the window as it is laid out gives the pane's area to its sibling, and moves no
      pane outside the two; above a dock put away it gives all of it to the dock. From the dock put away it changes
      nothing. */
  lemma TakeOutFillsIn(root: Node, tab: TabId, hidden: bool, area: Rect)
    requires Intact(root) && Holds(root, tab) && |FindPane(root, tab).value.members| <= 1 && root.Split?
    ensures TakeOut(root, tab) == CloseIn(root, tab) && CloseIn(root, tab).Some?
    ensures
      var laid := LaidOut(root, hidden);
      var before, after :=
        CollectPanes(laid, area), CollectPanes(LaidOut(TakeOut(root, tab).value, hidden), area);
      if !StripsOf(root).LaysOut(tab, hidden) then after == before
      else if LeafHolds(laid, tab) then after == CollectPanes(root.second, area)
      else
        && after == CollectPanes(CloseIn(laid, tab).GetOr(laid), area)
        && exists lo: nat, hi: nat, parent, hole :: FillsIn(laid, tab, area, lo, hi, parent, hole)
  {
    hide CollectPanes, FindPane, Pane.Ok, FillsIn, HeldByOne, CloseIn, Holding, PanesOf;
    Found(root, tab);
    HeldByAtMostOne(PanesOf(root), tab);
    CloseInTakes(root, tab);
    var laid := LaidOut(root, hidden);
    LaidOutHolding(root, tab, hidden);
    LaidOutPanes(root, hidden);
    CloseOfWindow(root, tab, hidden);
    LeafHoldsIt(laid, tab);
    if StripsOf(root).LaysOut(tab, hidden) && !LeafHolds(laid, tab) {
      CloseFillsIn(laid, tab, area);
    }
  }

  lemma CloseOfWindow(root: Node, tab: TabId, hidden: bool)
    requires RootSound(root) && root.Split? && HeldByOne(PanesOf(root), tab) && CloseIn(root, tab).Some?
    requires Holding(PanesOf(root), tab) < |PanesOf(root)|
    ensures
      var laid := LaidOut(root, hidden);
      && HeldByOne(PanesOf(laid), tab)
      && (LeafHolds(laid, tab) ==> laid == root.first)
      && LaidOut(CloseIn(root, tab).value, hidden) ==
           if Holding(PanesOf(laid), tab) == |PanesOf(laid)| then laid
           else if LeafHolds(laid, tab) then root.second
           else CloseIn(laid, tab).GetOr(laid)
  {
    hide Holding, HeldByOne;
    HeldByOneParts(PanesOf(root.first), PanesOf(root.second), tab);
    HoldingSum(PanesOf(root.first), PanesOf(root.second), tab);
    LeafHoldsIt(root.first, tab);
    LeafHoldsIt(root.second, tab);
    CloseInTakes(root.first, tab);
    CloseInTakes(root.second, tab);
    SoundIsRootSound(root.first);
    SoundIsRootSound(root.second);
  }
}

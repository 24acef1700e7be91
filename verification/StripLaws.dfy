/** What each change to a window's strips keeps: every tab, once, in a whole pane, and the focus in sight. */
module StripLaws {
  import opened Text
  import opened Strips

  // ------------------------------------------------------------------------
  // The changes
  // ------------------------------------------------------------------------

  /** The window without `tab`: its pane shows another of its tabs, or goes with it. */
  function Detached(s: Strips, tab: TabId): Strips
    requires s.At(tab) < |s.panes|
  {
    var i := s.At(tab);
    if |s.panes[i].members| > 1 then s.With(i, s.panes[i].Remove(tab)) else s.Dropped(i)
  }

  /** Whether `tab` is the only one above a dock, which closing it would leave alone. */
  predicate OnlyAbove(s: Strips, tab: TabId) {
    s.HasDock() && s.above == 1 && s.panes[0].members == [tab]
  }

  /** Whether two tabs are in one pane. */
  predicate SamePane(s: Strips, a: TabId, b: TabId) {
    s.At(a) < |s.panes| && b in s.panes[s.At(a)].members
  }

  /** A strip with the tab at `from` moved to `to`. */
  function Moved(tabs: seq<TabId>, from: nat, to: nat): seq<TabId>
    requires from < |tabs| && to < |tabs|
  {
    Inserted(Taken(tabs, from), to, tabs[from])
  }

  /** A tab moved along a strip is where it was put, and the others keep their order. */
  lemma MovedKeepsOrder(tabs: seq<TabId>, from: nat, to: nat)
    requires from < |tabs| && to < |tabs|
    ensures var moved := Moved(tabs, from, to);
      && |moved| == |tabs| && moved[to] == tabs[from] && Taken(moved, to) == Taken(tabs, from)
      && multiset(moved) == multiset(tabs)
  {
    TakenHolds(tabs, from);
    InsertedHolds(Taken(tabs, from), to, tabs[from]);
  }

  // ------------------------------------------------------------------------
  // Where tabs are
  // ------------------------------------------------------------------------

  /** A tab is in sight where a laid-out pane holds it. */
  lemma IsAt(s: Strips, tab: TabId, i: nat)
    requires s.Ok() && i < |s.panes| && tab in s.panes[i].members
    ensures s.At(tab) == i && Distinct(multiset(s.panes[i].members))
  {
    hide Pane.Ok;
    HeldOnce(s.panes, tab, i);
  }

  lemma HeldIsAt(s: Strips, tab: TabId)
    ensures tab in s.Tabs() <==> s.At(tab) < |s.panes|
  {
    HeldIsHolding(s.panes, tab);
  }

  lemma ActiveIsMember(s: Strips, i: nat)
    requires s.Ok() && i < |s.panes|
    ensures s.panes[i].active in s.panes[i].members
    ensures s.At(s.panes[i].active) == i
  {
    assert s.panes[i].Ok();
    assert s.panes[i].active in multiset(s.panes[i].recent);
    IsAt(s, s.panes[i].active, i);
  }

  /** A pane changed in place leaves every other pane's tabs where they were. */
  lemma OthersStay(s: Strips, i: nat, pane: Pane, tab: TabId, hidden: bool)
    requires s.Ok() && i < |s.panes| && s.With(i, pane).Ok() && s.At(tab) < |s.panes|
    requires s.At(tab) == i ==> tab in pane.members
    ensures s.With(i, pane).At(tab) == s.At(tab)
    ensures s.With(i, pane).LaysOut(tab, hidden) == s.LaysOut(tab, hidden)
    ensures s.Shows(tab, hidden) && (s.At(tab) == i ==> pane.active == tab) ==> s.With(i, pane).Shows(tab, hidden)
  {
    hide Strips.Ok;
    IsAt(s.With(i, pane), tab, s.At(tab));
  }

  lemma PaneIn(s: Strips, i: nat)
    requires s.Ok() && i < |s.panes|
    ensures s.panes[i].Ok() && Distinct(multiset(s.panes[i].members)) && multiset(s.panes[i].members) <= s.Tabs()
  {
    WithKeeps(s, i, s.panes[i]);
  }

  lemma OneMore(tabs: multiset<TabId>, part: multiset<TabId>, tab: TabId)
    requires Distinct(tabs) && tab !in tabs && part <= tabs
    ensures tabs - part + (part + multiset{tab}) == tabs + multiset{tab} && Distinct(tabs + multiset{tab})
  {
  }

  /** Where the tabs of panes spliced in are found. */
  lemma SplicedAt(s: Strips, i: nat, several: seq<Pane>, at: nat, tab: TabId, hidden: bool)
    requires s.Ok() && i < |s.panes| && several != [] && s.Spliced(i, several).Ok()
    requires at < |several| && tab in several[at].members
    ensures s.Spliced(i, several).At(tab) == i + at
    ensures s.Spliced(i, several).LaysOut(tab, hidden) <==> i < s.Laid(hidden)
    ensures i < s.Laid(hidden) && several[at].active == tab ==> s.Spliced(i, several).Shows(tab, hidden)
  {
    var t := s.Spliced(i, several);
    assert t.panes[i + at] == several[at];
    IsAt(t, tab, i + at);
  }

  // ------------------------------------------------------------------------
  // New tabs
  // ------------------------------------------------------------------------

  /** A tab joining a pane, shown there. */
  lemma JoinsShown(s: Strips, i: nat, tab: TabId)
    requires s.Ok() && i < |s.panes| && tab !in s.Tabs()
    ensures s.panes[i].active in s.panes[i].members
    ensures var t := s.With(i, s.panes[i].Beside(tab).Show(tab));
      && t.Ok() && t.Tabs() == s.Tabs() + multiset{tab} && t.At(tab) == i && t.panes[i].active == tab
  {
    hide Strips.Ok, Strips.Tabs, Pane.Ok, Pane.Beside;
    var pane := s.panes[i];
    ActiveIsMember(s, i);
    PaneIn(s, i);
    assert tab !in multiset(pane.members);
    BesideKeeps(pane, tab);
    BesideHolds(pane, tab);
    TabsDistinct(s);
    OneMore(s.Tabs(), multiset(pane.members), tab);
    WithKeeps(s, i, pane.Beside(tab).Show(tab));
    assert tab in multiset(pane.Beside(tab).members);
    IsAt(s.With(i, pane.Beside(tab).Show(tab)), tab, i);
  }

  lemma TabsDistinct(s: Strips)
    requires s.Ok()
    ensures Distinct(s.Tabs())
  {
  }

  /** A tab joining a pane in the background: no pane shows another tab than it did. */
  lemma JoinsUnseen(s: Strips, i: nat, tab: TabId, focused: TabId, hidden: bool)
    requires s.Ok() && i < |s.panes| && tab !in s.Tabs() && s.At(focused) < |s.panes|
    ensures s.panes[i].active in s.panes[i].members
    ensures var t := s.With(i, s.panes[i].Beside(tab).(recent := s.panes[i].recent + [tab]));
      && t.Ok() && t.Tabs() == s.Tabs() + multiset{tab} && t.At(tab) == i
      && t.LaysOut(focused, hidden) == s.LaysOut(focused, hidden)
      && (s.Shows(focused, hidden) ==> t.Shows(focused, hidden))
  {
    hide Strips.Ok, Strips.Tabs, Pane.Ok, Pane.Beside;
    var pane := s.panes[i];
    ActiveIsMember(s, i);
    PaneIn(s, i);
    assert tab !in multiset(pane.members);
    BesideKeeps(pane, tab);
    BesideHolds(pane, tab);
    var joined := pane.Beside(tab).(recent := pane.recent + [tab]);
    BesideShows(pane, tab);
    TabsDistinct(s);
    OneMore(s.Tabs(), multiset(pane.members), tab);
    WithKeeps(s, i, joined);
    assert tab in multiset(joined.members);
    IsAt(s.With(i, joined), tab, i);
    assert s.At(focused) == i ==> focused in multiset(pane.members) && focused in multiset(joined.members);
    OthersStay(s, i, joined, focused, hidden);
  }

  lemma BesideShows(pane: Pane, tab: TabId)
    requires pane.active in pane.members
    ensures pane.Beside(tab).active == pane.active
  {
  }

  lemma OnlyOk(tab: TabId)
    ensures Only(tab).Ok()
  {
  }

  /** A new pane beside one there is. */
  lemma SplitsOff(s: Strips, i: nat, tab: TabId, several: seq<Pane>, hidden: bool)
    requires s.Ok() && i < |s.panes| && tab !in s.Tabs()
    requires several == [s.panes[i], Only(tab)] || several == [Only(tab), s.panes[i]]
    ensures var t := s.Spliced(i, several);
      && t.Ok() && t.Tabs() == s.Tabs() + multiset{tab}
      && (t.LaysOut(tab, hidden) <==> i < s.Laid(hidden))
      && (i < s.Laid(hidden) ==> t.Shows(tab, hidden))
  {
    hide Strips.Ok, Strips.Tabs, Pane.Ok, Strips.Spliced;
    TwoHeld(several[0], several[1]);
    PaneIn(s, i);
    OnlyOk(tab);
    TabsDistinct(s);
    OneMore(s.Tabs(), multiset(s.panes[i].members), tab);
    SplicedKeeps(s, i, several);
    SplicedAt(s, i, several, if several[0] == Only(tab) then 0 else 1, tab, hidden);
  }

  // ------------------------------------------------------------------------
  // Showing and moving tabs in a pane
  // ------------------------------------------------------------------------

  /** A pane changed in place that holds the same tabs. */
  lemma SameTabs(s: Strips, i: nat, pane: Pane)
    requires s.Ok() && i < |s.panes| && pane.Ok() && multiset(pane.members) == multiset(s.panes[i].members)
    ensures s.With(i, pane).Ok() && s.With(i, pane).Tabs() == s.Tabs()
    ensures forall tab :: s.With(i, pane).At(tab) == s.At(tab)
  {
    hide Pane.Ok, Strips.At;
    PaneIn(s, i);
    TabsDistinct(s);
    WithKeeps(s, i, pane);
    assert s.Tabs() - multiset(pane.members) + multiset(pane.members) == s.Tabs();
    forall tab ensures s.With(i, pane).At(tab) == s.At(tab) {
      SamePlace(s, i, pane, tab);
    }
  }

  lemma SamePlace(s: Strips, i: nat, pane: Pane, tab: TabId)
    requires i < |s.panes| && multiset(pane.members) == multiset(s.panes[i].members)
    ensures s.With(i, pane).At(tab) == s.At(tab)
  {
    assert tab in pane.members <==> tab in multiset(pane.members);
    assert tab in s.panes[i].members <==> tab in multiset(s.panes[i].members);
    assert forall k | 0 <= k < |s.panes| :: tab in s.panes[k].members <==> tab in s.With(i, pane).panes[k].members;
  }

  /** A tab shown in its pane: nothing moves. */
  lemma ShownIn(s: Strips, tab: TabId)
    requires s.Ok() && s.At(tab) < |s.panes|
    ensures var i := s.At(tab); var t := s.With(i, s.panes[i].Show(tab));
      && t.Ok() && t.Tabs() == s.Tabs() && t.At(tab) == i && t.panes[i].active == tab
      && forall other :: t.At(other) == s.At(other)
  {
    hide Strips.Ok, Strips.Tabs;
    PaneIn(s, s.At(tab));
    ShowKeeps(s.panes[s.At(tab)], tab);
    SameTabs(s, s.At(tab), s.panes[s.At(tab)].Show(tab));
  }

  // ------------------------------------------------------------------------
  // Taking a tab out
  // ------------------------------------------------------------------------

  lemma SoleTab(pane: Pane, tab: TabId)
    requires pane.Ok() && tab in pane.members && |pane.members| <= 1
    ensures pane.members == [tab]
  {
  }

  lemma OneLess(tabs: multiset<TabId>, part: multiset<TabId>, tab: TabId)
    requires Distinct(tabs) && tab in part && part <= tabs
    ensures tabs - part + (part - multiset{tab}) == tabs - multiset{tab}
    ensures Distinct(tabs - multiset{tab}) && tab !in tabs - multiset{tab}
  {
  }

  /** A tab taken out is the one tab gone. */
  lemma DetachedKeeps(s: Strips, tab: TabId)
    requires s.Ok() && s.At(tab) < |s.panes|
    requires |s.panes[s.At(tab)].members| > 1 || |s.panes| > 1
    ensures Detached(s, tab).Ok() && Detached(s, tab).Tabs() == s.Tabs() - multiset{tab}
    ensures tab !in Detached(s, tab).Tabs()
  {
    hide Strips.Ok, Strips.Tabs, Pane.Ok, Pane.Remove, Strips.Dropped;
    var i := s.At(tab);
    var pane := s.panes[i];
    PaneIn(s, i);
    TabsDistinct(s);
    assert tab in multiset(pane.members);
    OneLess(s.Tabs(), multiset(pane.members), tab);
    if |pane.members| > 1 {
      RemoveKeeps(pane, tab);
      WithKeeps(s, i, pane.Remove(tab));
    } else {
      SoleTab(pane, tab);
      DroppedKeeps(s, i);
    }
  }

  /** Every other tab stays in its pane, in sight or out of it as it was; only a dock left alone comes into sight. */
  lemma DetachedOther(s: Strips, tab: TabId, other: TabId, hidden: bool)
    requires s.Ok() && s.At(tab) < |s.panes| && s.At(other) < |s.panes| && other != tab
    requires |s.panes[s.At(tab)].members| > 1 || |s.panes| > 1
    ensures var t := Detached(s, tab);
      && t.At(other) < |t.panes|
      && (t.LaysOut(other, hidden) <==> s.LaysOut(other, hidden) || OnlyAbove(s, tab))
      && (s.Shows(other, hidden) ==> t.Shows(other, hidden))
      && (s.At(other) != s.At(tab) ==> t.panes[t.At(other)] == s.panes[s.At(other)])
  {
    hide Strips.Ok, Strips.Tabs, Pane.Ok, Pane.Remove;
    var i, j := s.At(tab), s.At(other);
    var pane := s.panes[i];
    PaneIn(s, i);
    DetachedKeeps(s, tab);
    if |pane.members| > 1 {
      RemoveKeeps(pane, tab);
      assert j == i ==> other in multiset(pane.members) && other in multiset(pane.Remove(tab).members);
      OthersStay(s, i, pane.Remove(tab), other, hidden);
      NotOnlyAbove(s, tab);
    } else {
      SoleTab(pane, tab);
      assert j != i;
      DroppedOther(s, tab, other, hidden);
    }
  }

  lemma NotOnlyAbove(s: Strips, tab: TabId)
    requires s.Ok() && s.At(tab) < |s.panes| && |s.panes[s.At(tab)].members| > 1
    ensures !OnlyAbove(s, tab)
  {
  }

  lemma DroppedOther(s: Strips, tab: TabId, other: TabId, hidden: bool)
    requires s.Ok() && s.At(tab) < |s.panes| && s.At(other) < |s.panes| && s.At(other) != s.At(tab)
    requires s.panes[s.At(tab)].members == [tab] && s.Dropped(s.At(tab)).Ok()
    ensures var t := s.Dropped(s.At(tab));
      && t.At(other) < |t.panes|
      && (t.LaysOut(other, hidden) <==> s.LaysOut(other, hidden) || OnlyAbove(s, tab))
      && (s.Shows(other, hidden) ==> t.Shows(other, hidden))
      && t.panes[t.At(other)] == s.panes[s.At(other)]
  {
    hide Strips.Tabs, Pane.Ok;
    var i, j := s.At(tab), s.At(other);
    var t := s.Dropped(i);
    var k := if j < i then j else j - 1;
    assert t.panes[k] == s.panes[j];
    IsAt(t, other, k);
  }

  /** Where the focus goes when its tab is closed. */
  lemma DetachedFocus(s: Strips, tab: TabId, hidden: bool)
    requires s.Ok() && s.LaysOut(tab, hidden) && s.At(tab) < |s.panes|
    requires |s.panes[s.At(tab)].members| > 1 || |s.panes| > 1
    ensures var i, t := s.At(tab), Detached(s, tab);
      && (|s.panes[i].members| > 1 ==> i < |t.panes| && t.Shows(t.panes[i].active, hidden))
      && (|s.panes[i].members| <= 1 ==> t.panes != [] && t.Shows(t.panes[0].active, hidden))
  {
    hide Strips.Tabs, Pane.Ok, Pane.Remove;
    DetachedKeeps(s, tab);
    var i, t := s.At(tab), Detached(s, tab);
    ActiveIsMember(t, if |s.panes[i].members| > 1 then i else 0);
  }

  // ------------------------------------------------------------------------
  // Putting a tab in
  // ------------------------------------------------------------------------

  /** A tab put into a pane's strip and shown there. */
  lemma Receives(s: Strips, j: nat, tab: TabId, at: nat)
    requires s.Ok() && j < |s.panes| && tab !in s.Tabs()
    ensures var t := s.With(j, s.panes[j].Receive(tab, at));
      && t.Ok() && t.Tabs() == s.Tabs() + multiset{tab} && t.At(tab) == j && t.panes[j].active == tab
  {
    hide Strips.Ok, Strips.Tabs, Pane.Ok, Pane.Receive;
    var pane := s.panes[j];
    PaneIn(s, j);
    assert tab !in multiset(pane.members);
    ReceiveKeeps(pane, tab, at);
    TabsDistinct(s);
    OneMore(s.Tabs(), multiset(pane.members), tab);
    WithKeeps(s, j, pane.Receive(tab, at));
    assert tab in multiset(pane.Receive(tab, at).members);
    IsAt(s.With(j, pane.Receive(tab, at)), tab, j);
  }

  lemma AsBefore(tabs: multiset<TabId>, part: multiset<TabId>)
    requires part <= tabs
    ensures tabs - part + part == tabs
  {
  }

  lemma TwoFor(s: Strips, i: nat, a: Pane, b: Pane)
    requires s.Ok() && i < |s.panes| && a.Ok() && b.Ok()
    requires multiset(a.members) + multiset(b.members) == multiset(s.panes[i].members)
    ensures s.Spliced(i, [a, b]).Ok() && s.Spliced(i, [a, b]).Tabs() == s.Tabs()
  {
    hide Strips.Ok, Strips.Tabs, Pane.Ok, Strips.Spliced;
    PaneIn(s, i);
    TabsDistinct(s);
    TwoHeld(a, b);
    AsBefore(s.Tabs(), multiset(s.panes[i].members));
    SplicedKeeps(s, i, [a, b]);
  }

  /** A tab split off its pane's others into a pane of its own beside them. */
  lemma PartsFrom(s: Strips, tab: TabId, several: seq<Pane>, hidden: bool)
    requires s.Ok() && s.At(tab) < |s.panes| && |s.panes[s.At(tab)].members| > 1
    requires var left := s.panes[s.At(tab)].Remove(tab); several == [left, Only(tab)] || several == [Only(tab), left]
    ensures var t := s.Spliced(s.At(tab), several);
      && t.Ok() && t.Tabs() == s.Tabs()
      && (t.LaysOut(tab, hidden) <==> s.LaysOut(tab, hidden))
      && (s.LaysOut(tab, hidden) ==> t.Shows(tab, hidden))
  {
    hide Strips.Ok, Strips.Tabs, Pane.Ok, Pane.Remove, Strips.Spliced;
    var i := s.At(tab);
    var pane, left := s.panes[i], s.panes[i].Remove(tab);
    PaneIn(s, i);
    RemoveKeeps(pane, tab);
    OnlyOk(tab);
    AsBefore(multiset(pane.members), multiset{tab});
    if several[0] == left {
      TwoFor(s, i, left, Only(tab));
      SplicedAt(s, i, several, 1, tab, hidden);
    } else {
      TwoFor(s, i, Only(tab), left);
      SplicedAt(s, i, several, 0, tab, hidden);
    }
  }
}

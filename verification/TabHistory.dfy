/** Which tab comes back when the one in front is closed, over any run of tabs shown. */
module TabHistory {
  import opened Text
  import opened Strips
  import opened StripLaws
  import opened SplitTree
  import opened WindowLaws
  import opened Recency
  import opened Layout

  /** Whether every pane holds the tabs it did, in the order a run of shows leaves them in. */
  ghost predicate InOrder(shows: seq<TabId>, was: Strips, now: Strips) {
    && |now.panes| == |was.panes| && now.above == was.above
    && forall i | 0 <= i < |was.panes| :: ShownInOrder(shows, was.panes[i], now.panes[i])
  }

  lemma InOrderAtFirst(was: Strips)
    ensures InOrder([], was, was)
  {
    forall i | 0 <= i < |was.panes| ensures ShownInOrder([], was.panes[i], was.panes[i]) {
      NothingShown(was.panes[i]);
    }
  }

  lemma InOrderNext(shows: seq<TabId>, was: Strips, now: Strips, tab: TabId)
    requires InOrder(shows, was, now) && now.Ok() && now.At(tab) < |now.panes|
    ensures InOrder(shows + [tab], was, now.With(now.At(tab), now.panes[now.At(tab)].Show(tab)))
  {
    hide ShownInOrder, Pane.Ok, Pane.Show, Strips.At;
    var i := now.At(tab);
    forall j | 0 <= j < |was.panes|
      ensures ShownInOrder(shows + [tab], was.panes[j], now.With(i, now.panes[i].Show(tab)).panes[j]) {
      if j == i {
        ShownHere(shows, was.panes[j], now.panes[j], tab);
      } else {
        HeldByNoOther(shows, was, now, tab, j);
        ShownElsewhere(shows, was.panes[j], now.panes[j], tab);
      }
    }
  }

  lemma HeldByNoOther(shows: seq<TabId>, was: Strips, now: Strips, tab: TabId, j: nat)
    requires InOrder(shows, was, now) && now.Ok() && j < |now.panes| && j != now.At(tab)
    ensures tab !in was.panes[j].members
  {
    assert ShownInOrder(shows, was.panes[j], now.panes[j]);
    if tab in now.panes[j].members {
      HeldOnce(now.panes, tab, j);
    }
  }

  lemma SamePlaces(shows: seq<TabId>, was: Strips, now: Strips, tab: TabId)
    requires InOrder(shows, was, now)
    ensures now.At(tab) == was.At(tab)
  {
    hide Ahead, MoreRecent;
    assert forall i | 0 <= i < |was.panes| :: now.panes[i].members == was.panes[i].members by {
      forall i | 0 <= i < |was.panes| ensures now.panes[i].members == was.panes[i].members {
        assert ShownInOrder(shows, was.panes[i], now.panes[i]);
      }
    }
    SameHolding(was.panes, now.panes, tab);
  }

  lemma {:induction false} SameHolding(a: seq<Pane>, b: seq<Pane>, tab: TabId)
    requires |a| == |b| && forall i | 0 <= i < |a| :: a[i].members == b[i].members
    ensures Holding(a, tab) == Holding(b, tab)
  {
    if a != [] {
      assert a[0].members == b[0].members;
      forall i | 0 <= i < |a| - 1 ensures a[1..][i].members == b[1..][i].members {
        assert a[i + 1].members == b[i + 1].members;
      }
      SameHolding(a[1..], b[1..], tab);
    }
  }

  /** Tabs focused one after another leave every pane's tabs in order of when each was last in front. */
  method FocusEach(layout: Layout, shows: seq<TabId>)
    requires layout.Valid() && forall tab | tab in shows :: tab in layout.Tabs()
    modifies layout
    ensures layout.Valid() && layout.Tabs() == old(layout.Tabs())
    ensures InOrder(shows, old(layout.Window()), layout.Window())
    ensures shows != [] ==> layout.focused == shows[|shows| - 1] && layout.FocusShown()
  {
    hide Intact, Strips.Tabs, Strips.LaysOut, Strips.Shows, StripsOf, FindPane, Strips.At, Pane.Show, InDock, InOrder;
    ghost var was := layout.Window();
    InOrderAtFirst(was);
    for at := 0 to |shows|
      invariant layout.Valid() && layout.Tabs() == old(layout.Tabs())
      invariant InOrder(shows[..at], was, layout.Window())
      invariant at > 0 ==> layout.focused == shows[at - 1] && layout.FocusShown()
    {
      var tab := shows[at];
      assert tab in shows;
      Found(layout.root, tab);
      IntactOk(layout.root);
      InOrderNext(shows[..at], was, layout.Window(), tab);
      assert shows[..at + 1] == shows[..at] + [tab];
      var _ := layout.Focus(tab);
    }
    assert shows[..|shows|] == shows;
  }

  lemma IntactOk(root: Node)
    requires Intact(root)
    ensures StripsOf(root).Ok()
  {
  }

  /** The tab in front closed after any run of shows: of the others in its pane the one shown most recently before it
      comes to the front and takes the focus. */
  method CloseInFront(layout: Layout, shows: seq<TabId>) returns (closed: bool)
    requires layout.Valid() && shows != [] && forall tab | tab in shows :: tab in layout.Tabs()
    modifies layout
    ensures
      var last := shows[|shows| - 1];
      var was := old(layout.Window());
      was.At(last) < |was.panes| &&
      var pane := was.panes[was.At(last)];
      |pane.members| > 1 ==>
        && closed && layout.Valid() && layout.FocusShown()
        && layout.focused in pane.members && layout.focused != last
        && forall other | other in pane.members && other != last && other != layout.focused ::
             MoreRecent(shows, pane.recent, layout.focused, other)
  {
    hide Intact, Strips.Tabs, Strips.LaysOut, Strips.Shows, StripsOf, FindPane, Strips.At, Pane.Show, InDock, InOrder,
      Alone, TakeOut, Detached, MoreRecent, Ahead;
    ghost var was := layout.Window();
    var last := shows[|shows| - 1];
    assert last in shows;
    Found(layout.root, last);
    FocusEach(layout, shows);
    Found(layout.root, last);
    ghost var now := layout.Window();
    IntactOk(layout.root);
    SamePlaces(shows, was, now, last);
    InOrderAt(shows, was, now, now.At(last));
    if |was.panes[was.At(last)].members| > 1 {
      NotAlone(layout.root, last);
      FrontOf(layout.root, last, layout.dockHidden);
      NextInOrder(shows, was, now, last);
    }
    closed := layout.Close(last);
  }

  lemma InOrderAt(shows: seq<TabId>, was: Strips, now: Strips, i: nat)
    requires InOrder(shows, was, now)
    ensures i < |was.panes| ==> i < |now.panes| && ShownInOrder(shows, was.panes[i], now.panes[i])
  {
  }

  lemma NotAlone(root: Node, tab: TabId)
    requires Intact(root) && Holds(root, tab)
    requires var s := StripsOf(root); s.At(tab) < |s.panes| && |s.panes[s.At(tab)].members| > 1
    ensures !Alone(root, tab)
  {
    Found(root, tab);
  }

  lemma FrontOf(root: Node, tab: TabId, hidden: bool)
    requires StripsOf(root).Shows(tab, hidden)
    ensures var s := StripsOf(root); s.At(tab) < |s.panes| && s.panes[s.At(tab)].active == tab
  {
  }

  /** The second most recent of a pane is ahead of all but the one in front. */
  lemma NextInOrder(shows: seq<TabId>, was: Strips, now: Strips, tab: TabId)
    requires InOrder(shows, was, now) && now.Ok() && now.At(tab) < |now.panes| && now.At(tab) == was.At(tab)
    requires now.panes[now.At(tab)].active == tab && |now.panes[now.At(tab)].members| > 1
    ensures var pane, before := now.panes[now.At(tab)], was.panes[was.At(tab)];
      && |pane.recent| > 1 && pane.recent[1] in before.members && pane.recent[1] != tab
      && forall other | other in before.members && other != tab && other != pane.recent[1] ::
           MoreRecent(shows, before.recent, pane.recent[1], other)
  {
    hide Ahead, MoreRecent;
    var i := now.At(tab);
    var pane, before := now.panes[i], was.panes[i];
    assert ShownInOrder(shows, before, pane);
    PaneIn(now, i);
    TwoRecent(pane);
    forall other | other in before.members && other != tab && other != pane.recent[1]
      ensures MoreRecent(shows, before.recent, pane.recent[1], other) {
      SecondIsAhead(pane, other);
    }
  }

  lemma TwoRecent(pane: Pane)
    requires pane.Ok() && |pane.members| > 1 && Distinct(multiset(pane.members))
    ensures |pane.recent| > 1 && pane.recent[1] in pane.members && pane.recent[1] != pane.active
  {
    assert |multiset(pane.recent)| == |multiset(pane.members)|;
    assert pane.recent[1] in multiset(pane.recent);
    assert pane.recent == [pane.recent[0], pane.recent[1]] + pane.recent[2..];
  }
}

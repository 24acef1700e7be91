/** Which tab a pane shows next: the one shown last before the one that goes. */
module Recency {
  import opened Text
  import opened Strips
  import opened Snapshots

  /** Whether `x` comes before `y` in a list. */
  predicate Ahead(tabs: seq<TabId>, x: TabId, y: TabId) {
    Position(tabs, x) < Position(tabs, y)
  }

  // ------------------------------------------------------------------------
  // One tab shown
  // ------------------------------------------------------------------------

  /** Dropping a tab keeps the order of the others. */
  lemma {:induction false} WithoutKeepsOrder(tabs: seq<TabId>, tab: TabId, x: TabId, y: TabId)
    requires x != tab && y != tab
    ensures Ahead(Without(tabs, tab), x, y) <==> Ahead(tabs, x, y)
  {
    if tabs != [] {
      WithoutKeepsOrder(tabs[1..], tab, x, y);
      WithoutFirst(tabs, tab);
    }
  }

  lemma WithoutFirst(tabs: seq<TabId>, tab: TabId)
    requires tabs != []
    ensures tabs[0] == tab ==> Without(tabs, tab) == Without(tabs[1..], tab)
    ensures tabs[0] != tab ==>
      Without(tabs, tab) != [] && Without(tabs, tab)[0] == tabs[0] && Without(tabs, tab)[1..] == Without(tabs[1..], tab)
  {
  }

  lemma AheadAfterFirst(first: TabId, rest: seq<TabId>, x: TabId, y: TabId)
    ensures x != first && y != first ==> (Ahead([first] + rest, x, y) <==> Ahead(rest, x, y))
    ensures y != first ==> Ahead([first] + rest, first, y)
    ensures x != first ==> !Ahead([first] + rest, x, first)
  {
    assert ([first] + rest)[1..] == rest;
  }

  /** A tab shown goes to the front, and of any two others the one shown more recently stays so. */
  lemma ShowKeepsOrder(pane: Pane, tab: TabId, x: TabId, y: TabId)
    requires x != y
    ensures x != tab && y != tab ==> (Ahead(pane.Show(tab).recent, x, y) <==> Ahead(pane.recent, x, y))
    ensures x == tab ==> Ahead(pane.Show(tab).recent, x, y)
    ensures y == tab ==> !Ahead(pane.Show(tab).recent, x, y)
  {
    AheadAfterFirst(tab, Without(pane.recent, tab), x, y);
    if x != tab && y != tab {
      WithoutKeepsOrder(pane.recent, tab, x, y);
    }
  }

  // ------------------------------------------------------------------------
  // Any run of tabs shown
  // ------------------------------------------------------------------------

  /** When `x` was last among those shown: -1 for never. */
  function LastAt(shows: seq<TabId>, x: TabId): (at: int)
    ensures -1 <= at < |shows|
    ensures at >= 0 ==> shows[at] == x
    ensures forall j | at < j < |shows| :: shows[j] != x
  {
    if shows == [] then -1
    else if shows[|shows| - 1] == x then |shows| - 1
    else LastAt(shows[..|shows| - 1], x)
  }

  /** Whether `x` was shown more recently than `y`: later in the run, or, where the run shows neither, before it. */
  predicate MoreRecent(shows: seq<TabId>, recent: seq<TabId>, x: TabId, y: TabId) {
    || LastAt(shows, x) > LastAt(shows, y)
    || (LastAt(shows, x) == LastAt(shows, y) == -1 && Ahead(recent, x, y))
  }

  lemma LastAtNext(shows: seq<TabId>, tab: TabId, x: TabId)
    ensures LastAt(shows + [tab], x) == if x == tab then |shows| else LastAt(shows, x)
  {
    assert (shows + [tab])[..|shows|] == shows;
  }

  /** One more tab shown, in this pane or another. */
  lemma OneMoreShown(
    shows: seq<TabId>, before: seq<TabId>, pane: Pane, tab: TabId, x: TabId, y: TabId)
    requires x != y && (Ahead(pane.recent, x, y) <==> MoreRecent(shows, before, x, y))
    ensures Ahead(pane.Show(tab).recent, x, y) <==> MoreRecent(shows + [tab], before, x, y)
    ensures x != tab && y != tab ==> (Ahead(pane.recent, x, y) <==> MoreRecent(shows + [tab], before, x, y))
  {
    hide Ahead;
    LastAtNext(shows, tab, x);
    LastAtNext(shows, tab, y);
    ShowKeepsOrder(pane, tab, x, y);
  }

  /** Whether a pane's tabs are in the order a run of shows leaves them in. */
  ghost predicate ShownInOrder(shows: seq<TabId>, before: Pane, after: Pane) {
    && after.members == before.members
    && forall x, y | x in before.members && y in before.members && x != y ::
         Ahead(after.recent, x, y) <==> MoreRecent(shows, before.recent, x, y)
  }

  lemma NothingShown(pane: Pane)
    ensures ShownInOrder([], pane, pane)
  {
  }

  lemma ShownHere(shows: seq<TabId>, before: Pane, after: Pane, tab: TabId)
    requires ShownInOrder(shows, before, after)
    ensures ShownInOrder(shows + [tab], before, after.Show(tab))
  {
    hide Ahead, MoreRecent;
    forall x, y | x in before.members && y in before.members && x != y
      ensures Ahead(after.Show(tab).recent, x, y) <==> MoreRecent(shows + [tab], before.recent, x, y) {
      OneMoreShown(shows, before.recent, after, tab, x, y);
    }
  }

  lemma ShownElsewhere(shows: seq<TabId>, before: Pane, after: Pane, tab: TabId)
    requires ShownInOrder(shows, before, after) && tab !in before.members
    ensures ShownInOrder(shows + [tab], before, after)
  {
    hide Ahead, MoreRecent;
    forall x, y | x in before.members && y in before.members && x != y
      ensures Ahead(after.recent, x, y) <==> MoreRecent(shows + [tab], before.recent, x, y) {
      OneMoreShown(shows, before.recent, after, tab, x, y);
    }
  }

  /** The second of a list that names no tab twice is ahead of all but the first. */
  lemma SecondIsAhead(pane: Pane, y: TabId)
    requires pane.Ok() && Distinct(multiset(pane.members)) && |pane.recent| > 1
    requires y in pane.members && y != pane.recent[0] && y != pane.recent[1]
    ensures Ahead(pane.recent, pane.recent[1], y)
  {
    var recent := pane.recent;
    assert y in multiset(recent) && recent[1..][0] == recent[1];
  }

  // ------------------------------------------------------------------------
  // Tabs that join
  // ------------------------------------------------------------------------

  /** A tab added beside the one shown stands right after it, and the others keep their order. */
  lemma BesideLands(pane: Pane, tab: TabId)
    requires pane.active in pane.members && tab !in pane.members
    ensures var joined := pane.Beside(tab);
      && joined.active == pane.active && joined.recent == pane.recent
      && Position(joined.members, tab) == Position(joined.members, pane.active) + 1
      && Without(joined.members, tab) == pane.members
  {
    hide Position, Without, Inserted;
    var at := Position(pane.members, pane.active) + 1;
    InsertedLands(pane.members, at, tab);
    InsertedBefore(pane.members, at, tab);
    var joined := Inserted(pane.members, at, tab);
    assert joined[..at - 1] == joined[..at][..at - 1] && pane.members[..at - 1] == pane.members[..at][..at - 1];
    assert joined[at - 1] == joined[..at][at - 1];
    PositionIn(joined, pane.active, at - 1);
  }

  lemma InsertedBefore(tabs: seq<TabId>, at: nat, tab: TabId)
    requires at <= |tabs|
    ensures |Inserted(tabs, at, tab)| == |tabs| + 1 && Inserted(tabs, at, tab)[..at] == tabs[..at]
  {
  }

  lemma PositionIn(tabs: seq<TabId>, tab: TabId, at: nat)
    requires at < |tabs| && tabs[at] == tab && tab !in tabs[..at]
    ensures Position(tabs, tab) == at
  {
  }

  lemma {:induction false} WithoutSum(a: seq<TabId>, b: seq<TabId>, tab: TabId)
    ensures Without(a + b, tab) == Without(a, tab) + Without(b, tab)
  {
    if a == [] {
      assert a + b == b;
    } else {
      assert (a + b)[1..] == a[1..] + b;
      WithoutSum(a[1..], b, tab);
    }
  }

  lemma InsertedLands(tabs: seq<TabId>, at: nat, tab: TabId)
    requires at <= |tabs| && tab !in tabs
    ensures Position(Inserted(tabs, at, tab), tab) == at && Without(Inserted(tabs, at, tab), tab) == tabs
  {
    PositionIn(Inserted(tabs, at, tab), tab, at);
    WithoutSum(tabs[..at] + [tab], tabs[at..], tab);
    WithoutSum(tabs[..at], [tab], tab);
    WithoutAbsent(tabs[..at], tab);
    WithoutAbsent(tabs[at..], tab);
    assert Without([tab], tab) == [] by {
      assert [tab][1..] == [];
    }
    assert tabs[..at] + tabs[at..] == tabs;
  }

  /** A tab received is shown, stands where it was dropped or at the end, and the others keep their order, in the strip
      and in how recently they were shown. */
  lemma ReceiveLands(pane: Pane, tab: TabId, at: nat, x: TabId, y: TabId)
    requires tab !in pane.members && x != y && x != tab && y != tab
    ensures var received := pane.Receive(tab, at);
      && received.active == tab
      && Position(received.members, tab) == (if at < |pane.members| then at else |pane.members|)
      && Without(received.members, tab) == pane.members
      && (Ahead(received.recent, x, y) <==> Ahead(pane.recent, x, y))
  {
    InsertedLands(pane.members, Least(at, |pane.members|), tab);
    ShowKeepsOrder(Pane(pane.active, Inserted(pane.members, Least(at, |pane.members|), tab), pane.recent), tab, x, y);
  }

  /** A pane restored takes its shown tab as the most recent, and the others in strip order. */
  lemma RestoredOrder(saved: PaneTree, x: TabId, y: TabId)
    requires saved.members != [] && x != y
    ensures var pane := FromTree(saved).value;
      && (x == pane.active ==> Ahead(pane.recent, x, y))
      && (x != pane.active && y != pane.active ==> (Ahead(pane.recent, x, y) <==> Ahead(saved.members, x, y)))
  {
    var active := FromTree(saved).value.active;
    AheadAfterFirst(active, Without(saved.members, active), x, y);
    if x != active && y != active {
      WithoutKeepsOrder(saved.members, active, x, y);
    }
  }
}

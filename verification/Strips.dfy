/** The window's panes as a flat list: each a strip of tabs with one of them shown. */
module Strips {
  import opened Text

  /** A tab's number, allotted by the owner. */
  type TabId = nat

  // ------------------------------------------------------------------------
  // Panes
  // ------------------------------------------------------------------------

  /** A pane: the tab it shows, its tabs in strip order, and its tabs from the most recently shown. */
  datatype Pane = Pane(active: TabId, members: seq<TabId>, recent: seq<TabId>) {
    /** Never empty, and `recent` its tabs in another order, the one shown first. */
    ghost predicate Ok() {
      && members != []
      && multiset(recent) == multiset(members)
      && recent != [] && recent[0] == active
    }

    function Show(tab: TabId): Pane {
      Pane(tab, members, [tab] + Without(recent, tab))
    }

    function Remove(tab: TabId): Pane {
      var left := Without(recent, tab);
      Pane(if active == tab && left != [] then left[0] else active, Without(members, tab), left)
    }

    /** The strip with `tab` right after the tab shown, not yet among the recent. */
    function Beside(tab: TabId): Pane
      requires active in members
    {
      Pane(active, Inserted(members, Position(members, active) + 1, tab), recent)
    }

    /** The strip with `tab` put in at `at`, and shown. */
    function Receive(tab: TabId, at: nat): Pane {
      Pane(active, Inserted(members, Least(at, |members|), tab), recent).Show(tab)
    }
  }

  function Only(tab: TabId): Pane {
    Pane(tab, [tab], [tab])
  }

  function Least(a: nat, b: nat): nat {
    if a < b then a else b
  }

  function Without(tabs: seq<TabId>, tab: TabId): seq<TabId> {
    if tabs == [] then []
    else (if tabs[0] == tab then [] else [tabs[0]]) + Without(tabs[1..], tab)
  }

  /** Where `tab` is; the end when it is not there. */
  function Position(tabs: seq<TabId>, tab: TabId): (at: nat)
    ensures at <= |tabs| && tab !in tabs[..at]
    ensures at < |tabs| <==> tab in tabs
    ensures at < |tabs| ==> tabs[at] == tab
  {
    if tabs == [] || tabs[0] == tab then 0 else 1 + Position(tabs[1..], tab)
  }

  function Inserted<T>(s: seq<T>, at: nat, x: T): seq<T>
    requires at <= |s|
  {
    s[..at] + [x] + s[at..]
  }

  function Taken<T>(s: seq<T>, at: nat): seq<T>
    requires at < |s|
  {
    s[..at] + s[at + 1..]
  }

  /** One item replaced by several. */
  function Splice<T>(s: seq<T>, at: nat, several: seq<T>): seq<T>
    requires at < |s|
  {
    s[..at] + several + s[at + 1..]
  }

  lemma SpliceOne<T>(x: T, several: seq<T>)
    ensures Splice([x], 0, several) == several
  {
  }

  lemma SpliceWithOne<T>(s: seq<T>, at: nat, x: T)
    requires at < |s|
    ensures Splice(s, at, [x]) == s[at := x]
  {
  }

  lemma SpliceSum<T>(a: seq<T>, b: seq<T>, at: nat, several: seq<T>)
    requires at < |a| + |b|
    ensures Splice(a + b, at, several) ==
      if at < |a| then Splice(a, at, several) + b else a + Splice(b, at - |a|, several)
  {
  }

  lemma InsertedHolds<T>(s: seq<T>, at: nat, x: T)
    requires at <= |s|
    ensures multiset(Inserted(s, at, x)) == multiset(s) + multiset{x}
  {
    assert s == s[..at] + s[at..];
  }

  lemma TakenHolds<T>(s: seq<T>, at: nat)
    requires at < |s|
    ensures multiset(Taken(s, at)) == multiset(s) - multiset{s[at]}
  {
    assert s == s[..at] + [s[at]] + s[at + 1..];
  }

  lemma {:induction false} WithoutHolds(tabs: seq<TabId>, tab: TabId)
    ensures multiset(Without(tabs, tab)) == multiset(tabs)[tab := 0]
  {
    if tabs != [] {
      WithoutHolds(tabs[1..], tab);
      assert tabs == [tabs[0]] + tabs[1..];
    }
  }

  lemma {:induction false} WithoutAbsent(tabs: seq<TabId>, tab: TabId)
    requires tab !in tabs
    ensures Without(tabs, tab) == tabs
  {
    if tabs != [] {
      WithoutAbsent(tabs[1..], tab);
    }
  }

  /** In a strip that names no tab twice, dropping a tab takes it out where it is. */
  lemma {:induction false} WithoutIsTaken(tabs: seq<TabId>, tab: TabId)
    requires multiset(tabs)[tab] == 1
    ensures Without(tabs, tab) == Taken(tabs, Position(tabs, tab))
  {
    assert tab in tabs;
    assert multiset([tabs[0]] + tabs[1..]) == multiset{tabs[0]} + multiset(tabs[1..]);
    assert [tabs[0]] + tabs[1..] == tabs;
    if tabs[0] == tab {
      assert tab !in tabs[1..] by {
        assert multiset(tabs[1..])[tab] == 0;
      }
      WithoutAbsent(tabs[1..], tab);
    } else {
      WithoutIsTaken(tabs[1..], tab);
      TakenLater(tabs[0], tabs[1..], Position(tabs[1..], tab));
    }
  }

  lemma TakenLater(first: TabId, rest: seq<TabId>, at: nat)
    requires at < |rest|
    ensures Taken([first] + rest, 1 + at) == [first] + Taken(rest, at)
  {
  }

  ghost predicate Distinct(tabs: multiset<TabId>) {
    forall tab :: tabs[tab] <= 1
  }

  lemma DistinctPart(part: multiset<TabId>, whole: multiset<TabId>)
    requires part <= whole && Distinct(whole)
    ensures Distinct(part)
  {
    forall tab ensures part[tab] <= 1 {
      assert part[tab] <= whole[tab];
    }
  }

  /** Showing a tab keeps a pane whole, and its strip as it was. */
  lemma ShowKeeps(pane: Pane, tab: TabId)
    requires tab in pane.members && Distinct(multiset(pane.members))
    requires multiset(pane.recent)[tab := 0] == multiset(pane.members)[tab := 0]
    ensures pane.Show(tab).Ok() && pane.Show(tab).members == pane.members && pane.Show(tab).active == tab
  {
    WithoutHolds(pane.recent, tab);
    assert multiset(pane.members)[tab] == 1;
    assert multiset(pane.members) == multiset(pane.members)[tab := 0] + multiset{tab};
  }

  /** A pane of several tabs loses just the one dropped, and shows the one shown before it when it was the one shown. */
  lemma RemoveKeeps(pane: Pane, tab: TabId)
    requires pane.Ok() && tab in pane.members && |pane.members| > 1 && Distinct(multiset(pane.members))
    ensures var left := pane.Remove(tab);
      && left.Ok()
      && left.members == Taken(pane.members, Position(pane.members, tab))
      && multiset(left.members) == multiset(pane.members) - multiset{tab}
      && left.recent == Taken(pane.recent, Position(pane.recent, tab))
      && |pane.recent| > 1
      && left.active == if pane.active == tab then pane.recent[1] else pane.active
  {
    assert |multiset(pane.recent)| == |multiset(pane.members)|;
    assert tab in multiset(pane.recent);
    WithoutIsTaken(pane.members, tab);
    WithoutIsTaken(pane.recent, tab);
    TakenHolds(pane.members, Position(pane.members, tab));
    TakenHolds(pane.recent, Position(pane.recent, tab));
  }

  lemma BesideHolds(pane: Pane, tab: TabId)
    requires pane.active in pane.members
    ensures multiset(pane.Beside(tab).members) == multiset(pane.members) + multiset{tab}
  {
    InsertedHolds(pane.members, Position(pane.members, pane.active) + 1, tab);
  }

  lemma ReceiveKeeps(pane: Pane, tab: TabId, at: nat)
    requires pane.Ok() && tab !in pane.members && Distinct(multiset(pane.members))
    ensures pane.Receive(tab, at).Ok() && pane.Receive(tab, at).active == tab
    ensures multiset(pane.Receive(tab, at).members) == multiset(pane.members) + multiset{tab}
  {
    InsertedHolds(pane.members, Least(at, |pane.members|), tab);
    var wider := Pane(pane.active, Inserted(pane.members, Least(at, |pane.members|), tab), pane.recent);
    assert tab in multiset(wider.members) && tab !in multiset(pane.members);
    ShowKeeps(wider, tab);
  }

  /** A tab added after the one shown: shown itself, or left waiting as the least recent. */
  lemma BesideKeeps(pane: Pane, tab: TabId)
    requires pane.Ok() && tab !in pane.members && Distinct(multiset(pane.members))
    ensures pane.active in pane.members
    ensures pane.Beside(tab).Show(tab).Ok()
    ensures pane.Beside(tab).(recent := pane.recent + [tab]).Ok()
  {
    assert pane.active in multiset(pane.recent);
    BesideHolds(pane, tab);
    assert tab in multiset(pane.Beside(tab).members) && tab !in multiset(pane.members);
    ShowKeeps(pane.Beside(tab), tab);
  }

  // ------------------------------------------------------------------------
  // Lists of panes
  // ------------------------------------------------------------------------

  /** Every tab of every pane. */
  ghost function HeldBy(panes: seq<Pane>): multiset<TabId> {
    if panes == [] then multiset{} else multiset(panes[0].members) + HeldBy(panes[1..])
  }

  /** The first pane holding `tab`, or the number of panes. */
  function Holding(panes: seq<Pane>, tab: TabId): (i: nat)
    ensures i <= |panes| && (forall j | 0 <= j < i :: tab !in panes[j].members)
    ensures i < |panes| ==> tab in panes[i].members
  {
    if panes == [] || tab in panes[0].members then 0 else 1 + Holding(panes[1..], tab)
  }

  lemma SumAssoc(a: multiset<TabId>, b: multiset<TabId>, c: multiset<TabId>)
    ensures a + (b + c) == a + b + c
    ensures a + b + c == a + c + b
  {
  }

  lemma HeldFirst(first: Pane, rest: seq<Pane>)
    ensures HeldBy([first] + rest) == multiset(first.members) + HeldBy(rest)
  {
    assert ([first] + rest)[1..] == rest;
  }

  lemma HeldNone()
    ensures HeldBy([]) == multiset{}
  {
  }

  lemma {:induction false} HeldSum(a: seq<Pane>, b: seq<Pane>)
    ensures HeldBy(a + b) == HeldBy(a) + HeldBy(b)
  {
    hide HeldBy;
    if a == [] {
      assert a + b == b;
      HeldNone();
    } else {
      HeldSum(a[1..], b);
      HeldFirst(a[0], a[1..] + b);
      HeldFirst(a[0], a[1..]);
      assert a + b == [a[0]] + (a[1..] + b) && a == [a[0]] + a[1..];
      SumAssoc(multiset(a[0].members), HeldBy(a[1..]), HeldBy(b));
    }
  }

  lemma HeldAt(panes: seq<Pane>, i: nat)
    requires i < |panes|
    ensures HeldBy(panes) == HeldBy(Taken(panes, i)) + multiset(panes[i].members)
  {
    hide HeldBy;
    HeldSum(panes[..i], panes[i..]);
    HeldSum(panes[..i], panes[i + 1..]);
    HeldFirst(panes[i], panes[i + 1..]);
    assert panes == panes[..i] + panes[i..] && panes[i..] == [panes[i]] + panes[i + 1..];
  }

  lemma {:induction false} HeldIsHolding(panes: seq<Pane>, tab: TabId)
    ensures tab in HeldBy(panes) <==> Holding(panes, tab) < |panes|
  {
    if panes != [] {
      HeldIsHolding(panes[1..], tab);
    }
  }

  lemma {:induction false} HoldingSum(a: seq<Pane>, b: seq<Pane>, tab: TabId)
    ensures Holding(a + b, tab) == if Holding(a, tab) < |a| then Holding(a, tab) else |a| + Holding(b, tab)
  {
    if a == [] {
      assert a + b == b;
    } else {
      HoldingSum(a[1..], b, tab);
      assert (a + b)[1..] == a[1..] + b;
    }
  }

  /** Where no tab is named twice, one pane holds it. */
  lemma HeldOnce(panes: seq<Pane>, tab: TabId, i: nat)
    requires i < |panes| && tab in panes[i].members && Distinct(HeldBy(panes))
    ensures Holding(panes, tab) == i
    ensures multiset(panes[i].members) <= HeldBy(panes) && Distinct(multiset(panes[i].members))
  {
    HeldAt(panes, i);
    DistinctPart(multiset(panes[i].members), HeldBy(panes));
    assert HeldBy(panes)[tab] <= 1 && multiset(panes[i].members)[tab] >= 1;
    HeldIsHolding(Taken(panes, i), tab);
    assert forall j | 0 <= j < i :: Taken(panes, i)[j] == panes[j];
  }

  // ------------------------------------------------------------------------
  // The window
  // ------------------------------------------------------------------------

  /** The window's panes in tree order, the first `above` of them above the dock: all of them where there is none. */
  datatype Strips = Strips(panes: seq<Pane>, above: nat) {
    ghost predicate Ok() {
      && 0 < above <= |panes|
      && (forall i | 0 <= i < |panes| :: panes[i].Ok())
      && Distinct(Tabs())
    }

    ghost function Tabs(): multiset<TabId> {
      HeldBy(panes)
    }

    function At(tab: TabId): nat {
      Holding(panes, tab)
    }

    predicate HasDock() {
      above < |panes|
    }

    /** How many panes are laid out: those above a dock put away, or all. */
    function Laid(hidden: bool): nat {
      if hidden then above else |panes|
    }

    /** Whether a laid-out pane holds `tab`. */
    predicate LaysOut(tab: TabId, hidden: bool) {
      At(tab) < Laid(hidden)
    }

    /** Whether a laid-out pane shows `tab`. */
    predicate Shows(tab: TabId, hidden: bool) {
      && LaysOut(tab, hidden) && At(tab) < |panes|
      && panes[At(tab)].active == tab
    }

    function With(i: nat, pane: Pane): Strips
      requires i < |panes|
    {
      Strips(panes[i := pane], above)
    }

    /** One pane replaced by several, on its side of the dock. */
    function Spliced(i: nat, several: seq<Pane>): Strips
      requires i < |panes| && several != []
    {
      Strips(Splice(panes, i, several), if i < above then above + |several| - 1 else above)
    }

    /** One pane gone; the dock with it when either side is left empty. */
    function Dropped(i: nat): Strips
      requires i < |panes|
    {
      var up := if i < above then above - 1 else above;
      Strips(Taken(panes, i), if up == 0 then |panes| - 1 else up)
    }
  }

  lemma WithKeeps(s: Strips, i: nat, pane: Pane)
    requires s.Ok() && i < |s.panes|
    ensures multiset(s.panes[i].members) <= s.Tabs() && Distinct(multiset(s.panes[i].members))
    ensures s.With(i, pane).Tabs() == s.Tabs() - multiset(s.panes[i].members) + multiset(pane.members)
    ensures pane.Ok() && Distinct(s.With(i, pane).Tabs()) ==> s.With(i, pane).Ok()
  {
    HeldAt(s.panes, i);
    DistinctPart(multiset(s.panes[i].members), s.Tabs());
    HeldAt(s.panes[i := pane], i);
    assert Taken(s.panes, i) == Taken(s.panes[i := pane], i);
  }

  lemma SplicedKeeps(s: Strips, i: nat, several: seq<Pane>)
    requires s.Ok() && i < |s.panes| && several != []
    ensures s.Spliced(i, several).Tabs() == s.Tabs() - multiset(s.panes[i].members) + HeldBy(several)
    ensures (forall p | p in several :: p.Ok()) && Distinct(s.Spliced(i, several).Tabs()) ==> s.Spliced(i, several).Ok()
  {
    hide HeldBy;
    HeldAt(s.panes, i);
    HeldSum(s.panes[..i], s.panes[i + 1..]);
    HeldSum(s.panes[..i], several);
    HeldSum(s.panes[..i] + several, s.panes[i + 1..]);
    SumAssoc(HeldBy(s.panes[..i]), HeldBy(several), HeldBy(s.panes[i + 1..]));
  }

  lemma DroppedKeeps(s: Strips, i: nat)
    requires s.Ok() && i < |s.panes| && |s.panes| > 1
    ensures s.Dropped(i).Tabs() == s.Tabs() - multiset(s.panes[i].members)
    ensures s.Dropped(i).Ok()
  {
    HeldAt(s.panes, i);
    DistinctPart(s.Dropped(i).Tabs(), s.Tabs());
  }

  lemma TwoHeld(a: Pane, b: Pane)
    ensures HeldBy([a, b]) == multiset(a.members) + multiset(b.members)
  {
    HeldFirst(a, [b]);
    HeldFirst(b, []);
    assert [b] + [] == [b] && [a] + [b] == [a, b];
  }
}

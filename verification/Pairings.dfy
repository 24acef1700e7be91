/** Which removed lines of a hunk are compared with which added ones. */
module Pairings {
  import opened Text

  datatype Range = Range(lo: nat, hi: nat)
  datatype Pairing = Pairing(removed: Range, added: Range)

  // ------------------------------------------------------------------------
  // Similarity
  // ------------------------------------------------------------------------

  function PrefixLen(a: string, b: string): (n: nat)
    ensures n <= |a| && n <= |b|
  {
    if a == "" || b == "" || a[0] != b[0] then 0 else 1 + PrefixLen(a[1..], b[1..])
  }

  function SuffixLen(a: string, b: string, limit: nat): (n: nat)
    requires limit <= |a| && limit <= |b|
    ensures n <= limit
  {
    if limit == 0 || a[|a| - 1] != b[|b| - 1] then 0 else 1 + SuffixLen(a[..|a| - 1], b[..|b| - 1], limit - 1)
  }

  function Shorter(a: string, b: string): nat { if |a| < |b| then |a| else |b| }
  function Longer(a: string, b: string): nat { if |a| < |b| then |b| else |a| }

  /** Whether a shared prefix and suffix cover at least half of the longer line. */
  predicate Similar(a: string, b: string) {
    var prefix := PrefixLen(a, b);
    2 * (prefix + SuffixLen(a, b, Shorter(a, b) - prefix)) >= Longer(a, b)
  }

  method LinesSimilar(a: string, b: string) returns (similar: bool)
    ensures similar == Similar(a, b)
  {
    if a == b {
      SameIsSimilar(a);
      return true;
    }
    if Longer(a, b) == 0 {
      return true;
    }
    var prefix := CommonPrefix(a, b);
    var suffix := CommonSuffix(a, b, Shorter(a, b) - prefix);
    return 2 * (prefix + suffix) >= Longer(a, b);
  }

  method CommonPrefix(a: string, b: string) returns (prefix: nat)
    ensures prefix == PrefixLen(a, b)
  {
    prefix := 0;
    assert a[0..] == a && b[0..] == b;
    while prefix < Shorter(a, b) && a[prefix] == b[prefix]
      invariant prefix <= Shorter(a, b)
      invariant prefix + PrefixLen(a[prefix..], b[prefix..]) == PrefixLen(a, b)
    {
      assert a[prefix..][1..] == a[prefix + 1..] && b[prefix..][1..] == b[prefix + 1..];
      prefix := prefix + 1;
    }
  }

  method CommonSuffix(a: string, b: string, limit: nat) returns (suffix: nat)
    requires limit <= |a| && limit <= |b|
    ensures suffix == SuffixLen(a, b, limit)
  {
    suffix := 0;
    assert a[..|a|] == a && b[..|b|] == b;
    while suffix < limit && a[|a| - 1 - suffix] == b[|b| - 1 - suffix]
      invariant suffix <= limit
      invariant suffix + SuffixLen(a[..|a| - suffix], b[..|b| - suffix], limit - suffix) == SuffixLen(a, b, limit)
    {
      assert a[..|a| - suffix][..|a| - suffix - 1] == a[..|a| - suffix - 1];
      assert b[..|b| - suffix][..|b| - suffix - 1] == b[..|b| - suffix - 1];
      suffix := suffix + 1;
    }
  }

  lemma {:induction false} PrefixOfSame(a: string)
    ensures PrefixLen(a, a) == |a|
  {
    if a != "" {
      PrefixOfSame(a[1..]);
    }
  }

  lemma SameIsSimilar(a: string)
    ensures Similar(a, a)
  {
    PrefixOfSame(a);
  }

  // ------------------------------------------------------------------------
  // Pairing
  // ------------------------------------------------------------------------

  /** The confident pairs: walking down both runs, a similar pair is taken, else the side with more left steps on. */
  function Matches(removed: seq<string>, added: seq<string>, r: nat, a: nat): (matches: seq<(nat, nat)>)
    requires r <= |removed| && a <= |added|
    ensures forall m | m in matches :: r <= m.0 < |removed| && a <= m.1 < |added| && Similar(removed[m.0], added[m.1])
    ensures forall i, j | 0 <= i < j < |matches| :: matches[i].0 < matches[j].0 && matches[i].1 < matches[j].1
    decreases |removed| - r + |added| - a
  {
    if r == |removed| || a == |added| then []
    else if Similar(removed[r], added[a]) then [(r, a)] + Matches(removed, added, r + 1, a + 1)
    else if |removed| - r > |added| - a then Matches(removed, added, r + 1, a)
    else Matches(removed, added, r, a + 1)
  }

  function Ends(matches: seq<(nat, nat)>): (nat, nat) {
    if matches == [] then (0, 0) else (matches[|matches| - 1].0 + 1, matches[|matches| - 1].1 + 1)
  }

  /** Each confident pair closes a pairing that takes in the lines before it. */
  function Closed(matches: seq<(nat, nat)>): (pairings: seq<Pairing>)
    ensures |pairings| == |matches|
  {
    if matches == [] then [] else
      var front, last := matches[..|matches| - 1], matches[|matches| - 1];
      Closed(front) + [Pairing(Range(Ends(front).0, last.0 + 1), Range(Ends(front).1, last.1 + 1))]
  }

  /** What is left over on one side joins the last pairing; on both sides it is a pairing of its own. */
  function WithLeftovers(pairings: seq<Pairing>, ends: (nat, nat), removed: nat, added: nat): seq<Pairing> {
    if ends.0 < removed && (ends.1 < added || pairings == []) then
      pairings + [Pairing(Range(ends.0, removed), Range(ends.1, added))]
    else if ends.1 < added && pairings == [] then [Pairing(Range(ends.0, removed), Range(ends.1, added))]
    else if pairings == [] then []
    else
      var last := pairings[|pairings| - 1];
      pairings[|pairings| - 1 :=
        Pairing(Range(last.removed.lo, if ends.0 < removed then removed else last.removed.hi),
                Range(last.added.lo, if ends.1 < added then added else last.added.hi))]
  }

  function OneToOne(n: nat): (pairings: seq<Pairing>)
    ensures |pairings| == n
    ensures forall i | 0 <= i < n :: pairings[i] == Pairing(Range(i, i + 1), Range(i, i + 1))
  {
    seq(n, (i: nat) => Pairing(Range(i, i + 1), Range(i, i + 1)))
  }

  function Paired(removed: seq<string>, added: seq<string>): seq<Pairing> {
    if |removed| == |added| then OneToOne(|removed|)
    else
      var matches := Matches(removed, added, 0, 0);
      WithLeftovers(Closed(matches), Ends(matches), |removed|, |added|)
  }

  method PairUp(removed: seq<string>, added: seq<string>) returns (pairings: seq<Pairing>)
    ensures pairings == Paired(removed, added)
  {
    hide Similar, Matches, Closed, Ends, OneToOne;
    if |removed| == |added| {
      return OneToOne(|removed|);
    }
    pairings := [];
    NoMatches();
    var pendingRemoved: Option<nat>, pendingAdded: Option<nat> := None, None;
    var r: nat, a: nat := 0, 0;
    ghost var matches: seq<(nat, nat)> := [];
    while r < |removed| && a < |added|
      invariant r <= |removed| && a <= |added|
      invariant matches + Matches(removed, added, r, a) == Matches(removed, added, 0, 0)
      invariant pairings == Closed(matches)
      invariant Ends(matches).0 <= r && pendingRemoved == Pending(Ends(matches).0, r)
      invariant Ends(matches).1 <= a && pendingAdded == Pending(Ends(matches).1, a)
      decreases |removed| - r + |added| - a
    {
      MatchStep(removed, added, matches, r, a);
      var similar := LinesSimilar(removed[r], added[a]);
      if similar {
        pairings := pairings + [Pairing(Range(pendingRemoved.GetOr(r), r + 1), Range(pendingAdded.GetOr(a), a + 1))];
        matches := matches + [(r, a)];
        pendingRemoved, pendingAdded := None, None;
        r, a := r + 1, a + 1;
      } else if |removed| - r > |added| - a {
        pendingRemoved := Some(pendingRemoved.GetOr(r));
        r := r + 1;
      } else {
        pendingAdded := Some(pendingAdded.GetOr(a));
        a := a + 1;
      }
    }
    MatchesDone(removed, added, matches, r, a);
    while r < |removed|
      invariant Ends(matches).0 <= r <= |removed| && pendingRemoved == Pending(Ends(matches).0, r)
    {
      pendingRemoved := Some(pendingRemoved.GetOr(r));
      r := r + 1;
    }
    while a < |added|
      invariant Ends(matches).1 <= a <= |added| && pendingAdded == Pending(Ends(matches).1, a)
    {
      pendingAdded := Some(pendingAdded.GetOr(a));
      a := a + 1;
    }
    match (pendingRemoved, pendingAdded) {
      case (None, None) =>
      case (Some(start), None) =>
        if pairings == [] {
          pairings := [Pairing(Range(start, |removed|), Range(|added|, |added|))];
        } else {
          var last := pairings[|pairings| - 1];
          pairings := pairings[|pairings| - 1 := last.(removed := last.removed.(hi := |removed|))];
        }
      case (None, Some(start)) =>
        if pairings == [] {
          pairings := [Pairing(Range(|removed|, |removed|), Range(start, |added|))];
        } else {
          var last := pairings[|pairings| - 1];
          pairings := pairings[|pairings| - 1 := last.(added := last.added.(hi := |added|))];
        }
      case (Some(removedStart), Some(addedStart)) =>
        pairings := pairings + [Pairing(Range(removedStart, |removed|), Range(addedStart, |added|))];
    }
  }

  lemma NoMatches()
    ensures Closed([]) == [] && Ends([]) == (0, 0)
  {
  }

  lemma MatchesDone(removed: seq<string>, added: seq<string>, matches: seq<(nat, nat)>, r: nat, a: nat)
    requires r <= |removed| && a <= |added| && (r == |removed| || a == |added|)
    ensures matches + Matches(removed, added, r, a) == matches
  {
  }

  /** One turn of the pairing loop. */
  lemma MatchStep(removed: seq<string>, added: seq<string>, matches: seq<(nat, nat)>, r: nat, a: nat)
    requires r < |removed| && a < |added|
    ensures matches + Matches(removed, added, r, a) ==
      if Similar(removed[r], added[a]) then (matches + [(r, a)]) + Matches(removed, added, r + 1, a + 1)
      else if |removed| - r > |added| - a then matches + Matches(removed, added, r + 1, a)
      else matches + Matches(removed, added, r, a + 1)
    ensures Closed(matches + [(r, a)]) ==
      Closed(matches) + [Pairing(Range(Ends(matches).0, r + 1), Range(Ends(matches).1, a + 1))]
    ensures Ends(matches + [(r, a)]) == (r + 1, a + 1)
  {
    hide Similar;
    assert (matches + [(r, a)])[..|matches|] == matches;
  }

  /** The first line waiting for a pairing, when any is. */
  function Pending(end: nat, at: nat): Option<nat> {
    if end < at then Some(end) else None
  }

  // ------------------------------------------------------------------------
  // What a pairing is worth
  // ------------------------------------------------------------------------

  /** The pairings cut both runs, from `r` and `a` on, into ranges with nothing between them and nothing left. */
  predicate Tiles(pairings: seq<Pairing>, r: nat, a: nat, removed: nat, added: nat)
    decreases |pairings|
  {
    if pairings == [] then r == removed && a == added
    else
      && pairings[0].removed.lo == r <= pairings[0].removed.hi
      && pairings[0].added.lo == a <= pairings[0].added.hi
      && Tiles(pairings[1..], pairings[0].removed.hi, pairings[0].added.hi, removed, added)
  }

  ghost predicate NoneEmpty(pairings: seq<Pairing>) {
    forall p | p in pairings :: p.removed.lo < p.removed.hi && p.added.lo < p.added.hi
  }

  lemma {:induction false} TilesThenOne(pairings: seq<Pairing>, r: nat, a: nat, last: Pairing)
    requires last.removed.lo <= last.removed.hi && last.added.lo <= last.added.hi
    requires Tiles(pairings, r, a, last.removed.lo, last.added.lo)
    ensures Tiles(pairings + [last], r, a, last.removed.hi, last.added.hi)
    decreases |pairings|
  {
    if pairings == [] {
      assert ([] + [last])[1..] == [];
    } else {
      TilesThenOne(pairings[1..], pairings[0].removed.hi, pairings[0].added.hi, last);
      assert (pairings + [last])[1..] == pairings[1..] + [last];
    }
  }

  lemma {:induction false} ClosedTiles(matches: seq<(nat, nat)>)
    requires forall i, j | 0 <= i < j < |matches| :: matches[i].0 < matches[j].0 && matches[i].1 < matches[j].1
    ensures Tiles(Closed(matches), 0, 0, Ends(matches).0, Ends(matches).1) && NoneEmpty(Closed(matches))
  {
    if matches != [] {
      var front, last := matches[..|matches| - 1], matches[|matches| - 1];
      ClosedTiles(front);
      TilesThenOne(Closed(front), 0, 0,
                   Pairing(Range(Ends(front).0, last.0 + 1), Range(Ends(front).1, last.1 + 1)));
    }
  }

  lemma {:induction false} OneToOneTiles(n: nat)
    ensures Tiles(OneToOne(n), 0, 0, n, n)
  {
    if n > 0 {
      OneToOneTiles(n - 1);
      assert OneToOne(n) == OneToOne(n - 1) + [Pairing(Range(n - 1, n), Range(n - 1, n))];
      TilesThenOne(OneToOne(n - 1), 0, 0, Pairing(Range(n - 1, n), Range(n - 1, n)));
    }
  }

  /** Every line of both runs is in exactly one pairing, in order, and where neither run is empty no pairing has an
      empty side. */
  lemma PairedTiles(removed: seq<string>, added: seq<string>)
    ensures Tiles(Paired(removed, added), 0, 0, |removed|, |added|)
    ensures removed != [] && added != [] ==> NoneEmpty(Paired(removed, added))
  {
    hide Tiles, Matches, Closed, Ends, OneToOne;
    if |removed| == |added| {
      OneToOneTiles(|removed|);
      OneToOneFull(|removed|);
    } else {
      var matches := Matches(removed, added, 0, 0);
      var pairings, ends := Closed(matches), Ends(matches);
      ClosedTiles(matches);
      EndsWithin(removed, added);
      assert |matches| == |pairings|;
      if pairings == [] {
        NothingPaired(|removed|, |added|);
        NoMatches();
      } else if ends.0 < |removed| && ends.1 < |added| {
        TilesThenOne(pairings, 0, 0, Pairing(Range(ends.0, |removed|), Range(ends.1, |added|)));
      } else {
        LongerLast(matches, |removed|, |added|);
      }
    }
  }

  lemma NothingPaired(removed: nat, added: nat)
    ensures Tiles(WithLeftovers([], (0, 0), removed, added), 0, 0, removed, added)
    ensures removed > 0 && added > 0 ==> NoneEmpty(WithLeftovers([], (0, 0), removed, added))
  {
    if removed > 0 || added > 0 {
      var only := Pairing(Range(0, removed), Range(0, added));
      assert WithLeftovers([], (0, 0), removed, added) == [only];
      assert [only][1..] == [];
    }
  }

  lemma OneToOneFull(n: nat)
    ensures NoneEmpty(OneToOne(n))
  {
  }

  lemma EndsWithin(removed: seq<string>, added: seq<string>)
    ensures var ends := Ends(Matches(removed, added, 0, 0)); ends.0 <= |removed| && ends.1 <= |added|
  {
    var matches := Matches(removed, added, 0, 0);
    if matches != [] {
      assert matches[|matches| - 1] in matches;
    }
  }

  /** Stretching the last pairing to the end of both runs. */
  lemma LongerLast(matches: seq<(nat, nat)>, removed: nat, added: nat)
    requires matches != []
    requires forall i, j | 0 <= i < j < |matches| :: matches[i].0 < matches[j].0 && matches[i].1 < matches[j].1
    requires Ends(matches).0 <= removed && Ends(matches).1 <= added
    requires Ends(matches).0 == removed || Ends(matches).1 == added
    ensures var all := WithLeftovers(Closed(matches), Ends(matches), removed, added);
      Tiles(all, 0, 0, removed, added) && NoneEmpty(all)
  {
    var front, last := matches[..|matches| - 1], matches[|matches| - 1];
    var stretched := Pairing(Range(Ends(front).0, removed), Range(Ends(front).1, added));
    ClosedTiles(front);
    ClosedTiles(matches);
    TilesThenOne(Closed(front), 0, 0, stretched);
    assert WithLeftovers(Closed(matches), Ends(matches), removed, added) == Closed(front) + [stretched];
  }
}

/** Which lines end up compared with which, told by the lines themselves. */
module PairingLaws {
  import opened Text
  import opened Pairings

  // ------------------------------------------------------------------------
  // Similar lines
  // ------------------------------------------------------------------------

  /** Whether two lines share their first `front` characters and, past those in both, their last `end`. */
  predicate Shared(a: string, b: string, front: nat, end: nat) {
    && front + end <= |a| && front + end <= |b|
    && a[..front] == b[..front] && a[|a| - end..] == b[|b| - end..]
  }

  lemma {:induction false} PrefixShared(a: string, b: string)
    ensures var n := PrefixLen(a, b); a[..n] == b[..n]
  {
    if a != "" && b != "" && a[0] == b[0] {
      PrefixShared(a[1..], b[1..]);
      var n := PrefixLen(a[1..], b[1..]);
      assert a[..n + 1] == [a[0]] + a[1..][..n] && b[..n + 1] == [b[0]] + b[1..][..n];
    }
  }

  lemma {:induction false} PrefixLongest(a: string, b: string, n: nat)
    requires n <= |a| && n <= |b| && a[..n] == b[..n]
    ensures n <= PrefixLen(a, b)
  {
    if n > 0 {
      assert a[0] == a[..n][0] && b[0] == b[..n][0];
      assert a[1..][..n - 1] == a[..n][1..] && b[1..][..n - 1] == b[..n][1..];
      PrefixLongest(a[1..], b[1..], n - 1);
    }
  }

  lemma SuffixStep(a: string, b: string, limit: nat)
    requires limit <= |a| && limit <= |b|
    ensures SuffixLen(a, b, limit) ==
      if limit == 0 || a[|a| - 1] != b[|b| - 1] then 0
      else 1 + SuffixLen(a[..|a| - 1], b[..|b| - 1], limit - 1)
  {
  }

  lemma LastOff(a: string, n: nat)
    requires n < |a|
    ensures a[|a| - n - 1..] == a[..|a| - 1][|a| - 1 - n..] + [a[|a| - 1]]
  {
  }

  lemma {:induction false} SuffixShared(a: string, b: string, limit: nat)
    requires limit <= |a| && limit <= |b|
    ensures var n := SuffixLen(a, b, limit); a[|a| - n..] == b[|b| - n..]
    decreases limit
  {
    hide SuffixLen;
    SuffixStep(a, b, limit);
    if limit > 0 && a[|a| - 1] == b[|b| - 1] {
      var n := SuffixLen(a[..|a| - 1], b[..|b| - 1], limit - 1);
      SuffixShared(a[..|a| - 1], b[..|b| - 1], limit - 1);
      LastOff(a, n);
      LastOff(b, n);
    } else {
      assert a[|a|..] == [] && b[|b|..] == [];
    }
  }

  lemma {:induction false} SuffixLongest(a: string, b: string, limit: nat, n: nat)
    requires n <= limit <= |a| && limit <= |b| && a[|a| - n..] == b[|b| - n..]
    ensures n <= SuffixLen(a, b, limit)
  {
    if n > 0 {
      var a', b' := a[..|a| - 1], b[..|b| - 1];
      assert a[|a| - 1] == a[|a| - n..][n - 1] && b[|b| - 1] == b[|b| - n..][n - 1];
      assert a'[|a'| - (n - 1)..] == a[|a| - n..][..n - 1] && b'[|b'| - (n - 1)..] == b[|b| - n..][..n - 1];
      SuffixLongest(a', b', limit - 1, n - 1);
    }
  }

  /** Two lines are similar exactly when some front and end they share, not overlapping in either, cover at least half
      of the longer. */
  lemma SimilarIff(a: string, b: string)
    ensures Similar(a, b)
      <==> exists front: nat, end: nat ::
             Shared(a, b, front, end) && 2 * (front + end) >= |a| && 2 * (front + end) >= |b|
  {
    var prefix := PrefixLen(a, b);
    var limit := Shorter(a, b) - prefix;
    var suffix := SuffixLen(a, b, limit);
    if Similar(a, b) {
      PrefixShared(a, b);
      SuffixShared(a, b, limit);
      assert Shared(a, b, prefix, suffix);
    }
    if front: nat, end: nat :| Shared(a, b, front, end) && 2 * (front + end) >= |a| && 2 * (front + end) >= |b| {
      PrefixLongest(a, b, front);
      var kept := if end <= limit then end else limit;
      assert a[|a| - kept..] == a[|a| - end..][end - kept..] && b[|b| - kept..] == b[|b| - end..][end - kept..];
      SuffixLongest(a, b, limit, kept);
    }
  }

  // ------------------------------------------------------------------------
  // As many removed as added
  // ------------------------------------------------------------------------

  /** Runs of one length are compared line by line, alike or not. */
  lemma EqualRunsLineByLine(removed: seq<string>, added: seq<string>, i: nat)
    requires |removed| == |added| && i < |removed|
    ensures |Paired(removed, added)| == |removed|
    ensures Paired(removed, added)[i] == Pairing(Range(i, i + 1), Range(i, i + 1))
  {
  }

  // ------------------------------------------------------------------------
  // More of one than of the other
  // ------------------------------------------------------------------------

  /** Where a walk down both runs from `at` stops: at the first similar pair it meets, or where a run ends. Past a pair
      that is not similar it steps down the run with more left, and down the added one when neither has. */
  function Walk(removed: seq<string>, added: seq<string>, r: nat, a: nat): (stop: (nat, nat))
    requires r <= |removed| && a <= |added|
    ensures r <= stop.0 <= |removed| && a <= stop.1 <= |added|
    decreases |removed| - r + |added| - a
  {
    if r == |removed| || a == |added| || Similar(removed[r], added[a]) then (r, a)
    else if |removed| - r > |added| - a then Walk(removed, added, r + 1, a)
    else Walk(removed, added, r, a + 1)
  }

  /** Whether a walk that stopped there stopped at a pair. */
  predicate Meets(removed: seq<string>, added: seq<string>, stop: (nat, nat)) {
    stop.0 < |removed| && stop.1 < |added| && Similar(removed[stop.0], added[stop.1])
  }

  lemma WalkStep(removed: seq<string>, added: seq<string>, r: nat, a: nat)
    requires r <= |removed| && a <= |added|
    ensures Walk(removed, added, r, a) ==
      if r == |removed| || a == |added| || Similar(removed[r], added[a]) then (r, a)
      else if |removed| - r > |added| - a then Walk(removed, added, r + 1, a)
      else Walk(removed, added, r, a + 1)
  {
    hide Similar;
  }

  lemma MatchesStep(removed: seq<string>, added: seq<string>, r: nat, a: nat)
    requires r <= |removed| && a <= |added|
    ensures Matches(removed, added, r, a) ==
      if r == |removed| || a == |added| then []
      else if Similar(removed[r], added[a]) then [(r, a)] + Matches(removed, added, r + 1, a + 1)
      else if |removed| - r > |added| - a then Matches(removed, added, r + 1, a)
      else Matches(removed, added, r, a + 1)
  {
    hide Similar;
  }

  /** The matches are those the walk meets, walked on from just past each. */
  ghost predicate Met(removed: seq<string>, added: seq<string>, matches: seq<(nat, nat)>, stop: (nat, nat))
    requires stop.0 <= |removed| && stop.1 <= |added|
  {
    matches ==
      if Meets(removed, added, stop) then [stop] + Matches(removed, added, stop.0 + 1, stop.1 + 1) else []
  }

  lemma MetHere(removed: seq<string>, added: seq<string>, r: nat, a: nat)
    requires r <= |removed| && a <= |added|
    requires r == |removed| || a == |added| || Similar(removed[r], added[a])
    ensures Met(removed, added, Matches(removed, added, r, a), (r, a))
  {
    hide Similar, Matches;
    MatchesStep(removed, added, r, a);
  }

  lemma {:induction false} MatchesAreMet(removed: seq<string>, added: seq<string>, r: nat, a: nat)
    requires r <= |removed| && a <= |added|
    ensures Met(removed, added, Matches(removed, added, r, a), Walk(removed, added, r, a))
    decreases |removed| - r + |added| - a
  {
    hide Similar, Matches, Walk, Met;
    WalkStep(removed, added, r, a);
    if r == |removed| || a == |added| || Similar(removed[r], added[a]) {
      MetHere(removed, added, r, a);
    } else {
      MatchesStep(removed, added, r, a);
      if |removed| - r > |added| - a {
        MatchesAreMet(removed, added, r + 1, a);
      } else {
        MatchesAreMet(removed, added, r, a + 1);
      }
    }
  }

  /** Each match is where the walk from just past the one before it stops, and past the last the walk meets nothing. */
  ghost predicate Chained(removed: seq<string>, added: seq<string>, matches: seq<(nat, nat)>, r: nat, a: nat)
    requires r <= |removed| && a <= |added|
    decreases |matches|
  {
    var stop := Walk(removed, added, r, a);
    if matches == [] then !Meets(removed, added, stop)
    else
      && matches[0] == stop && Meets(removed, added, stop)
      && Chained(removed, added, matches[1..], stop.0 + 1, stop.1 + 1)
  }

  lemma {:induction false} MatchesChain(removed: seq<string>, added: seq<string>, r: nat, a: nat)
    requires r <= |removed| && a <= |added|
    ensures Chained(removed, added, Matches(removed, added, r, a), r, a)
    decreases |removed| - r + |added| - a
  {
    hide Similar, Matches, Walk;
    MatchesAreMet(removed, added, r, a);
    var stop := Walk(removed, added, r, a);
    if Meets(removed, added, stop) {
      MatchesChain(removed, added, stop.0 + 1, stop.1 + 1);
      assert ([stop] + Matches(removed, added, stop.0 + 1, stop.1 + 1))[1..]
        == Matches(removed, added, stop.0 + 1, stop.1 + 1);
    }
  }

  /** A pairing that starts where the walk is and ends with the pair it meets next. */
  ghost predicate EndsAtMatch(removed: seq<string>, added: seq<string>, p: Pairing) {
    && p.removed.lo <= |removed| && p.added.lo <= |added|
    && var stop := Walk(removed, added, p.removed.lo, p.added.lo);
       && Meets(removed, added, stop)
       && p.removed.hi == stop.0 + 1 && p.added.hi == stop.1 + 1
  }

  /** A pairing that takes in all that is left: the walk from its start meets no pair, or one with nothing left past it
      on one side. */
  ghost predicate TakesTheRest(removed: seq<string>, added: seq<string>, p: Pairing) {
    && p.removed.lo <= |removed| && p.added.lo <= |added|
    && p.removed.hi == |removed| && p.added.hi == |added|
    && var stop := Walk(removed, added, p.removed.lo, p.added.lo);
       Meets(removed, added, stop) ==> stop.0 + 1 == |removed| || stop.1 + 1 == |added|
  }

  /** Pairing `i` of those closed by the matches goes from just past the match before to the match itself. */
  lemma {:induction false} ClosedAt(matches: seq<(nat, nat)>, i: nat)
    requires i < |matches|
    ensures var from := Ends(matches[..i]);
      Closed(matches)[i] == Pairing(Range(from.0, matches[i].0 + 1), Range(from.1, matches[i].1 + 1))
  {
    if i < |matches| - 1 {
      ClosedAt(matches[..|matches| - 1], i);
      assert matches[..|matches| - 1][..i] == matches[..i];
    }
  }

  lemma EndsAt(matches: seq<(nat, nat)>, i: nat)
    requires i <= |matches|
    ensures Ends(matches[..i]) == if i == 0 then (0, 0) else (matches[i - 1].0 + 1, matches[i - 1].1 + 1)
  {
  }

  /** Link `i` of a chain. */
  lemma {:induction false} ChainedAt(
    removed: seq<string>, added: seq<string>, matches: seq<(nat, nat)>, r: nat, a: nat, i: nat)
    requires r <= |removed| && a <= |added| && Chained(removed, added, matches, r, a) && i <= |matches|
    ensures var from := if i == 0 then (r, a) else (matches[i - 1].0 + 1, matches[i - 1].1 + 1);
      && from.0 <= |removed| && from.1 <= |added|
      && var stop := Walk(removed, added, from.0, from.1);
         if i < |matches| then matches[i] == stop && Meets(removed, added, stop) else !Meets(removed, added, stop)
    decreases |matches|
  {
    hide Similar, Walk;
    if i > 0 {
      ChainedAt(removed, added, matches[1..], matches[0].0 + 1, matches[0].1 + 1, i - 1);
    }
  }

  lemma ClosedEndsAtMatch(removed: seq<string>, added: seq<string>, i: nat)
    requires i < |Matches(removed, added, 0, 0)|
    ensures EndsAtMatch(removed, added, Closed(Matches(removed, added, 0, 0))[i])
  {
    hide Similar, Matches, Walk, Closed, Ends, Chained;
    var matches := Matches(removed, added, 0, 0);
    MatchesChain(removed, added, 0, 0);
    ChainedAt(removed, added, matches, 0, 0, i);
    ClosedAt(matches, i);
    EndsAt(matches, i);
  }

  /** Where the counts differ, every pairing ends with the first similar pair the walk from its start meets, and the
      last one with that or with all that is left. */
  lemma UnequalRunsWalked(removed: seq<string>, added: seq<string>, i: nat)
    requires |removed| != |added| && i < |Paired(removed, added)|
    ensures var pairings := Paired(removed, added);
      && (i + 1 < |pairings| ==> EndsAtMatch(removed, added, pairings[i]))
      && (i + 1 == |pairings| ==> TakesTheRest(removed, added, pairings[i]))
  {
    hide Similar, Matches, Walk, Closed, Ends, Chained, EndsAtMatch;
    var matches := Matches(removed, added, 0, 0);
    var pairings := Paired(removed, added);
    EndsWithin(removed, added);
    MatchesChain(removed, added, 0, 0);
    if i < |matches| {
      ClosedEndsAtMatch(removed, added, i);
    }
    assert |Closed(matches)| == |matches|;
    if i + 1 == |pairings| {
      LastTakesTheRest(removed, added);
    }
  }

  lemma LastTakesTheRest(removed: seq<string>, added: seq<string>)
    requires |removed| != |added|
    ensures var pairings := Paired(removed, added);
      pairings != [] && TakesTheRest(removed, added, pairings[|pairings| - 1])
  {
    hide Similar, Matches, Walk, Closed, Chained, Ends, TakesTheRest, WithLeftovers;
    var matches := Matches(removed, added, 0, 0);
    EndsWithin(removed, added);
    MatchesChain(removed, added, 0, 0);
    ChainedAt(removed, added, matches, 0, 0, |matches|);
    EndsAt(matches, |matches|);
    assert matches[..|matches|] == matches;
    NoMatches();
    if matches == [] {
      OneForAll(removed, added);
    } else {
      ClosedEndsAtMatch(removed, added, |matches| - 1);
      ClosedAt(matches, |matches| - 1);
      LastOfLeftovers(removed, added, Closed(matches), Ends(matches));
    }
  }

  lemma OneForAll(removed: seq<string>, added: seq<string>)
    requires |removed| != |added| && !Meets(removed, added, Walk(removed, added, 0, 0))
    ensures var pairings := WithLeftovers([], (0, 0), |removed|, |added|);
      pairings != [] && TakesTheRest(removed, added, pairings[|pairings| - 1])
  {
    hide Similar, Walk;
  }

  lemma LastOfLeftovers(removed: seq<string>, added: seq<string>, closed: seq<Pairing>, ends: (nat, nat))
    requires closed != [] && EndsAtMatch(removed, added, closed[|closed| - 1])
    requires ends == (closed[|closed| - 1].removed.hi, closed[|closed| - 1].added.hi)
    requires !Meets(removed, added, Walk(removed, added, ends.0, ends.1))
    ensures var pairings := WithLeftovers(closed, ends, |removed|, |added|);
      pairings != [] && TakesTheRest(removed, added, pairings[|pairings| - 1])
  {
    hide Similar, Walk;
  }
}

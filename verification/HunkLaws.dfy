/** Which lines of a diff make up its hunks. */
module HunkLaws {
  import opened Text
  import opened Pairings
  import opened WordDiff

  /** Whether every line of a range is under `marker`. */
  predicate AllUnder(lines: seq<string>, range: Range, marker: char) {
    range.lo <= range.hi <= |lines| && forall i | range.lo <= i < range.hi :: StartsWith(lines[i], marker)
  }

  /** Whether no line at `at` is under `marker`, or there is none. */
  predicate EndsAt(lines: seq<string>, at: nat, marker: char) {
    at < |lines| ==> !StartsWith(lines[at], marker)
  }

  /** A whole run of removed lines, then any no-newline markers, then a whole run of added lines; neither is empty. */
  predicate IsHunk(lines: seq<string>, h: Hunk) {
    && h.removed.lo < h.removed.hi && h.added.lo < h.added.hi
    && AllUnder(lines, h.removed, '-') && EndsAt(lines, h.removed.hi, '-')
    && (h.removed.lo > 0 ==> !StartsWith(lines[h.removed.lo - 1], '-'))
    && AllUnder(lines, Range(h.removed.hi, h.added.lo), '\\') && EndsAt(lines, h.added.lo, '\\')
    && AllUnder(lines, h.added, '+') && EndsAt(lines, h.added.hi, '+')
  }

  /** Whether no run of removed lines goes on past `at`. */
  predicate AtEdge(lines: seq<string>, at: nat) {
    0 < at < |lines| && StartsWith(lines[at - 1], '-') ==> !StartsWith(lines[at], '-')
  }

  /** A run is the only stretch of its marker from where it starts to where it ends. */
  lemma {:induction false} RunIs(lines: seq<string>, at: nat, marker: char, end: nat)
    requires AllUnder(lines, Range(at, end), marker) && EndsAt(lines, end, marker)
    ensures RunEnd(lines, at, marker) == end
    decreases |lines| - at
  {
    if at < end {
      RunIs(lines, at + 1, marker, end);
    }
  }

  lemma FoundIsHunk(lines: seq<string>, at: nat)
    requires at < |lines| && StartsWith(lines[at], '-') && AtEdge(lines, at)
    ensures var h := HunkAt(lines, at);
      && (h.added.lo < h.added.hi ==> IsHunk(lines, h))
      && at < h.added.hi <= |lines| && AtEdge(lines, h.added.hi)
  {
  }

  lemma HunkIsFound(lines: seq<string>, h: Hunk)
    requires IsHunk(lines, h)
    ensures HunkAt(lines, h.removed.lo) == h
  {
    RunIs(lines, h.removed.lo, '-', h.removed.hi);
    RunIs(lines, h.removed.hi, '\\', h.added.lo);
    RunIs(lines, h.added.lo, '+', h.added.hi);
  }

  /** No hunk starts inside one found at `at`, or inside what was stepped over there. */
  lemma NoneInside(lines: seq<string>, at: nat, h: Hunk)
    requires at < |lines| && StartsWith(lines[at], '-') && IsHunk(lines, h)
    requires at < h.removed.lo
    ensures HunkAt(lines, at).added.hi <= h.removed.lo
  {
    var found := HunkAt(lines, at);
    assert StartsWith(lines[h.removed.lo], '-');
  }

  /** The hunks are those runs, all of them and no others. */
  lemma {:induction false} HunksFrom(lines: seq<string>, at: nat, h: Hunk)
    requires at <= |lines| && AtEdge(lines, at)
    ensures h in Hunks(lines, at) <==> IsHunk(lines, h) && at <= h.removed.lo
    decreases |lines| - at
  {
    hide HunkAt, RunEnd;
    if at < |lines| {
      if !StartsWith(lines[at], '-') {
        HunksFrom(lines, at + 1, h);
      } else {
        FoundIsHunk(lines, at);
        var found := HunkAt(lines, at);
        HunksFrom(lines, found.added.hi, h);
        if IsHunk(lines, h) {
          HunkIsFound(lines, h);
          if at < h.removed.lo {
            NoneInside(lines, at, h);
          }
        }
      }
    }
  }

  lemma HunksIff(lines: seq<string>, h: Hunk)
    ensures h in Hunks(lines, 0) <==> IsHunk(lines, h)
  {
    HunksFrom(lines, 0, h);
  }
}

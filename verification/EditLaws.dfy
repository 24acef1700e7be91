/** What a decorated edit highlights, and in what order edits come. */
module EditLaws {
  import opened Text
  import opened Tokens
  import opened WordLcs
  import opened Segments
  import opened WordDiff

  // ------------------------------------------------------------------------
  // The part highlighted
  // ------------------------------------------------------------------------

  ghost predicate AllBlank(s: string) {
    forall i | 0 <= i < |s| :: IsWhitespace(s[i])
  }

  /** Whether a piece is `part` with whitespace around it, cut only from an end that is trimmed, and all of it. */
  ghost predicate CutOff(piece: string, part: string, lead: string, trail: string, trimStart: bool, trimEnd: bool) {
    && piece == lead + part + trail && AllBlank(lead) && AllBlank(trail)
    && (!trimStart && !trimEnd ==> part == piece)
    && (part != "" ==>
          && (if trimStart then !IsWhitespace(part[0]) else lead == "")
          && (if trimEnd then !IsWhitespace(part[|part| - 1]) else trail == ""))
  }

  /** Whether `part` is what a piece of an edit has highlighted: all of it where the whole edit is whitespace, else all
      of it but the whitespace at an end that is trimmed; of a piece with nothing else left, nothing. */
  ghost predicate Highlights(piece: string, part: string, blank: bool, trimStart: bool, trimEnd: bool) {
    if blank then part == piece
    else exists lead, trail :: CutOff(piece, part, lead, trail, trimStart, trimEnd)
  }

  lemma CutBetween(piece: string, start: nat, end: nat, trimStart: bool, trimEnd: bool)
    requires start < end <= |piece|
    requires forall i | 0 <= i < |piece| && !(start <= i < end) :: IsWhitespace(piece[i])
    requires if trimStart then !IsWhitespace(piece[start]) else start == 0
    requires if trimEnd then !IsWhitespace(piece[end - 1]) else end == |piece|
    ensures CutOff(piece, piece[start..end], piece[..start], piece[end..], trimStart, trimEnd)
  {
    hide IsWhitespace;
    assert piece == piece[..start] + piece[start..end] + piece[end..];
  }

  lemma CutAll(piece: string, trimStart: bool, trimEnd: bool)
    requires AllBlank(piece) && (trimStart || trimEnd || piece == "")
    ensures CutOff(piece, "", piece, "", trimStart, trimEnd)
  {
    assert piece == piece + "" + "";
  }

  lemma EditPartHighlights(piece: string, blank: bool, trimStart: bool, trimEnd: bool)
    ensures Highlights(piece, EditPart(piece, blank, trimStart, trimEnd), blank, trimStart, trimEnd)
  {
    hide IsWhitespace, CutOff;
    if !blank {
      var start := if trimStart then LeadingBlanks(piece) else 0;
      var end := if trimEnd then TrimmedEnd(piece) else |piece|;
      if start < end {
        CutBetween(piece, start, end, trimStart, trimEnd);
      } else {
        CutAll(piece, trimStart, trimEnd);
      }
    }
  }

  /** Whether an edit borders text left alone, or an end of the text, before it or after it. */
  predicate BordersBefore(changes: seq<Change>, i: nat)
    requires i < |changes|
  {
    i == 0 || changes[i - 1].side == Common
  }

  predicate BordersAfter(changes: seq<Change>, i: nat)
    requires i < |changes|
  {
    i + 1 == |changes| || changes[i + 1].side == Common
  }

  /** Whether the parts are those highlighted of an edit's lines: only its first line is trimmed at the start, where it
      borders text left alone before it, and only its last at the end, where it borders some after it. */
  ghost predicate HighlightsEdit(changes: seq<Change>, i: nat, parts: seq<string>)
    requires i < |changes|
  {
    var pieces := Split(changes[i].text, '\n');
    && |parts| == |pieces|
    && forall k | 0 <= k < |pieces| ::
         Highlights(pieces[k], parts[k], changes[i].text != "" && AllBlank(changes[i].text),
                    k == 0 && BordersBefore(changes, i), k == |pieces| - 1 && BordersAfter(changes, i))
  }

  /** The parts highlighted of the first `n` pieces. */
  function Parts(pieces: seq<string>, n: nat, blank: bool, before: bool, after: bool): (parts: seq<string>)
    requires n <= |pieces|
    ensures |parts| == n
    ensures forall k | 0 <= k < n ::
      parts[k] == EditPart(pieces[k], blank, k == 0 && before, k == |pieces| - 1 && after)
  {
    if n == 0 then [] else
      Parts(pieces, n - 1, blank, before, after)
      + [EditPart(pieces[n - 1], blank, n == 1 && before, n == |pieces| && after)]
  }

  lemma {:induction false} PartsAreMarked(pieces: seq<string>, n: nat, blank: bool, before: bool, after: bool)
    requires n <= |pieces|
    ensures Concat(Parts(pieces, n, blank, before, after)) == PiecesMarked(pieces, n, blank, before, after)
  {
    hide EditPart;
    if n > 0 {
      PartsAreMarked(pieces, n - 1, blank, before, after);
      var last := EditPart(pieces[n - 1], blank, n == 1 && before, n == |pieces| && after);
      ConcatOfSum(Parts(pieces, n - 1, blank, before, after), [last]);
      ConcatOfOne(last);
    }
  }

  /** What a pairing marks on one side is what is highlighted of that side's edits, one after another. */
  lemma EditHighlighted(changes: seq<Change>, i: nat)
    requires i < |changes| && !changes[i].side.Common?
    ensures exists parts ::
      && HighlightsEdit(changes, i, parts)
      && EditsMarked(changes, i + 1, changes[i].side) == EditsMarked(changes, i, changes[i].side) + Concat(parts)
    ensures forall side | side != changes[i].side :: EditsMarked(changes, i + 1, side) == EditsMarked(changes, i, side)
  {
    hide EditPart, Split, Highlights;
    var pieces := Split(changes[i].text, '\n');
    var blank, before, after := IsBlank(changes[i].text), BordersBefore(changes, i), BordersAfter(changes, i);
    var parts := Parts(pieces, |pieces|, blank, before, after);
    PartsAreMarked(pieces, |pieces|, blank, before, after);
    assert blank <==> changes[i].text != "" && AllBlank(changes[i].text);
    assert before == CommonAt(changes, i - 1) && after == CommonAt(changes, i + 1);
    forall k | 0 <= k < |pieces|
      ensures Highlights(pieces[k], parts[k], blank, k == 0 && before, k == |pieces| - 1 && after) {
      EditPartHighlights(pieces[k], blank, k == 0 && before, k == |pieces| - 1 && after);
    }
    assert HighlightsEdit(changes, i, parts);
    forall side | side != changes[i].side
      ensures EditsMarked(changes, i + 1, side) == EditsMarked(changes, i, side) {
      assert EditsMarked(changes, i, side) + "" == EditsMarked(changes, i, side);
    }
  }

  // ------------------------------------------------------------------------
  // What is removed comes first
  // ------------------------------------------------------------------------

  /** One token fewer has no more in common, and at most one less. */
  lemma {:induction false} LcsWithoutFirst(a: seq<string>, b: seq<string>)
    requires a != []
    ensures Lcs(a[1..], b) <= Lcs(a, b) <= Lcs(a[1..], b) + 1
    decreases |a| + |b|
  {
    if b != [] {
      LcsWithoutOther(a[1..], b);
      if a[0] != b[0] {
        LcsWithoutFirst(a, b[1..]);
      }
    }
  }

  lemma {:induction false} LcsWithoutOther(a: seq<string>, b: seq<string>)
    requires b != []
    ensures Lcs(a, b[1..]) <= Lcs(a, b) <= Lcs(a, b[1..]) + 1
    decreases |a| + |b|
  {
    if a != [] {
      LcsWithoutFirst(a, b[1..]);
      if a[0] != b[0] {
        LcsWithoutOther(a[1..], b);
      }
    }
  }

  lemma WalkFirst(a: seq<string>, b: seq<string>)
    ensures a == [] && b == [] <==> Walk(a, b) == []
    ensures Walk(a, b) != [] ==>
      match Walk(a, b)[0].side
      case Common => a != [] && b != [] && Walk(a, b)[1..] == Walk(a[1..], b[1..])
      case Removed =>
        a != [] && Walk(a, b)[1..] == Walk(a[1..], b) && (b != [] ==> a[0] != b[0] && Lcs(a[1..], b) >= Lcs(a, b[1..]))
      case Added =>
        b != [] && Walk(a, b)[1..] == Walk(a, b[1..]) && (a != [] ==> a[0] != b[0] && Lcs(a[1..], b) < Lcs(a, b[1..]))
  {
    hide Lcs;
  }

  /** Between two common tokens everything removed comes before anything added. */
  lemma {:induction false} RemovalsFirst(a: seq<string>, b: seq<string>, i: nat)
    requires i + 1 < |Walk(a, b)|
    ensures !(Walk(a, b)[i].side == Added && Walk(a, b)[i + 1].side == Removed)
    decreases |a| + |b|
  {
    hide Walk, Lcs;
    WalkFirst(a, b);
    var side, rest := Walk(a, b)[0].side, Walk(a, b)[1..];
    if i > 0 {
      match side
      case Common => RemovalsFirst(a[1..], b[1..], i - 1);
      case Removed => RemovalsFirst(a[1..], b, i - 1);
      case Added => RemovalsFirst(a, b[1..], i - 1);
    } else if side == Added && rest[0].side == Removed {
      WalkFirst(a, b[1..]);
      AddedKeepsMore(a, b);
    }
  }

  /** Where adding first keeps more, removing next cannot keep as much. */
  lemma AddedKeepsMore(a: seq<string>, b: seq<string>)
    requires a != [] && b != [] && Lcs(a[1..], b) < Lcs(a, b[1..])
    ensures |b| > 1
    ensures a[0] != b[1] ==> Lcs(a[1..], b[1..]) < Lcs(a, b[1..][1..])
  {
    LcsWithoutOther(a[1..], b);
    assert |b| > 1 ==> b[1..][0] == b[1];
  }
}

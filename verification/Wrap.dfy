/** Wrapping a row's text to a pane. */
module Wrap {
  import opened Text
  import opened Tokens

  /** The column a continuation starts at, leaving at least one of text. */
  function WrapStart(indent: nat, cols: nat): (start: nat)
    ensures start <= indent && (cols > 0 ==> start < cols)
    ensures start < indent && cols > 0 ==> start == cols - 1
  {
    var most := if cols > 0 then cols - 1 else 0;
    if indent < most then indent else most
  }

  /** Whether a word starts at `w`, right after whitespace. */
  predicate IsWordStart(chars: string, w: nat) {
    0 < w < |chars| && IsWhitespace(chars[w - 1]) && !IsWhitespace(chars[w])
  }

  /** Where a line from `pos` with the margin at `limit` folds: before the last word at or before the margin that starts
      inside the line, when what of it would fit past the margin is no more than `spare`, else at the margin. */
  function Fold(chars: string, pos: nat, limit: nat, w: nat, spare: nat): (end: nat)
    requires pos <= w <= limit < |chars| && pos < limit
    ensures pos < end <= limit
  {
    if w == pos then limit
    else if IsWordStart(chars, w) && limit - w <= spare then w
    else Fold(chars, pos, limit, w - 1, spare)
  }

  function LineEnd(chars: string, pos: nat, room: nat, spare: nat): (end: nat)
    requires pos < |chars| && room > 0
    ensures pos < end <= |chars| && end <= pos + room
  {
    if |chars| - pos <= room then |chars| else Fold(chars, pos, pos + room, pos + room, spare)
  }

  /** The first character from `pos` on that is not whitespace. */
  function SkipBlanks(chars: string, pos: nat): (next: nat)
    requires pos <= |chars|
    ensures pos <= next <= |chars|
    ensures forall i | pos <= i < next :: IsWhitespace(chars[i])
    ensures next < |chars| ==> !IsWhitespace(chars[next])
    decreases |chars| - pos
  {
    if pos < |chars| && IsWhitespace(chars[pos]) then SkipBlanks(chars, pos + 1) else pos
  }

  /** The lines from `pos` on, the first with `room` columns and the rest with `spare`. */
  function LinesFrom(chars: string, pos: nat, room: nat, spare: nat): seq<(nat, nat)>
    requires pos <= |chars| && room > 0 && spare > 0
    decreases |chars| - pos
  {
    if pos == |chars| then []
    else
      var end := LineEnd(chars, pos, room, spare);
      [(pos, end)] + LinesFrom(chars, SkipBlanks(chars, end), spare, spare)
  }

  function WrappedLines(chars: string, cols: nat, wrap: bool, indent: nat): seq<(nat, nat)> {
    if !wrap || cols == 0 || |chars| <= cols then [(0, |chars|)]
    else LinesFrom(chars, 0, cols, cols - WrapStart(indent, cols))
  }

  method WrapLines(chars: string, cols: nat, wrap: bool, indent: nat) returns (lines: seq<(nat, nat)>)
    ensures lines == WrappedLines(chars, cols, wrap, indent)
  {
    hide LinesFrom, Fold, SkipBlanks, WrapStart;
    if !wrap || cols == 0 || |chars| <= cols {
      return [(0, |chars|)];
    }
    var cont := WrapStart(indent, cols);
    lines := [];
    var pos: nat := 0;
    var room: nat := cols;
    while pos < |chars|
      invariant pos <= |chars| && 0 < room
      invariant lines + LinesFrom(chars, pos, room, cols - cont) == LinesFrom(chars, 0, cols, cols - cont)
      decreases |chars| - pos
    {
      LinesStep(chars, pos, room, cols - cont, lines);
      var end := |chars|;
      if |chars| - pos > room {
        end := FindFold(chars, pos, pos + room, cols - cont);
      }
      lines := lines + [(pos, end)];
      if end == |chars| {
        return;
      }
      pos := SkipWhitespace(chars, end);
      room := cols - cont;
    }
    NoLines(chars, room, cols - cont);
  }

  lemma NoLines(chars: string, room: nat, spare: nat)
    requires room > 0 && spare > 0
    ensures LinesFrom(chars, |chars|, room, spare) == []
  {
  }

  lemma LinesStep(chars: string, pos: nat, room: nat, spare: nat, before: seq<(nat, nat)>)
    requires pos < |chars| && room > 0 && spare > 0
    ensures var end := LineEnd(chars, pos, room, spare);
      && before + LinesFrom(chars, pos, room, spare)
        == before + [(pos, end)] + LinesFrom(chars, SkipBlanks(chars, end), spare, spare)
      && (end == |chars| ==> before + LinesFrom(chars, pos, room, spare) == before + [(pos, end)])
  {
    NoLines(chars, spare, spare);
  }

  method SkipWhitespace(chars: string, pos: nat) returns (next: nat)
    requires pos <= |chars|
    ensures next == SkipBlanks(chars, pos)
  {
    next := pos;
    while next < |chars| && IsWhitespace(chars[next])
      invariant pos <= next <= |chars| && SkipBlanks(chars, next) == SkipBlanks(chars, pos)
    {
      next := next + 1;
    }
  }

  method FindFold(chars: string, pos: nat, limit: nat, spare: nat) returns (end: nat)
    requires pos < limit < |chars|
    ensures end == Fold(chars, pos, limit, limit, spare)
  {
    var w := limit;
    while w > pos
      invariant pos <= w <= limit && Fold(chars, pos, limit, w, spare) == Fold(chars, pos, limit, limit, spare)
    {
      if IsWhitespace(chars[w - 1]) && !IsWhitespace(chars[w]) {
        if limit - w <= spare {
          return w;
        }
      }
      w := w - 1;
    }
    return limit;
  }

  /** How many screen rows a row takes. */
  method RowHeight(chars: string, cols: nat, wrap: bool, indent: nat) returns (height: nat)
    ensures height == |WrappedLines(chars, cols, wrap, indent)|
  {
    if !wrap || cols == 0 || |chars| <= cols {
      return 1;
    }
    var lines := WrapLines(chars, cols, wrap, indent);
    return |lines|;
  }

  // ------------------------------------------------------------------------
  // What the lines are
  // ------------------------------------------------------------------------

  /** A fold lands on the last word start in reach, and on the margin only where there is none. */
  lemma {:induction false} FoldIsLastWord(chars: string, pos: nat, limit: nat, w: nat, spare: nat)
    requires pos <= w <= limit < |chars| && pos < limit
    ensures var end := Fold(chars, pos, limit, w, spare);
      || (pos < end <= w && IsWordStart(chars, end) && limit - end <= spare
          && forall v | end < v <= w :: !(IsWordStart(chars, v) && limit - v <= spare))
      || (end == limit && forall v | pos < v <= w :: !(IsWordStart(chars, v) && limit - v <= spare))
  {
    if w > pos && !(IsWordStart(chars, w) && limit - w <= spare) {
      FoldIsLastWord(chars, pos, limit, w - 1, spare);
    }
  }

  /** Whether the ranges read `chars` from `pos` on in order: each non-empty, within its width, starting on no
      whitespace but at the very first, and nothing but whitespace between two of them or after the last. */
  ghost predicate Reads(lines: seq<(nat, nat)>, chars: string, pos: nat, room: nat, spare: nat)
    decreases |lines|
  {
    if lines == [] then forall i | pos <= i < |chars| :: IsWhitespace(chars[i])
    else
      && pos <= lines[0].0 < lines[0].1 <= |chars|
      && lines[0].1 - lines[0].0 <= room
      && (forall i | pos <= i < lines[0].0 :: IsWhitespace(chars[i]))
      && (0 < lines[0].0 ==> !IsWhitespace(chars[lines[0].0]))
      && Reads(lines[1..], chars, lines[0].1, spare, spare)
  }

  lemma {:induction false} LinesRead(chars: string, pos: nat, start: nat, room: nat, spare: nat)
    requires pos <= start <= |chars| && room > 0 && spare > 0
    requires forall i | pos <= i < start :: IsWhitespace(chars[i])
    requires 0 < start < |chars| ==> !IsWhitespace(chars[start])
    ensures Reads(LinesFrom(chars, start, room, spare), chars, pos, room, spare)
    decreases |chars| - start
  {
    if start < |chars| {
      var end := LineEnd(chars, start, room, spare);
      var next := SkipBlanks(chars, end);
      LinesRead(chars, end, next, spare, spare);
      assert LinesFrom(chars, start, room, spare)[1..] == LinesFrom(chars, next, spare, spare);
    }
  }

  /** Wrapped text loses nothing but whitespace: from its first character on, in order, each line within its width. */
  lemma WrappedLinesRead(chars: string, cols: nat, indent: nat)
    requires 0 < cols < |chars|
    ensures var lines := WrappedLines(chars, cols, true, indent);
      lines != [] && lines[0].0 == 0 && Reads(lines, chars, 0, cols, cols - WrapStart(indent, cols))
  {
    LinesRead(chars, 0, 0, cols, cols - WrapStart(indent, cols));
  }

  /** Whether a line starting at `line.0`, with `room` columns before the margin, ends where it should: at the end of
      the text if that fits, else before the last word that starts in reach of the margin, else at the margin. */
  ghost predicate EndsRight(line: (nat, nat), chars: string, room: nat, spare: nat) {
    var limit := line.0 + room;
    && line.0 < line.1
    && if |chars| <= limit then line.1 == |chars|
       else
         && (line.1 == limit || (line.1 < limit && IsWordStart(chars, line.1) && limit - line.1 <= spare))
         && forall v | line.1 < v <= limit :: !(IsWordStart(chars, v) && limit - v <= spare)
  }

  lemma {:induction false} LinesEndRight(chars: string, pos: nat, room: nat, spare: nat, k: nat)
    requires pos <= |chars| && room > 0 && spare > 0 && k < |LinesFrom(chars, pos, room, spare)|
    ensures EndsRight(LinesFrom(chars, pos, room, spare)[k], chars, if k == 0 then room else spare, spare)
    decreases k
  {
    hide Fold;
    if k == 0 {
      if |chars| - pos > room {
        FoldIsLastWord(chars, pos, pos + room, pos + room, spare);
      }
    } else {
      LinesEndRight(chars, SkipBlanks(chars, LineEnd(chars, pos, room, spare)), spare, spare, k - 1);
    }
  }

  /** Every line of wrapped text ends where it should, the first within the pane and the others past the indent. */
  lemma WrappedLinesEndRight(chars: string, cols: nat, indent: nat, k: nat)
    requires 0 < cols < |chars| && k < |WrappedLines(chars, cols, true, indent)|
    ensures var spare := cols - WrapStart(indent, cols);
      EndsRight(WrappedLines(chars, cols, true, indent)[k], chars, if k == 0 then cols else spare, spare)
  {
    LinesEndRight(chars, 0, cols, cols - WrapStart(indent, cols), k);
  }

  // ------------------------------------------------------------------------
  // Blank lines
  // ------------------------------------------------------------------------

  predicate IsBlankRange(chars: string, range: (nat, nat))
    requires range.0 <= range.1 <= |chars|
  {
    forall i | range.0 <= i < range.1 :: IsWhitespace(chars[i])
  }

  lemma FirstFold(chars: string, cols: nat, indent: nat)
    requires 0 < cols < |chars|
    ensures var lines := WrappedLines(chars, cols, true, indent);
      lines != [] && lines[0] == (0, Fold(chars, 0, cols, cols, cols - WrapStart(indent, cols)))
  {
    hide Fold;
  }

  /** Only a blank that reaches the margin, or a first word after one too long for its line but not for the next, leaves
      the first line blank: leading whitespace is a break there. */
  lemma FirstLineBlankIff(chars: string, cols: nat, indent: nat)
    requires 0 < cols < |chars|
    ensures
      var lines, n := WrappedLines(chars, cols, true, indent), SkipBlanks(chars, 0);
      && lines != [] && lines[0].0 == 0 <= lines[0].1 <= |chars|
      && (IsBlankRange(chars, lines[0]) <==>
            || n >= cols
            || (0 < n && cols - n <= cols - WrapStart(indent, cols)
                && forall w | n < w <= cols :: !IsWordStart(chars, w)))
  {
    hide Fold, WrappedLines;
    var n, spare := SkipBlanks(chars, 0), cols - WrapStart(indent, cols);
    var end := Fold(chars, 0, cols, cols, spare);
    FoldIsLastWord(chars, 0, cols, cols, spare);
    FirstFold(chars, cols, indent);
    if n < cols {
      assert 0 < n ==> IsWordStart(chars, n);
      forall w | n < w <= cols && IsWordStart(chars, w) ensures cols - w < cols - n {
      }
    }
  }

  /** A word too long for what is left of the first line is carried to the next, its blank left alone before it. */
  lemma LeadingBlankBreaks()
    ensures WrappedLines("  abcdefgh", 6, true, 0)[0] == (0, 2)
    ensures IsBlankRange("  abcdefgh", (0, 2))
  {
    hide Fold, WrappedLines;
    var chars := "  abcdefgh";
    FirstFold(chars, 6, 0);
    FoldIsLastWord(chars, 0, 6, 6, 6);
    assert IsWordStart(chars, 2);
    forall w | 0 < w <= 6 && w != 2 ensures !IsWordStart(chars, w) {
      assert w == 1 || w == 3 || w == 4 || w == 5 || w == 6;
    }
  }

  lemma {:induction false} ReadsFrom(lines: seq<(nat, nat)>, chars: string, pos: nat, room: nat, spare: nat, k: nat)
    requires Reads(lines, chars, pos, room, spare) && k < |lines|
    ensures pos <= lines[k].0 < lines[k].1 <= |chars|
    ensures 0 < lines[k].0 ==> !IsWhitespace(chars[lines[k].0])
    ensures k > 0 ==> 0 < lines[k].0
    decreases |lines|
  {
    if k > 0 {
      ReadsFrom(lines[1..], chars, lines[0].1, spare, spare, k - 1);
    }
  }

  /** No line after the first is blank. */
  lemma LaterLinesHoldText(chars: string, cols: nat, indent: nat, k: nat)
    requires 0 < cols < |chars| && 0 < k < |WrappedLines(chars, cols, true, indent)|
    ensures var line := WrappedLines(chars, cols, true, indent)[k];
      line.0 < line.1 <= |chars| && !IsBlankRange(chars, line)
  {
    WrappedLinesRead(chars, cols, indent);
    ReadsFrom(WrappedLines(chars, cols, true, indent), chars, 0, cols, cols - WrapStart(indent, cols), k);
  }
}

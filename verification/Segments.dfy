/** A changed line as stretches of text, each the edit itself or text the edit left alone. */
module Segments {
  import opened Text
  import opened Tokens

  datatype Segment = Segment(changed: bool, text: string)

  // ------------------------------------------------------------------------
  // Reading a line
  // ------------------------------------------------------------------------

  function LineText(line: seq<Segment>): string {
    if line == [] then "" else line[0].text + LineText(line[1..])
  }

  /** The text of the stretches marked `changed`. */
  function Marked(line: seq<Segment>, changed: bool): string {
    if line == [] then ""
    else (if line[0].changed == changed then line[0].text else "") + Marked(line[1..], changed)
  }

  /** No stretch is empty, and no two neighbours are marked alike. */
  ghost predicate Neat(line: seq<Segment>) {
    && (forall i | 0 <= i < |line| :: line[i].text != "")
    && (forall i | 0 < i < |line| :: line[i - 1].changed != line[i].changed)
  }

  lemma {:induction false} LineConcat(a: seq<Segment>, b: seq<Segment>, changed: bool)
    ensures LineText(a + b) == LineText(a) + LineText(b)
    ensures Marked(a + b, changed) == Marked(a, changed) + Marked(b, changed)
  {
    if a == [] {
      assert a + b == b;
    } else {
      LineConcat(a[1..], b, changed);
      assert (a + b)[1..] == a[1..] + b;
      Assoc(a[0].text, LineText(a[1..]), LineText(b));
      Assoc(if a[0].changed == changed then a[0].text else "", Marked(a[1..], changed), Marked(b, changed));
    }
  }

  lemma OneStretch(s: Segment, changed: bool)
    ensures LineText([s]) == s.text
    ensures Marked([s], changed) == if s.changed == changed then s.text else ""
  {
    assert LineText([s][1..]) == "" && Marked([s][1..], changed) == "";
  }

  lemma LastStretch(front: seq<Segment>, last: Segment, changed: bool)
    ensures LineText(front + [last]) == LineText(front) + last.text
    ensures Marked(front + [last], changed)
      == Marked(front, changed) + if last.changed == changed then last.text else ""
  {
    LineConcat(front, [last], changed);
    OneStretch(last, changed);
  }

  // ------------------------------------------------------------------------
  // Whitespace
  // ------------------------------------------------------------------------

  /** The text with its whitespace deleted. */
  function Strip(s: string): string {
    if s == "" then "" else (if IsWhitespace(s[0]) then "" else [s[0]]) + Strip(s[1..])
  }

  lemma {:induction false} StripConcat(a: string, b: string)
    ensures Strip(a + b) == Strip(a) + Strip(b)
  {
    if a == "" {
      assert a + b == b;
    } else {
      StripConcat(a[1..], b);
      assert (a + b)[1..] == a[1..] + b;
      Assoc(if IsWhitespace(a[0]) then "" else [a[0]], Strip(a[1..]), Strip(b));
    }
  }

  lemma {:induction false} BlankStrips(s: string)
    requires forall i | 0 <= i < |s| :: IsWhitespace(s[i])
    ensures Strip(s) == ""
  {
    if s != "" {
      BlankStrips(s[1..]);
    }
  }

  /** How many whitespace characters `s` starts with. */
  function LeadingBlanks(s: string): (n: nat)
    ensures n <= |s|
    ensures forall i | 0 <= i < n :: IsWhitespace(s[i])
    ensures n < |s| ==> !IsWhitespace(s[n])
  {
    if s == "" || !IsWhitespace(s[0]) then 0 else 1 + LeadingBlanks(s[1..])
  }

  /** How much of `s` is left when the whitespace at its end is cut. */
  function TrimmedEnd(s: string): (n: nat)
    ensures n <= |s|
    ensures forall i | n <= i < |s| :: IsWhitespace(s[i])
    ensures 0 < n ==> !IsWhitespace(s[n - 1])
  {
    if s == "" || !IsWhitespace(s[|s| - 1]) then |s| else TrimmedEnd(s[..|s| - 1])
  }

  /** Non-empty and nothing but whitespace. */
  predicate IsBlank(s: string) {
    s != "" && forall i | 0 <= i < |s| :: IsWhitespace(s[i])
  }

  // ------------------------------------------------------------------------
  // Writing a line
  // ------------------------------------------------------------------------

  /** One more stretch, joined to the last when they are marked alike. */
  method PushSegment(line: seq<Segment>, text: string, changed: bool) returns (longer: seq<Segment>)
    ensures LineText(longer) == LineText(line) + text
    ensures Marked(longer, changed) == Marked(line, changed) + text
    ensures Marked(longer, !changed) == Marked(line, !changed)
    ensures Neat(line) ==> Neat(longer)
  {
    hide LineText, Marked;
    if text == "" {
      return line;
    }
    if line != [] && line[|line| - 1].changed == changed {
      ghost var front, last := line[..|line| - 1], line[|line| - 1];
      longer := line[|line| - 1 := Segment(changed, line[|line| - 1].text + text)];
      JoinedLast(front, last, text);
      assert line == front + [last] && longer == front + [Segment(changed, last.text + text)];
    } else {
      longer := line + [Segment(changed, text)];
      LastStretch(line, Segment(changed, text), changed);
      LastStretch(line, Segment(changed, text), !changed);
    }
  }

  lemma JoinedLast(front: seq<Segment>, last: Segment, text: string)
    ensures var longer := Segment(last.changed, last.text + text);
      && LineText(front + [longer]) == LineText(front + [last]) + text
      && Marked(front + [longer], last.changed) == Marked(front + [last], last.changed) + text
      && Marked(front + [longer], !last.changed) == Marked(front + [last], !last.changed)
  {
    var longer := Segment(last.changed, last.text + text);
    LastStretch(front, last, last.changed);
    LastStretch(front, last, !last.changed);
    LastStretch(front, longer, last.changed);
    LastStretch(front, longer, !last.changed);
    Assoc(LineText(front), last.text, text);
    Assoc(Marked(front, last.changed), last.text, text);
  }

  /** The part of an edit's piece that is highlighted: all of it, less the whitespace at an end that borders text left
      alone. */
  function EditPart(piece: string, whitespaceEdit: bool, trimStart: bool, trimEnd: bool): string {
    var start := if !whitespaceEdit && trimStart then LeadingBlanks(piece) else 0;
    var end := if !whitespaceEdit && trimEnd then TrimmedEnd(piece) else |piece|;
    if start < end then piece[start..end] else ""
  }

  /** What marking an edit may move out of the highlight: whitespace at its ends, never anything else. */
  ghost predicate MarkedBut(line: seq<Segment>, longer: seq<Segment>, piece: string) {
    && Strip(Marked(longer, true)) == Strip(Marked(line, true)) + Strip(piece)
    && Strip(Marked(longer, false)) == Strip(Marked(line, false))
  }

  /** Lay one piece of one change onto its line: text left alone as it is, an edit less its bordering whitespace,
      unless the edit is all whitespace. */
  method MarkPiece(
    line: seq<Segment>, piece: string, edit: bool, whitespaceEdit: bool, trimStart: bool, trimEnd: bool)
    returns (longer: seq<Segment>)
    ensures LineText(longer) == LineText(line) + piece
    ensures !edit ==> Marked(longer, false) == Marked(line, false) + piece && Marked(longer, true) == Marked(line, true)
    ensures edit ==> MarkedBut(line, longer, piece)
    ensures edit ==> Marked(longer, true) == Marked(line, true) + EditPart(piece, whitespaceEdit, trimStart, trimEnd)
    ensures Neat(line) ==> Neat(longer)
  {
    if piece == "" {
      return line;
    }
    if !edit {
      longer := PushSegment(line, piece, false);
      return;
    }
    var start := if !whitespaceEdit && trimStart then LeadingBlanks(piece) else 0;
    var end := if !whitespaceEdit && trimEnd then TrimmedEnd(piece) else |piece|;
    if end <= start {
      forall i | 0 <= i < |piece| ensures IsWhitespace(piece[i]) {
      }
      BlankStrips(piece);
      StripConcat(Marked(line, false), piece);
      longer := PushSegment(line, piece, false);
      return;
    }
    var before := PushSegment(line, piece[..start], false);
    var middle := PushSegment(before, piece[start..end], true);
    longer := PushSegment(middle, piece[end..], false);
    ThreeParts(line, before, middle, longer, piece, start, end);
  }

  lemma ThreeParts(
    line: seq<Segment>, before: seq<Segment>, middle: seq<Segment>, longer: seq<Segment>, piece: string, start: nat,
    end: nat)
    requires start < end <= |piece|
    requires forall i | 0 <= i < |piece| && !(start <= i < end) :: IsWhitespace(piece[i])
    requires LineText(longer) == LineText(line) + piece[..start] + piece[start..end] + piece[end..]
    requires Marked(before, false) == Marked(line, false) + piece[..start] && Marked(before, true) == Marked(line, true)
    requires Marked(middle, true) == Marked(before, true) + piece[start..end]
    requires Marked(middle, false) == Marked(before, false)
    requires Marked(longer, false) == Marked(middle, false) + piece[end..]
    requires Marked(longer, true) == Marked(middle, true)
    ensures LineText(longer) == LineText(line) + piece
    ensures MarkedBut(line, longer, piece)
  {
    hide Marked, LineText, Strip, IsWhitespace;
    assert piece == piece[..start] + (piece[start..end] + piece[end..]);
    Assoc(LineText(line), piece[..start], piece[start..end] + piece[end..]);
    Assoc(LineText(line) + piece[..start], piece[start..end], piece[end..]);
    BlankStrips(piece[..start]);
    BlankStrips(piece[end..]);
    StripConcat(piece[..start], piece[start..end] + piece[end..]);
    StripConcat(piece[start..end], piece[end..]);
    StripConcat(Marked(line, true), piece[start..end]);
    StripConcat(Marked(line, false), piece[..start]);
    StripConcat(Marked(line, false) + piece[..start], piece[end..]);
  }
}

/** The decorator of a hunk's changed lines: pair, diff word by word, and cut the runs back onto their lines. */
module WordDiff {
  import opened Text
  import opened Tokens
  import opened WordLcs
  import opened Pairings
  import opened Segments

  /** The most tokens either side of a pairing may run to. */
  const TOKEN_LIMIT := 1024

  // ------------------------------------------------------------------------
  // Laying text onto lines
  // ------------------------------------------------------------------------

  function Newlines(s: string): nat {
    if s == "" then 0 else (if s[0] == '\n' then 1 else 0) + Newlines(s[1..])
  }

  lemma {:induction false} NewlinesConcat(a: string, b: string)
    ensures Newlines(a + b) == Newlines(a) + Newlines(b)
  {
    if a == "" {
      assert a + b == b;
    } else {
      NewlinesConcat(a[1..], b);
      assert (a + b)[1..] == a[1..] + b;
    }
  }

  lemma {:induction false} NoNewlines(s: string)
    requires '\n' !in s
    ensures Newlines(s) == 0
  {
    if s != "" {
      NoNewlines(s[1..]);
    }
  }

  lemma {:induction false} NewlinesOfJoin(lines: seq<string>)
    requires lines != [] && forall l | l in lines :: '\n' !in l
    ensures Newlines(Join(lines, '\n')) == |lines| - 1
  {
    NoNewlines(lines[0]);
    if |lines| > 1 {
      NewlinesOfJoin(lines[1..]);
      NewlinesConcat(lines[0] + "\n", Join(lines[1..], '\n'));
      NewlinesConcat(lines[0], "\n");
      assert Newlines("\n"[1..]) == 0;
    }
  }

  function Texts(lines: seq<seq<Segment>>): (texts: seq<string>)
    ensures |texts| == |lines|
    ensures forall i | 0 <= i < |lines| :: texts[i] == LineText(lines[i])
  {
    seq(|lines|, i requires 0 <= i < |lines| => LineText(lines[i]))
  }

  /** The text marked `changed` over several lines. */
  function MarkedOver(lines: seq<seq<Segment>>, changed: bool): string {
    if lines == [] then "" else Marked(lines[0], changed) + MarkedOver(lines[1..], changed)
  }

  /** So far `text` is laid out, the last of it on line `at`, the lines after it still empty; of what is laid, `kept`
      is left alone and `edited` marked, whitespace aside. */
  ghost predicate Laid(lines: seq<seq<Segment>>, at: nat, text: string, kept: string, edited: string) {
    && at < |lines|
    && Join(Texts(lines[..at + 1]), '\n') == text
    && Newlines(text) == at
    && (forall i | at < i < |lines| :: lines[i] == [])
    && (forall i | 0 <= i <= at :: '\n' !in LineText(lines[i]))
    && (forall i | 0 <= i < |lines| :: Neat(lines[i]))
    && Strip(MarkedOver(lines, false)) == Strip(kept)
    && Strip(MarkedOver(lines, true)) == Strip(edited)
  }

  lemma LaidStarts(lines: seq<seq<Segment>>)
    requires lines != [] && forall i | 0 <= i < |lines| :: lines[i] == []
    ensures Laid(lines, 0, "", "", "")
  {
    NothingMarked(lines, true);
    NothingMarked(lines, false);
    assert Texts(lines[..1]) == [""];
  }

  lemma {:induction false} NothingMarked(lines: seq<seq<Segment>>, changed: bool)
    requires forall i | 0 <= i < |lines| :: lines[i] == []
    ensures MarkedOver(lines, changed) == ""
  {
    if lines != [] {
      NothingMarked(lines[1..], changed);
    }
  }

  /** With nothing after it, the line written last is the end of what is marked. */
  lemma {:induction false} MarkedUpTo(lines: seq<seq<Segment>>, at: nat, changed: bool)
    requires at < |lines| && forall i | at < i < |lines| :: lines[i] == []
    ensures MarkedOver(lines, changed) == MarkedOver(lines[..at], changed) + Marked(lines[at], changed)
  {
    hide Marked;
    if at == 0 {
      NothingMarked(lines[1..], changed);
      assert lines[..0] == [];
    } else {
      MarkedUpTo(lines[1..], at - 1, changed);
      assert lines[..at][1..] == lines[1..][..at - 1];
      Assoc(Marked(lines[0], changed), MarkedOver(lines[1..][..at - 1], changed), Marked(lines[at], changed));
    }
  }

  lemma {:induction false} JoinGrows(pieces: seq<string>, last: string, more: string)
    ensures Join(pieces + [last + more], '\n') == Join(pieces + [last], '\n') + more
  {
    if pieces != [] {
      JoinGrows(pieces[1..], last, more);
      assert (pieces + [last + more])[1..] == pieces[1..] + [last + more];
      assert (pieces + [last])[1..] == pieces[1..] + [last];
      Assoc(pieces[0] + "\n", Join(pieces[1..] + [last], '\n'), more);
    }
  }

  lemma {:induction false} JoinLonger(pieces: seq<string>, last: string)
    requires pieces != []
    ensures Join(pieces + [last], '\n') == Join(pieces, '\n') + "\n" + last
  {
    if |pieces| == 1 {
      assert (pieces + [last])[1..] == [last];
    } else {
      JoinLonger(pieces[1..], last);
      assert (pieces + [last])[1..] == pieces[1..] + [last];
      Assoc(pieces[0] + "\n", Join(pieces[1..], '\n'), "\n" + last);
      Assoc(Join(pieces[1..], '\n'), "\n", last);
      Assoc(Join(pieces, '\n'), "\n", last);
    }
  }

  /** One piece laid on the current line. */
  lemma LaidPiece(
    lines: seq<seq<Segment>>, at: nat, text: string, kept: string, edited: string,
    piece: string, edit: bool, longer: seq<Segment>)
    requires Laid(lines, at, text, kept, edited) && '\n' !in piece
    requires LineText(longer) == LineText(lines[at]) + piece && (Neat(lines[at]) ==> Neat(longer))
    requires !edit ==> Marked(longer, false) == Marked(lines[at], false) + piece
    requires !edit ==> Marked(longer, true) == Marked(lines[at], true)
    requires edit ==> MarkedBut(lines[at], longer, piece)
    ensures Laid(lines[at := longer], at, text + piece, if edit then kept else kept + piece,
                 if edit then edited + piece else edited)
  {
    hide Marked, LineText, Strip, MarkedOver, Newlines, Join, Neat;
    var after := lines[at := longer];
    NoNewlines(piece);
    NewlinesConcat(text, piece);
    var front := Texts(lines[..at]);
    assert Texts(lines[..at + 1]) == front + [LineText(lines[at])];
    assert Texts(after[..at + 1]) == front + [LineText(lines[at]) + piece];
    JoinGrows(front, LineText(lines[at]), piece);
    assert after[..at] == lines[..at];
    forall changed: bool ensures Strip(MarkedOver(after, changed)) ==
        Strip(MarkedOver(lines, changed)) + if changed == edit then Strip(piece) else "" {
      MarkedUpTo(lines, at, changed);
      MarkedUpTo(after, at, changed);
      StripConcat(MarkedOver(lines[..at], changed), Marked(lines[at], changed));
      StripConcat(MarkedOver(lines[..at], changed), Marked(longer, changed));
      StripConcat(Marked(lines[at], changed), piece);
      Assoc(Strip(MarkedOver(lines[..at], changed)), Strip(Marked(lines[at], changed)), Strip(piece));
    }
    StripConcat(kept, piece);
    StripConcat(edited, piece);
  }

  /** Stepping on to the next line. */
  lemma LaidNewline(
    lines: seq<seq<Segment>>, at: nat, text: string, kept: string, edited: string, edit: bool)
    requires Laid(lines, at, text, kept, edited) && at + 1 < |lines|
    ensures Laid(lines, at + 1, text + "\n", if edit then kept else kept + "\n", if edit then edited + "\n" else edited)
  {
    hide Marked, MarkedOver, Join, Neat;
    NewlinesConcat(text, "\n");
    assert Newlines("\n"[1..]) == 0;
    assert Texts(lines[..at + 2]) == Texts(lines[..at + 1]) + [""];
    JoinLonger(Texts(lines[..at + 1]), "");
    assert text + "\n" + "" == text + "\n";
    StripConcat(kept, "\n");
    StripConcat(edited, "\n");
    BlankStrips("\n");
  }

  /** Once all of the lines' text is laid out, each line reads as it did. */
  lemma LaidAll(lines: seq<seq<Segment>>, at: nat, originals: seq<string>, kept: string, edited: string)
    requires |lines| == |originals| > 0 && forall l | l in originals :: '\n' !in l
    requires Laid(lines, at, Join(originals, '\n'), kept, edited)
    ensures Texts(lines) == originals
  {
    NewlinesOfJoin(originals);
    assert lines[..at + 1] == lines;
    forall l | l in Texts(lines) ensures '\n' !in l {
    }
    SplitJoin(Texts(lines), '\n');
    SplitJoin(originals, '\n');
  }

  // ------------------------------------------------------------------------
  // One change
  // ------------------------------------------------------------------------

  /** The first `n` pieces, each but the last of all with its newline. */
  function Sofar(pieces: seq<string>, n: nat): string
    requires n <= |pieces|
  {
    if n == 0 then ""
    else Sofar(pieces, n - 1) + pieces[n - 1] + if n == |pieces| then "" else "\n"
  }

  lemma {:induction false} SofarIsJoin(pieces: seq<string>, n: nat)
    requires 1 <= n <= |pieces|
    ensures Sofar(pieces, n) == Join(pieces[..n], '\n') + if n == |pieces| then "" else "\n"
  {
    if n == 1 {
      assert pieces[..1] == [pieces[0]];
      assert Sofar(pieces, 0) + pieces[0] == pieces[0];
    } else {
      SofarIsJoin(pieces, n - 1);
      assert pieces[..n] == pieces[..n - 1] + [pieces[n - 1]];
      JoinLonger(pieces[..n - 1], pieces[n - 1]);
    }
  }

  lemma SofarAll(text: string)
    ensures var pieces := Split(text, '\n'); Sofar(pieces, |pieces|) == text
    ensures Newlines(text) == |Split(text, '\n')| - 1
  {
    var pieces := Split(text, '\n');
    SofarIsJoin(pieces, |pieces|);
    assert pieces[..|pieces|] == pieces;
    NewlinesOfJoin(pieces);
  }

  /** One side of a pairing as its lines are filled in: the lines, and the one being written. */
  datatype Half = Half(lines: seq<seq<Segment>>, at: nat)

  ghost predicate Holds(half: Half, text: string, kept: string, edited: string) {
    Laid(half.lines, half.at, text, kept, edited)
  }

  /** The text marked on one side, character for character. */
  ghost predicate Lit(half: Half, lit: string) {
    MarkedOver(half.lines, true) == lit
  }

  lemma LitPiece(
    half: Half, text: string, kept: string, edited: string, longer: seq<Segment>, lit: string, more: string)
    requires Holds(half, text, kept, edited) && Lit(half, lit)
    requires half.at < |half.lines| && Marked(longer, true) == Marked(half.lines[half.at], true) + more
    ensures Lit(half.(lines := half.lines[half.at := longer]), lit + more)
  {
    hide Marked, MarkedOver, Neat, Strip, Newlines, Join, LineText;
    var lines, at := half.lines, half.at;
    MarkedUpTo(lines, at, true);
    MarkedUpTo(lines[at := longer], at, true);
    assert lines[at := longer][..at] == lines[..at];
    Assoc(MarkedOver(lines[..at], true), Marked(lines[at], true), more);
  }

  /** Lay one piece, and the newline after it unless it is the last, on one side. */
  method LayPiece(
    half: Half, piece: string, edit: bool, whitespaceEdit: bool, trimStart: bool, trimEnd: bool, last: bool,
    ghost text: string, ghost kept: string, ghost edited: string, ghost lit: string)
    returns (next: Half)
    requires Holds(half, text, kept, edited) && Lit(half, lit) && '\n' !in piece
    requires !last ==> half.at + 1 < |half.lines|
    ensures |next.lines| == |half.lines| && next.at == if last then half.at else half.at + 1
    ensures var more := piece + if last then "" else "\n";
      Holds(next, text + more, if edit then kept else kept + more, if edit then edited + more else edited)
    ensures Lit(next, lit + if edit then EditPart(piece, whitespaceEdit, trimStart, trimEnd) else "")
  {
    hide Laid, Lit, EditPart;
    next := half;
    LaidWithin(half, text, kept, edited);
    if half.at < |half.lines| {
      var line := MarkPiece(half.lines[half.at], piece, edit, whitespaceEdit, trimStart, trimEnd);
      LaidPiece(half.lines, half.at, text, kept, edited, piece, edit, line);
      ghost var part := if edit then EditPart(piece, whitespaceEdit, trimStart, trimEnd) else "";
      assert Marked(half.lines[half.at], true) + "" == Marked(half.lines[half.at], true);
      LitPiece(half, text, kept, edited, line, lit, part);
      next := Half(half.lines[half.at := line], half.at);
      LitLines(next, half.at + 1, lit + part);
    }
    if !last {
      LaidNewline(next.lines, next.at, text + piece, if edit then kept else kept + piece,
                  if edit then edited + piece else edited, edit);
      next := next.(at := next.at + 1);
    }
    Assoc(text, piece, "\n");
    Assoc(kept, piece, "\n");
    Assoc(edited, piece, "\n");
    assert piece + "" == piece;
  }

  lemma LitLines(half: Half, at: nat, lit: string)
    requires Lit(half, lit)
    ensures Lit(half.(at := at), lit)
  {
  }

  lemma LaidWithin(half: Half, text: string, kept: string, edited: string)
    requires Holds(half, text, kept, edited)
    ensures half.at < |half.lines|
  {
  }

  /** What the first `n` pieces of an edit have marked: each piece, less the whitespace at either end of the edit that
      borders text left alone, unless the whole edit is whitespace. */
  function PiecesMarked(pieces: seq<string>, n: nat, blank: bool, previousCommon: bool, followingCommon: bool): string
    requires n <= |pieces|
  {
    if n == 0 then ""
    else
      PiecesMarked(pieces, n - 1, blank, previousCommon, followingCommon)
      + EditPart(pieces[n - 1], blank, n == 1 && previousCommon, n == |pieces| && followingCommon)
  }

  /** What an edit marks. */
  function EditMarked(text: string, previousCommon: bool, followingCommon: bool): string {
    var pieces := Split(text, '\n');
    PiecesMarked(pieces, |pieces|, IsBlank(text), previousCommon, followingCommon)
  }

  /** Lay one change onto both sides: common text advances both, removed and added text only its own. */
  method LayChange(
    change: Change, previousCommon: bool, followingCommon: bool, removed: Half, added: Half,
    ghost oldText: string, ghost newText: string, ghost kept: string, ghost cut: string, ghost gained: string,
    ghost litCut: string, ghost litGained: string)
    returns (removed': Half, added': Half)
    requires Lit(removed, litCut) && Lit(added, litGained)
    requires Holds(removed, oldText, kept, cut) && Holds(added, newText, kept, gained)
    requires !change.side.Added? ==> removed.at + Newlines(change.text) < |removed.lines|
    requires !change.side.Removed? ==> added.at + Newlines(change.text) < |added.lines|
    ensures |removed'.lines| == |removed.lines| && |added'.lines| == |added.lines|
    ensures var kept' := if change.side.Common? then kept + change.text else kept;
      && Holds(removed', if change.side.Added? then oldText else oldText + change.text,
               kept', if change.side.Removed? then cut + change.text else cut)
      && Holds(added', if change.side.Removed? then newText else newText + change.text,
               kept', if change.side.Added? then gained + change.text else gained)
    ensures var marked := EditMarked(change.text, previousCommon, followingCommon);
      && Lit(removed', if change.side.Removed? then litCut + marked else litCut)
      && Lit(added', if change.side.Added? then litGained + marked else litGained)
  {
    hide Holds, Newlines, Lit, EditPart, MarkedSoFar, EditMarked, Sofar, IsBlank, Split;
    var removedRun, addedRun := change.side.Removed?, change.side.Added?;
    var whitespaceEdit := !change.side.Common? && IsBlank(change.text);
    var pieces := Split(change.text, '\n');
    var last := |pieces| - 1;
    removed', added' := removed, added;
    SofarAll(change.text);
    NoMore(oldText, newText, kept);
    NoMore(cut, gained, kept);
    NoMore(litCut, litGained, kept);
    NothingSoFar(pieces, change, previousCommon, followingCommon);
    MarkedInAll(change, previousCommon, followingCommon);
    for position := 0 to |pieces|
      invariant |removed'.lines| == |removed.lines| && |added'.lines| == |added.lines|
      invariant removed'.at == if addedRun then removed.at else removed.at + Stepped(position, last)
      invariant added'.at == if removedRun then added.at else added.at + Stepped(position, last)
      invariant Holds(removed', With(oldText, !addedRun, Sofar(pieces, position)),
                      With(kept, change.side.Common?, Sofar(pieces, position)),
                      With(cut, removedRun, Sofar(pieces, position)))
      invariant Holds(added', With(newText, !removedRun, Sofar(pieces, position)),
                      With(kept, change.side.Common?, Sofar(pieces, position)),
                      With(gained, addedRun, Sofar(pieces, position)))
      invariant Lit(
        removed',
        With(litCut, removedRun, MarkedSoFar(pieces, position, change, previousCommon, followingCommon)))
      invariant Lit(
        added',
        With(litGained, addedRun, MarkedSoFar(pieces, position, change, previousCommon, followingCommon)))
    {
      ghost var marked := MarkedSoFar(pieces, position, change, previousCommon, followingCommon);
      var piece := pieces[position];
      assert piece in pieces;
      ghost var before := Sofar(pieces, position);
      ghost var more := piece + if position == last then "" else "\n";
      SofarStep(pieces, position);
      WithMore(oldText, before, more);
      WithMore(newText, before, more);
      WithMore(kept, before, more);
      WithMore(cut, before, more);
      WithMore(gained, before, more);
      ghost var part := EditPart(
        piece, IsBlank(change.text), position == 0 && previousCommon, position == last && followingCommon);
      MarkedStep(pieces, position, change, previousCommon, followingCommon);
      WithMore(litCut, marked, part);
      WithMore(litGained, marked, part);
      NoMore(litCut, litGained, kept);
      var trimStart, trimEnd := position == 0 && previousCommon, position == last && followingCommon;
      if !addedRun {
        removed' := LayPiece(removed', piece, removedRun, whitespaceEdit, trimStart, trimEnd, position == last,
                             oldText + before, With(kept, change.side.Common?, before), With(cut, removedRun, before),
                             With(litCut, removedRun, marked));
      }
      if !removedRun {
        added' := LayPiece(added', piece, addedRun, whitespaceEdit, trimStart, trimEnd, position == last,
                           newText + before, With(kept, change.side.Common?, before), With(gained, addedRun, before),
                           With(litGained, addedRun, marked));
      }
    }
  }

  lemma NothingSoFar(pieces: seq<string>, change: Change, previousCommon: bool, followingCommon: bool)
    ensures Sofar(pieces, 0) == "" && MarkedSoFar(pieces, 0, change, previousCommon, followingCommon) == ""
  {
  }

  lemma SofarStep(pieces: seq<string>, n: nat)
    requires n < |pieces|
    ensures Sofar(pieces, n + 1)
      == Sofar(pieces, n) + (pieces[n] + if n == |pieces| - 1 then "" else "\n")
  {
    Assoc(Sofar(pieces, n), pieces[n], if n == |pieces| - 1 then "" else "\n");
  }

  lemma MarkedStep(pieces: seq<string>, n: nat, change: Change, previousCommon: bool, followingCommon: bool)
    requires n < |pieces|
    ensures MarkedSoFar(pieces, n + 1, change, previousCommon, followingCommon)
      == MarkedSoFar(pieces, n, change, previousCommon, followingCommon)
        + EditPart(pieces[n], IsBlank(change.text), n == 0 && previousCommon, n == |pieces| - 1 && followingCommon)
  {
    hide EditPart, IsBlank;
  }

  lemma MarkedInAll(change: Change, previousCommon: bool, followingCommon: bool)
    ensures var pieces := Split(change.text, '\n');
      MarkedSoFar(pieces, |pieces|, change, previousCommon, followingCommon)
        == EditMarked(change.text, previousCommon, followingCommon)
  {
  }

  function MarkedSoFar(
    pieces: seq<string>, n: nat, change: Change, previousCommon: bool, followingCommon: bool): string
    requires n <= |pieces|
  {
    PiecesMarked(pieces, n, IsBlank(change.text), previousCommon, followingCommon)
  }

  function Stepped(position: nat, last: nat): nat {
    if position <= last then position else last
  }

  function With(text: string, does: bool, more: string): string {
    if does then text + more else text
  }

  lemma WithMore(text: string, before: string, more: string)
    ensures text + (before + more) == text + before + more
  {
  }

  lemma NoMore(a: string, b: string, c: string)
    ensures a + "" == a && b + "" == b && c + "" == c
  {
  }

  // ------------------------------------------------------------------------
  // One pairing
  // ------------------------------------------------------------------------

  function WholeLine(text: string): seq<Segment> {
    [Segment(true, text)]
  }

  function WholeLines(texts: seq<string>): (lines: seq<seq<Segment>>)
    ensures |lines| == |texts| && forall i | 0 <= i < |texts| :: lines[i] == WholeLine(texts[i])
  {
    seq(|texts|, i requires 0 <= i < |texts| => WholeLine(texts[i]))
  }

  lemma WholeLinesRead(texts: seq<string>)
    ensures Texts(WholeLines(texts)) == texts
  {
    forall i | 0 <= i < |texts| ensures LineText(WholeLine(texts[i])) == texts[i] {
      OneStretch(Segment(true, texts[i]), true);
    }
  }

  predicate IsLines(texts: seq<string>) {
    forall i | 0 <= i < |texts| :: '\n' !in texts[i]
  }

  /** The word diff of two runs of lines, each joined with newlines. */
  function WordChanges(removed: seq<string>, added: seq<string>, alnum: char -> bool): seq<Change> {
    Runs([], Walk(TextTokens(Join(removed, '\n'), alnum), TextTokens(Join(added, '\n'), alnum)))
  }

  predicate TooLong(removed: seq<string>, added: seq<string>, alnum: char -> bool) {
    |TextTokens(Join(removed, '\n'), alnum)| > TOKEN_LIMIT || |TextTokens(Join(added, '\n'), alnum)| > TOKEN_LIMIT
  }

  predicate CommonAt(changes: seq<Change>, i: int) {
    0 <= i < |changes| ==> changes[i].side.Common?
  }

  /** What the first `n` changes have marked on one side, each edit trimmed where it borders text left alone. */
  function EditsMarked(changes: seq<Change>, n: nat, side: Side): string
    requires n <= |changes|
  {
    if n == 0 then ""
    else
      EditsMarked(changes, n - 1, side)
      + if changes[n - 1].side == side
        then EditMarked(changes[n - 1].text, CommonAt(changes, n - 2), CommonAt(changes, n)) else ""
  }

  /** What one pairing's decoration says. Past the token limit the lines are wholly the edit. Within it, whitespace
      aside, what either side leaves alone is the text common to both, and what it marks is its own; what is marked is,
      to the character, each edit less the whitespace that borders text left alone; and each line's stretches are
      non-empty and alternate. */
  ghost predicate Decorated(
    removed: seq<string>, added: seq<string>, alnum: char -> bool,
    outRemoved: seq<seq<Segment>>, outAdded: seq<seq<Segment>>)
  {
    && Texts(outRemoved) == removed
    && Texts(outAdded) == added
    && if TooLong(removed, added, alnum) then outRemoved == WholeLines(removed) && outAdded == WholeLines(added)
       else
         var changes := WordChanges(removed, added, alnum);
         && Strip(MarkedOver(outRemoved, false)) == Strip(TextOn(changes, {Common}))
         && Strip(MarkedOver(outAdded, false)) == Strip(TextOn(changes, {Common}))
         && Strip(MarkedOver(outRemoved, true)) == Strip(TextOn(changes, {Removed}))
         && Strip(MarkedOver(outAdded, true)) == Strip(TextOn(changes, {Added}))
         && MarkedOver(outRemoved, true) == EditsMarked(changes, |changes|, Removed)
         && MarkedOver(outAdded, true) == EditsMarked(changes, |changes|, Added)
         && (forall i | 0 <= i < |outRemoved| :: Neat(outRemoved[i]))
         && (forall i | 0 <= i < |outAdded| :: Neat(outAdded[i]))
  }

  method DiffPairing(removed: seq<string>, added: seq<string>, alnum: char -> bool)
    returns (outRemoved: seq<seq<Segment>>, outAdded: seq<seq<Segment>>)
    requires removed != [] && added != [] && IsLines(removed) && IsLines(added)
    ensures Decorated(removed, added, alnum, outRemoved, outAdded)
  {
    hide TextTokens, Runs, Walk, TextOn, Join, Holds, Laid, MarkedOver, Strip, Texts, Newlines, Neat, Lit, EditMarked;
    var oldTokens := Tokenize(Join(removed, '\n'), alnum);
    var newTokens := Tokenize(Join(added, '\n'), alnum);
    if |oldTokens| > TOKEN_LIMIT || |newTokens| > TOKEN_LIMIT {
      WholeLinesRead(removed);
      WholeLinesRead(added);
      return WholeLines(removed), WholeLines(added);
    }
    var changes := DiffTokens(oldTokens, newTokens);
    var removedHalf := Half(seq(|removed|, _ => []), 0);
    var addedHalf := Half(seq(|added|, _ => []), 0);
    Begun(removedHalf, changes);
    Begun(addedHalf, changes);
    for index := 0 to |changes|
      invariant |removedHalf.lines| == |removed| && |addedHalf.lines| == |added|
      invariant Holds(removedHalf, TextOn(changes[..index], OLD_SIDES), TextOn(changes[..index], {Common}),
                      TextOn(changes[..index], {Removed}))
      invariant Holds(addedHalf, TextOn(changes[..index], NEW_SIDES), TextOn(changes[..index], {Common}),
                      TextOn(changes[..index], {Added}))
      invariant Lit(removedHalf, EditsMarked(changes, index, Removed))
      invariant Lit(addedHalf, EditsMarked(changes, index, Added))
    {
      var change := changes[index];
      var previousCommon := index == 0 || changes[index - 1].side.Common?;
      var followingCommon := index + 1 == |changes| || changes[index + 1].side.Common?;
      TextOnStep(changes, index, OLD_SIDES);
      TextOnStep(changes, index, NEW_SIDES);
      TextOnStep(changes, index, {Common});
      TextOnStep(changes, index, {Removed});
      TextOnStep(changes, index, {Added});
      RoomFor(removedHalf, removed, changes, index, OLD_SIDES, TextOn(changes[..index], {Common}),
              TextOn(changes[..index], {Removed}));
      RoomFor(addedHalf, added, changes, index, NEW_SIDES, TextOn(changes[..index], {Common}),
              TextOn(changes[..index], {Added}));
      removedHalf, addedHalf := LayChange(
        change, previousCommon, followingCommon, removedHalf, addedHalf,
        TextOn(changes[..index], OLD_SIDES), TextOn(changes[..index], NEW_SIDES), TextOn(changes[..index], {Common}),
        TextOn(changes[..index], {Removed}), TextOn(changes[..index], {Added}),
        EditsMarked(changes, index, Removed), EditsMarked(changes, index, Added));
      NoMore(EditsMarked(changes, index, Removed), EditsMarked(changes, index, Added), "");
    }
    assert changes[..|changes|] == changes;
    Finished(removedHalf, removed, TextOn(changes, {Common}), TextOn(changes, {Removed}));
    Finished(addedHalf, added, TextOn(changes, {Common}), TextOn(changes, {Added}));
    LitIs(removedHalf, EditsMarked(changes, |changes|, Removed));
    LitIs(addedHalf, EditsMarked(changes, |changes|, Added));
    return removedHalf.lines, addedHalf.lines;
  }

  lemma Begun(half: Half, changes: seq<Change>)
    requires half.at == 0 && half.lines != [] && forall i | 0 <= i < |half.lines| :: half.lines[i] == []
    ensures forall sides, kept, edited ::
      Holds(half, TextOn(changes[..0], sides), TextOn(changes[..0], kept), TextOn(changes[..0], edited))
    ensures Lit(half, "")
  {
    hide Laid;
    LaidStarts(half.lines);
    NothingMarked(half.lines, true);
    assert changes[..0] == [];
  }

  lemma LitIs(half: Half, lit: string)
    requires Lit(half, lit)
    ensures MarkedOver(half.lines, true) == lit
  {
  }

  lemma TextOnStep(changes: seq<Change>, index: nat, sides: set<Side>)
    requires index < |changes|
    ensures TextOn(changes[..index + 1], sides)
      == With(TextOn(changes[..index], sides), changes[index].side in sides, changes[index].text)
  {
    assert changes[..index + 1] == changes[..index] + [changes[index]];
    TextOnConcat(changes[..index], [changes[index]], sides);
    OneChange(changes[index], sides);
  }

  /** A change never has more newlines than there are lines left for it. */
  lemma RoomFor(
    half: Half, lines: seq<string>, changes: seq<Change>, index: nat, sides: set<Side>, kept: string, edited: string)
    requires index < |changes| && lines != [] && IsLines(lines)
    requires TextOn(changes, sides) == Join(lines, '\n')
    requires Holds(half, TextOn(changes[..index], sides), kept, edited)
    ensures changes[index].side in sides ==> half.at + Newlines(changes[index].text) < |lines|
  {
    hide Join, TextOn, Newlines, Laid, Holds;
    LaidCount(half, TextOn(changes[..index], sides), kept, edited);
    NewlinesUpTo(changes, index, sides);
    NewlinesOfJoin(lines);
  }

  lemma NewlinesUpTo(changes: seq<Change>, index: nat, sides: set<Side>)
    requires index < |changes|
    ensures changes[index].side in sides ==>
      Newlines(TextOn(changes[..index], sides)) + Newlines(changes[index].text) <= Newlines(TextOn(changes, sides))
  {
    hide TextOn, Newlines;
    var front, back := changes[..index], changes[index + 1..];
    assert changes == front + ([changes[index]] + back);
    TextOnConcat(front, [changes[index]] + back, sides);
    TextOnConcat([changes[index]], back, sides);
    OneChange(changes[index], sides);
    NewlinesConcat(TextOn(front, sides), TextOn([changes[index]] + back, sides));
    NewlinesConcat(TextOn([changes[index]], sides), TextOn(back, sides));
  }

  lemma LaidCount(half: Half, text: string, kept: string, edited: string)
    requires Holds(half, text, kept, edited)
    ensures Newlines(text) == half.at
  {
  }

  lemma Finished(half: Half, lines: seq<string>, kept: string, edited: string)
    requires |half.lines| == |lines| > 0 && IsLines(lines)
    requires Holds(half, Join(lines, '\n'), kept, edited)
    ensures Texts(half.lines) == lines
    ensures Strip(MarkedOver(half.lines, false)) == Strip(kept)
    ensures Strip(MarkedOver(half.lines, true)) == Strip(edited)
    ensures forall i | 0 <= i < |half.lines| :: Neat(half.lines[i])
  {
    LaidAll(half.lines, half.at, lines, kept, edited);
  }

  // ------------------------------------------------------------------------
  // A hunk
  // ------------------------------------------------------------------------

  /** A line's text after its one-byte marker; nothing for a line without one. */
  function Content(line: string): (content: string)
    ensures line != "" && CharBytes(line[0]) == 1 ==> line == [line[0]] + content
    ensures line == "" || CharBytes(line[0]) > 1 ==> content == ""
  {
    if line != "" && CharBytes(line[0]) == 1 then line[1..] else ""
  }

  function Contents(lines: seq<string>): (texts: seq<string>)
    ensures |texts| == |lines| && forall i | 0 <= i < |lines| :: texts[i] == Content(lines[i])
  {
    seq(|lines|, i requires 0 <= i < |lines| => Content(lines[i]))
  }

  predicate StartsWith(line: string, marker: char) {
    line != "" && line[0] == marker
  }

  /** Where the run of lines under `marker` from `at` on ends. */
  function RunEnd(lines: seq<string>, at: nat, marker: char): (end: nat)
    requires at <= |lines|
    ensures at <= end <= |lines|
    ensures forall i | at <= i < end :: StartsWith(lines[i], marker)
    ensures end < |lines| ==> !StartsWith(lines[end], marker)
    decreases |lines| - at
  {
    if at < |lines| && StartsWith(lines[at], marker) then RunEnd(lines, at + 1, marker) else at
  }

  /** A removed run and the added run that replaced it. */
  datatype Hunk = Hunk(removed: Range, added: Range)

  /** The removed run at `at` with what follows it, any no-newline markers between them stepped over. */
  function HunkAt(lines: seq<string>, at: nat): (hunk: Hunk)
    requires at < |lines| && StartsWith(lines[at], '-')
    ensures at == hunk.removed.lo < hunk.removed.hi <= hunk.added.lo <= hunk.added.hi <= |lines|
  {
    var end := RunEnd(lines, at, '-');
    var start := RunEnd(lines, end, '\\');
    Hunk(Range(at, end), Range(start, RunEnd(lines, start, '+')))
  }

  /** The hunks from `at` on that have both sides. */
  function Hunks(lines: seq<string>, at: nat): seq<Hunk>
    requires at <= |lines|
    decreases |lines| - at
  {
    if at == |lines| then []
    else if !StartsWith(lines[at], '-') then Hunks(lines, at + 1)
    else
      var hunk := HunkAt(lines, at);
      (if hunk.added.lo == hunk.added.hi then [] else [hunk]) + Hunks(lines, hunk.added.hi)
  }

  /** The lines with some of them written over from `lo` on, as through a slice of the list. */
  function Spliced<T>(lines: seq<T>, lo: nat, out: seq<T>): (spliced: seq<T>)
    requires lo + |out| <= |lines|
    ensures |spliced| == |lines|
    ensures spliced[lo..lo + |out|] == out
    ensures forall i | 0 <= i < |lines| && !(lo <= i < lo + |out|) :: spliced[i] == lines[i]
  {
    lines[..lo] + out + lines[lo + |out|..]
  }

  lemma SplicedTexts(lines: seq<seq<Segment>>, lo: nat, out: seq<seq<Segment>>)
    requires lo + |out| <= |lines| && Texts(out) == Texts(lines)[lo..lo + |out|]
    ensures Texts(Spliced(lines, lo, out)) == Texts(lines)
  {
    forall i | 0 <= i < |lines| ensures LineText(Spliced(lines, lo, out)[i]) == LineText(lines[i]) {
      if lo <= i < lo + |out| {
        assert Spliced(lines, lo, out)[i] == Spliced(lines, lo, out)[lo..lo + |out|][i - lo];
        assert Texts(out)[i - lo] == Texts(lines)[i];
      }
    }
  }

  lemma SplicedElsewhere<T>(lines: seq<T>, lo: nat, out: seq<T>, from: nat, to: nat)
    requires lo + |out| <= |lines| && from <= to <= |lines| && (to <= lo || lo + |out| <= from)
    ensures Spliced(lines, lo, out)[from..to] == lines[from..to]
  {
  }

  /** Whether one pairing of a hunk is decorated. */
  ghost predicate PairingDone(
    texts: seq<string>, marked: seq<seq<Segment>>, hunk: Hunk, p: Pairing, alnum: char -> bool)
  {
    var r, a := hunk.removed.lo, hunk.added.lo;
    && |marked| == |texts|
    && r + p.removed.lo <= r + p.removed.hi <= |texts| && a + p.added.lo <= a + p.added.hi <= |texts|
    && Decorated(texts[r + p.removed.lo..r + p.removed.hi], texts[a + p.added.lo..a + p.added.hi], alnum,
                 marked[r + p.removed.lo..r + p.removed.hi], marked[a + p.added.lo..a + p.added.hi])
  }

  function HunkPairings(texts: seq<string>, hunk: Hunk): seq<Pairing>
    requires hunk.removed.lo <= hunk.removed.hi <= hunk.added.lo <= hunk.added.hi <= |texts|
  {
    Paired(texts[hunk.removed.lo..hunk.removed.hi], texts[hunk.added.lo..hunk.added.hi])
  }

  ghost predicate HunkDone(texts: seq<string>, marked: seq<seq<Segment>>, hunk: Hunk, alnum: char -> bool) {
    && hunk.removed.lo <= hunk.removed.hi <= hunk.added.lo <= hunk.added.hi <= |texts|
    && forall p | p in HunkPairings(texts, hunk) :: PairingDone(texts, marked, hunk, p, alnum)
  }

  /** The ranges of pairings that tile two runs come one after another, within the runs. */
  lemma {:induction false} TilesInOrder(pairings: seq<Pairing>, r: nat, a: nat, removed: nat, added: nat, k: nat)
    requires Tiles(pairings, r, a, removed, added) && k < |pairings|
    ensures r <= pairings[k].removed.lo <= pairings[k].removed.hi <= removed
    ensures a <= pairings[k].added.lo <= pairings[k].added.hi <= added
    ensures forall j | k < j < |pairings| ::
      pairings[k].removed.hi <= pairings[j].removed.lo && pairings[k].added.hi <= pairings[j].added.lo
    decreases |pairings|
  {
    if k > 0 {
      TilesInOrder(pairings[1..], pairings[0].removed.hi, pairings[0].added.hi, removed, added, k - 1);
      assert forall j | k < j < |pairings| :: pairings[j] == pairings[1..][j - 1];
    } else {
      TilesWithin(pairings[1..], pairings[0].removed.hi, pairings[0].added.hi, removed, added);
      assert forall j | 0 < j < |pairings| :: pairings[j] == pairings[1..][j - 1];
    }
  }

  lemma {:induction false} TilesWithin(pairings: seq<Pairing>, r: nat, a: nat, removed: nat, added: nat)
    requires Tiles(pairings, r, a, removed, added)
    ensures r <= removed && a <= added
    ensures forall j | 0 <= j < |pairings| :: r <= pairings[j].removed.lo && a <= pairings[j].added.lo
    decreases |pairings|
  {
    if pairings != [] {
      TilesWithin(pairings[1..], pairings[0].removed.hi, pairings[0].added.hi, removed, added);
      assert forall j | 0 < j < |pairings| :: pairings[j] == pairings[1..][j - 1];
    }
  }

  /** The part of a hunk still to decorate once `k` pairings are: nothing outside it changes from here on. */
  ghost predicate Upto(
    texts: seq<string>, marked: seq<seq<Segment>>, hunk: Hunk, pairings: seq<Pairing>, k: nat, alnum: char -> bool)
    requires k <= |pairings|
  {
    forall j | 0 <= j < k :: PairingDone(texts, marked, hunk, pairings[j], alnum)
  }

  method DecorateHunk(texts: seq<string>, before: seq<seq<Segment>>, hunk: Hunk, alnum: char -> bool)
    returns (marked: seq<seq<Segment>>)
    requires IsLines(texts) && Texts(before) == texts
    requires hunk.removed.lo < hunk.removed.hi <= hunk.added.lo < hunk.added.hi <= |texts|
    ensures |marked| == |texts| && Texts(marked) == texts && HunkDone(texts, marked, hunk, alnum)
    ensures forall i |
      0 <= i < |texts| && !(hunk.removed.lo <= i < hunk.removed.hi || hunk.added.lo <= i < hunk.added.hi) ::
      marked[i] == before[i]
  {
    hide Texts, Decorated, Tiles, Paired;
    var r, a := hunk.removed.lo, hunk.added.lo;
    var removed, added := texts[r..hunk.removed.hi], texts[a..hunk.added.hi];
    marked := before;
    TextsCount(before);
    var pairings := PairUp(removed, added);
    PairedTiles(removed, added);
    for k := 0 to |pairings|
      invariant |marked| == |texts| && Texts(marked) == texts
      invariant Upto(texts, marked, hunk, pairings, k, alnum)
      invariant forall i | 0 <= i < |texts| && !(r <= i < hunk.removed.hi || a <= i < hunk.added.hi) ::
        marked[i] == before[i]
    {
      var p := pairings[k];
      assert p in pairings;
      TilesInOrder(pairings, 0, 0, |removed|, |added|, k);
      var oldLines, newLines := removed[p.removed.lo..p.removed.hi], added[p.added.lo..p.added.hi];
      SliceOfSlice(texts, r, hunk.removed.hi, p.removed.lo, p.removed.hi);
      SliceOfSlice(texts, a, hunk.added.hi, p.added.lo, p.added.hi);
      var outRemoved, outAdded := DiffPairing(oldLines, newLines, alnum);
      marked := WritePairing(texts, marked, hunk, pairings, k, outRemoved, outAdded, alnum);
    }
  }

  lemma SliceOfSlice<T>(s: seq<T>, lo: nat, hi: nat, from: nat, to: nat)
    requires lo <= hi <= |s| && from <= to <= hi - lo
    ensures s[lo..hi][from..to] == s[lo + from..lo + to]
  {
    var inner, outer := s[lo..hi][from..to], s[lo + from..lo + to];
    forall k | 0 <= k < to - from ensures inner[k] == outer[k] {
      assert inner[k] == s[lo..hi][from + k] == s[lo + (from + k)];
    }
  }

  lemma TextsCount(lines: seq<seq<Segment>>)
    ensures |Texts(lines)| == |lines|
  {
  }

  /** Hand one pairing's lines their segments, leaving the pairings before it as they are. */
  method WritePairing(
    texts: seq<string>, before: seq<seq<Segment>>, hunk: Hunk, pairings: seq<Pairing>, k: nat,
    outRemoved: seq<seq<Segment>>, outAdded: seq<seq<Segment>>, alnum: char -> bool)
    returns (marked: seq<seq<Segment>>)
    requires |before| == |texts| && Texts(before) == texts && k < |pairings|
    requires hunk.removed.lo < hunk.removed.hi <= hunk.added.lo < hunk.added.hi <= |texts|
    requires Tiles(pairings, 0, 0, hunk.removed.hi - hunk.removed.lo, hunk.added.hi - hunk.added.lo)
    requires var p, r, a := pairings[k], hunk.removed.lo, hunk.added.lo;
      && p.removed.lo <= p.removed.hi <= hunk.removed.hi - r && p.added.lo <= p.added.hi <= hunk.added.hi - a
      && Decorated(texts[r + p.removed.lo..r + p.removed.hi], texts[a + p.added.lo..a + p.added.hi], alnum,
                   outRemoved, outAdded)
    requires Upto(texts, before, hunk, pairings, k, alnum)
    ensures |marked| == |texts| && Texts(marked) == texts
    ensures Upto(texts, marked, hunk, pairings, k + 1, alnum)
    ensures forall i |
      0 <= i < |texts| && !(hunk.removed.lo <= i < hunk.removed.hi || hunk.added.lo <= i < hunk.added.hi) ::
      marked[i] == before[i]
  {
    hide Texts, Decorated, Tiles, Spliced;
    var p, r, a := pairings[k], hunk.removed.lo, hunk.added.lo;
    DecoratedCounts(texts[r + p.removed.lo..r + p.removed.hi], texts[a + p.added.lo..a + p.added.hi], alnum,
                    outRemoved, outAdded);
    var once := Spliced(before, r + p.removed.lo, outRemoved);
    SplicedTexts(before, r + p.removed.lo, outRemoved);
    marked := Spliced(once, a + p.added.lo, outAdded);
    SplicedTexts(once, a + p.added.lo, outAdded);
    SplicedElsewhere(once, a + p.added.lo, outAdded, r + p.removed.lo, r + p.removed.hi);
    forall j | 0 <= j < k ensures PairingDone(texts, marked, hunk, pairings[j], alnum) {
      TilesInOrder(pairings, 0, 0, hunk.removed.hi - r, hunk.added.hi - a, j);
      assert PairingDone(texts, before, hunk, pairings[j], alnum);
      EarlierKept(texts, before, hunk, pairings[j], p, outRemoved, outAdded, alnum);
    }
    assert PairingDone(texts, marked, hunk, p, alnum);
  }

  /** Writing one pairing leaves an earlier one as it was. */
  lemma EarlierKept(
    texts: seq<string>, before: seq<seq<Segment>>, hunk: Hunk, q: Pairing, p: Pairing,
    outRemoved: seq<seq<Segment>>, outAdded: seq<seq<Segment>>, alnum: char -> bool)
    requires PairingDone(texts, before, hunk, q, alnum)
    requires q.removed.hi <= p.removed.lo && q.added.hi <= p.added.lo
    requires hunk.removed.lo + p.removed.lo + |outRemoved| <= hunk.added.lo
    requires hunk.added.lo + p.added.lo + |outAdded| <= |texts|
    ensures var once := Spliced(before, hunk.removed.lo + p.removed.lo, outRemoved);
      PairingDone(texts, Spliced(once, hunk.added.lo + p.added.lo, outAdded), hunk, q, alnum)
  {
    hide Texts, Decorated, Spliced;
    var r, a := hunk.removed.lo, hunk.added.lo;
    var once := Spliced(before, r + p.removed.lo, outRemoved);
    SplicedElsewhere(before, r + p.removed.lo, outRemoved, r + q.removed.lo, r + q.removed.hi);
    SplicedElsewhere(before, r + p.removed.lo, outRemoved, a + q.added.lo, a + q.added.hi);
    SplicedElsewhere(once, a + p.added.lo, outAdded, r + q.removed.lo, r + q.removed.hi);
    SplicedElsewhere(once, a + p.added.lo, outAdded, a + q.added.lo, a + q.added.hi);
  }

  lemma DecoratedCounts(
    removed: seq<string>, added: seq<string>, alnum: char -> bool,
    outRemoved: seq<seq<Segment>>, outAdded: seq<seq<Segment>>)
    requires Decorated(removed, added, alnum, outRemoved, outAdded)
    ensures |outRemoved| == |removed| && |outAdded| == |added|
    ensures Texts(outRemoved) == removed && Texts(outAdded) == added
  {
    hide Strip, MarkedOver, TextOn, WordChanges, TooLong;
  }

  // ------------------------------------------------------------------------
  // The whole diff
  // ------------------------------------------------------------------------

  predicate InHunk(hunk: Hunk, i: nat) {
    hunk.removed.lo <= i < hunk.removed.hi || hunk.added.lo <= i < hunk.added.hi
  }

  /** Every finished hunk is decorated and behind `index`; every line in none of them is wholly the edit. */
  ghost predicate DoneUpTo(
    texts: seq<string>, marked: seq<seq<Segment>>, done: seq<Hunk>, index: nat, alnum: char -> bool)
  {
    && |marked| == |texts| && Texts(marked) == texts
    && (forall h | h in done :: h.added.hi <= index && HunkDone(texts, marked, h, alnum))
    && (forall i | 0 <= i < |texts| && (index <= i || forall h | h in done :: !InHunk(h, i)) ::
          marked[i] == WholeLine(texts[i]))
  }

  lemma SameHunkDone(texts: seq<string>, a: seq<seq<Segment>>, b: seq<seq<Segment>>, hunk: Hunk, alnum: char -> bool)
    requires |a| == |b| == |texts| && HunkDone(texts, a, hunk, alnum)
    requires forall i | 0 <= i < hunk.added.hi :: a[i] == b[i]
    ensures HunkDone(texts, b, hunk, alnum)
  {
    hide Decorated, Tiles, Paired;
    var removed, added := texts[hunk.removed.lo..hunk.removed.hi], texts[hunk.added.lo..hunk.added.hi];
    var pairings := HunkPairings(texts, hunk);
    PairedTiles(removed, added);
    forall p | p in pairings ensures PairingDone(texts, b, hunk, p, alnum) {
      var k :| 0 <= k < |pairings| && pairings[k] == p;
      TilesInOrder(pairings, 0, 0, |removed|, |added|, k);
      assert PairingDone(texts, a, hunk, p, alnum);
      var r, s := hunk.removed.lo, hunk.added.lo;
      assert a[r + p.removed.lo..r + p.removed.hi] == b[r + p.removed.lo..r + p.removed.hi];
      assert a[s + p.added.lo..s + p.added.hi] == b[s + p.added.lo..s + p.added.hi];
    }
  }

  /** Where a run ends, walked line by line. */
  method SkipRun(lines: seq<string>, start: nat, marker: char) returns (index: nat)
    requires start <= |lines|
    ensures index == RunEnd(lines, start, marker)
  {
    index := start;
    while index < |lines| && StartsWith(lines[index], marker)
      invariant index <= |lines| && RunEnd(lines, index, marker) == RunEnd(lines, start, marker)
    {
      index := index + 1;
    }
  }

  /** Split every line into its word-level segments. No line's text is lost, repeated or reordered: after its marker it
      spells the line; each pairing of each hunk is decorated; a line in no hunk with two sides is one segment, wholly
      the edit. */
  method Decorate(lines: seq<string>, alnum: char -> bool) returns (marked: seq<seq<Segment>>)
    requires IsLines(lines)
    ensures Texts(marked) == Contents(lines)
    ensures |marked| == |lines|
    ensures forall i | 0 <= i < |lines| && lines[i] != "" && CharBytes(lines[i][0]) == 1 ::
      lines[i] == [lines[i][0]] + Texts(marked)[i]
    ensures forall h | h in Hunks(lines, 0) :: HunkDone(Contents(lines), marked, h, alnum)
    ensures forall i | 0 <= i < |lines| && (forall h | h in Hunks(lines, 0) :: !InHunk(h, i)) ::
      marked[i] == WholeLine(Content(lines[i]))
  {
    hide Texts, HunkDone, RunEnd, HunkAt, DoneUpTo, Contents, Content, StartsWith, Hunks;
    var texts := Contents(lines);
    ContentsAreLines(lines);
    marked := WholeLines(texts);
    NothingDone(texts, alnum);
    ghost var done: seq<Hunk> := [];
    var index := 0;
    while index < |lines|
      invariant index <= |lines|
      invariant done + Hunks(lines, index) == Hunks(lines, 0)
      invariant DoneUpTo(texts, marked, done, index, alnum)
      decreases |lines| - index
    {
      if !StartsWith(lines[index], '-') {
        PlainRun(texts, marked, done, index, index + 1, alnum);
        NotAHunk(lines, index);
        index := index + 1;
        continue;
      }
      var removedStart := index;
      var removedEnd := SkipRun(lines, index, '-');
      var addedStart := SkipRun(lines, removedEnd, '\\');
      var addedEnd := SkipRun(lines, addedStart, '+');
      var hunk := Hunk(Range(removedStart, removedEnd), Range(addedStart, addedEnd));
      HunkFound(lines, index, hunk);
      index := addedEnd;
      if addedStart == addedEnd {
        PlainRun(texts, marked, done, removedStart, index, alnum);
        continue;
      }
      ghost var before := marked;
      MarkedCount(texts, marked, done, removedStart, alnum);
      marked := DecorateHunk(texts, marked, hunk, alnum);
      HunkAdded(texts, before, marked, done, removedStart, hunk, alnum);
      done := done + [hunk];
    }
    AllDone(lines, marked, done, alnum);
  }

  lemma ContentsAreLines(lines: seq<string>)
    requires IsLines(lines)
    ensures IsLines(Contents(lines))
  {
  }

  lemma HunkFound(lines: seq<string>, at: nat, hunk: Hunk)
    requires at < |lines| && StartsWith(lines[at], '-')
    requires hunk.removed.lo == at && hunk.removed.hi == RunEnd(lines, at, '-')
    requires hunk.added.lo == RunEnd(lines, hunk.removed.hi, '\\')
    requires hunk.added.hi == RunEnd(lines, hunk.added.lo, '+')
    ensures at < hunk.removed.hi <= hunk.added.lo <= hunk.added.hi <= |lines|
    ensures Hunks(lines, at)
      == (if hunk.added.lo == hunk.added.hi then [] else [hunk]) + Hunks(lines, hunk.added.hi)
  {
    assert HunkAt(lines, at) == hunk;
  }

  lemma NothingDone(texts: seq<string>, alnum: char -> bool)
    ensures DoneUpTo(texts, WholeLines(texts), [], 0, alnum)
  {
    WholeLinesRead(texts);
  }

  lemma NotAHunk(lines: seq<string>, at: nat)
    requires at < |lines| && !StartsWith(lines[at], '-')
    ensures Hunks(lines, at) == Hunks(lines, at + 1)
  {
  }

  lemma AllDone(lines: seq<string>, marked: seq<seq<Segment>>, done: seq<Hunk>, alnum: char -> bool)
    requires DoneUpTo(Contents(lines), marked, done, |lines|, alnum) && done + Hunks(lines, |lines|) == Hunks(lines, 0)
    ensures |marked| == |lines| && Texts(marked) == Contents(lines)
    ensures forall h | h in Hunks(lines, 0) :: HunkDone(Contents(lines), marked, h, alnum)
    ensures forall i | 0 <= i < |lines| && (forall h | h in Hunks(lines, 0) :: !InHunk(h, i)) ::
      marked[i] == WholeLine(Content(lines[i]))
  {
    hide Texts, HunkDone, Hunks;
    NoHunksLeft(lines, done);
  }

  lemma NoHunksLeft(lines: seq<string>, done: seq<Hunk>)
    ensures done + Hunks(lines, |lines|) == done
  {
  }

  lemma MarkedCount(texts: seq<string>, marked: seq<seq<Segment>>, done: seq<Hunk>, index: nat, alnum: char -> bool)
    requires DoneUpTo(texts, marked, done, index, alnum)
    ensures |marked| == |texts| && Texts(marked) == texts
  {
  }

  lemma PlainRun(texts: seq<string>, marked: seq<seq<Segment>>, done: seq<Hunk>, from: nat, to: nat,
    alnum: char -> bool)
    requires DoneUpTo(texts, marked, done, from, alnum) && from <= to <= |texts|
    ensures DoneUpTo(texts, marked, done, to, alnum)
  {
    hide Texts, HunkDone;
  }

  lemma HunkAdded(
    texts: seq<string>, before: seq<seq<Segment>>, marked: seq<seq<Segment>>, done: seq<Hunk>, from: nat, hunk: Hunk,
    alnum: char -> bool)
    requires DoneUpTo(texts, before, done, from, alnum)
    requires from == hunk.removed.lo < hunk.removed.hi <= hunk.added.lo < hunk.added.hi <= |texts|
    requires |marked| == |texts| && Texts(marked) == texts && HunkDone(texts, marked, hunk, alnum)
    requires forall i | 0 <= i < |texts| && !InHunk(hunk, i) :: marked[i] == before[i]
    ensures DoneUpTo(texts, marked, done + [hunk], hunk.added.hi, alnum)
  {
    hide Texts, HunkDone;
    forall h | h in done ensures HunkDone(texts, marked, h, alnum) {
      SameHunkDone(texts, before, marked, h, alnum);
    }
    forall i | 0 <= i < |texts| && (hunk.added.hi <= i || forall h | h in done + [hunk] :: !InHunk(h, i))
      ensures marked[i] == WholeLine(texts[i]) {
      if i < hunk.added.hi {
        assert hunk in done + [hunk];
        assert forall h | h in done :: h in done + [hunk];
      }
    }
  }
}
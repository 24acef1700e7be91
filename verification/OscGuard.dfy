/** The cap on OSC strings, applied to the bytes on their way to the parser. */
module OscGuard {
  import opened Text

  const MAX_OSC_BYTES := 16 * 1024 * 1024
  const ESC: byte := 0x1b
  const BEL: byte := 0x07
  const CAN: byte := 0x18
  const SUB: byte := 0x1a
  const OSC_INTRODUCER: byte := 0x5d

  /** Where the guard is in the stream. */
  datatype State = Ground | Escape | Osc(len: nat) | Discard

  /** What to do with a byte: hand it on, hand CAN on in its place, or leave it out. */
  datatype Verdict = Forward | Cancel | Drop

  function AfterPlain(b: byte): State {
    if b == ESC then Escape else Ground
  }

  predicate EndsString(b: byte) {
    b in {BEL, ESC, CAN, SUB}
  }

  // ------------------------------------------------------------------------
  // The guard
  // ------------------------------------------------------------------------

  function Judged(state: State, b: byte): (State, Verdict) {
    match state
    case Ground => (AfterPlain(b), Forward)
    case Escape => (if b == OSC_INTRODUCER then Osc(0) else AfterPlain(b), Forward)
    case Osc(len) =>
      if EndsString(b) then (AfterPlain(b), Forward)
      else if len + 1 > MAX_OSC_BYTES then (Discard, Cancel)
      else (Osc(len + 1), Forward)
    case Discard =>
      if b == ESC then (Escape, Forward)
      else if b in {BEL, CAN, SUB} then (Ground, Drop)
      else (Discard, Drop)
  }

  /** What a verdict hands the parser for `b`. */
  function Handed(verdict: Verdict, b: byte): seq<byte> {
    match verdict
    case Forward => [b]
    case Cancel => [CAN]
    case Drop => []
  }

  /** The state after `bytes`. */
  function After(state: State, bytes: seq<byte>): State
    decreases |bytes|
  {
    if bytes == [] then state else After(Judged(state, bytes[0]).0, bytes[1..])
  }

  /** What the parser is handed of `bytes`. */
  function Out(state: State, bytes: seq<byte>): seq<byte>
    decreases |bytes|
  {
    if bytes == [] then [] else
      var (next, verdict) := Judged(state, bytes[0]);
      Handed(verdict, bytes[0]) + Out(next, bytes[1..])
  }

  class OscGuard {
    var state: State

    constructor ()
      ensures state == Ground
    {
      state := Ground;
    }

    method Judge(b: byte) returns (verdict: Verdict)
      modifies this
      ensures (state, verdict) == Judged(old(state), b)
    {
      match state {
        case Ground =>
          state := AfterPlain(b);
          return Forward;
        case Escape =>
          state := if b == OSC_INTRODUCER then Osc(0) else AfterPlain(b);
          return Forward;
        case Osc(len) =>
          if EndsString(b) {
            state := AfterPlain(b);
            return Forward;
          }
          if len + 1 > MAX_OSC_BYTES {
            state := Discard;
            return Cancel;
          }
          state := Osc(len + 1);
          return Forward;
        case Discard =>
          if b == ESC {
            state := Escape;
            return Forward;
          }
          if b == BEL || b == CAN || b == SUB {
            state := Ground;
          }
          return Drop;
      }
    }

    method Filter(bytes: seq<byte>) returns (out: seq<byte>)
      modifies this
      ensures state == After(old(state), bytes) && out == Out(old(state), bytes)
    {
      hide Out, After;
      out := [];
      assert bytes[0..] == bytes;
      for at := 0 to |bytes|
        invariant After(state, bytes[at..]) == After(old(state), bytes)
        invariant out + Out(state, bytes[at..]) == Out(old(state), bytes)
      {
        OutStep(state, bytes, at, out);
        var verdict := Judge(bytes[at]);
        match verdict {
          case Forward => out := out + [bytes[at]];
          case Cancel => out := out + [CAN];
          case Drop =>
        }
      }
      NothingLeft(state);
      assert bytes[|bytes|..] == [];
    }
  }

  lemma NothingLeft(state: State)
    ensures After(state, []) == state && Out(state, []) == []
  {
  }

  lemma OutStep(state: State, bytes: seq<byte>, at: nat, before: seq<byte>)
    requires at < |bytes|
    ensures var (next, verdict) := Judged(state, bytes[at]);
      && After(state, bytes[at..]) == After(next, bytes[at + 1..])
      && before + Out(state, bytes[at..]) == before + Handed(verdict, bytes[at]) + Out(next, bytes[at + 1..])
  {
    assert bytes[at..][1..] == bytes[at + 1..];
  }

  // ------------------------------------------------------------------------
  // Chunks
  // ------------------------------------------------------------------------

  lemma {:induction false} FilteredInTwo(state: State, a: seq<byte>, b: seq<byte>)
    ensures After(state, a + b) == After(After(state, a), b)
    ensures Out(state, a + b) == Out(state, a) + Out(After(state, a), b)
    decreases |a|
  {
    if a == [] {
      assert a + b == b;
    } else {
      assert (a + b)[1..] == a[1..] + b;
      FilteredInTwo(Judged(state, a[0]).0, a[1..], b);
    }
  }

  function Joined(chunks: seq<seq<byte>>): seq<byte> {
    if chunks == [] then [] else chunks[0] + Joined(chunks[1..])
  }

  /** What a guard hands on when the stream reaches it chunk by chunk. */
  function OutOfChunks(state: State, chunks: seq<seq<byte>>): seq<byte>
    decreases |chunks|
  {
    if chunks == [] then [] else Out(state, chunks[0]) + OutOfChunks(After(state, chunks[0]), chunks[1..])
  }

  /** However a stream is cut into chunks, the parser is handed the same bytes. */
  lemma {:induction false} ChunksDoNotMatter(state: State, chunks: seq<seq<byte>>)
    ensures OutOfChunks(state, chunks) == Out(state, Joined(chunks))
    decreases |chunks|
  {
    if chunks != [] {
      ChunksDoNotMatter(After(state, chunks[0]), chunks[1..]);
      FilteredInTwo(state, chunks[0], Joined(chunks[1..]));
    }
  }

  /** Where a guard on the output of another is: with it, but for the string the first has cancelled. */
  function Second(state: State): State {
    if state.Discard? then Ground else state
  }

  lemma SecondFollows(state: State, b: byte)
    ensures var (next, verdict) := Judged(state, b);
      && Out(Second(state), Handed(verdict, b)) == Handed(verdict, b)
      && After(Second(state), Handed(verdict, b)) == Second(next)
  {
    hide Out, After;
    NothingLeft(Second(state));
    FilteredOne(Second(state), b);
    FilteredOne(Second(state), CAN);
  }

  lemma {:induction false} FilteredTwice(state: State, bytes: seq<byte>)
    ensures Out(Second(state), Out(state, bytes)) == Out(state, bytes)
    decreases |bytes|
  {
    hide Out, After, Second, Judged, Handed;
    if bytes == [] {
      NothingLeft(state);
      NothingLeft(Second(state));
    } else {
      var (next, verdict) := Judged(state, bytes[0]);
      FilteredTwice(next, bytes[1..]);
      FilteredOne(state, bytes[0]);
      assert bytes == [bytes[0]] + bytes[1..];
      FilteredInTwo(state, [bytes[0]], bytes[1..]);
      SecondFollows(state, bytes[0]);
      FilteredInTwo(Second(state), Handed(verdict, bytes[0]), Out(next, bytes[1..]));
    }
  }

  /** A second guard on the output forwards every byte. */
  lemma FilterIsIdempotent(bytes: seq<byte>)
    ensures Out(Ground, Out(Ground, bytes)) == Out(Ground, bytes)
  {
    FilteredTwice(Ground, bytes);
  }

  // ------------------------------------------------------------------------
  // A parser with no cap
  // ------------------------------------------------------------------------

  /** Where a parser that keeps whole OSC strings is, with the length of the one it is in. */
  datatype Parser = Plain | Introduced | Inside(len: nat)

  /** The controls a VT500 parser carries out in the middle of an escape sequence, and the DEL it passes over, without
      leaving the sequence. */
  const CONTROLS := set b: byte | b < 0x20 && b !in {CAN, SUB, ESC}
  const DEL: byte := 0x7f

  /** One byte through the parser, which stays between ESC and what follows it on the bytes it `skips`. */
  function Parse(skips: set<byte>, parser: Parser, b: byte): Parser {
    var plain := if b == ESC then Introduced else Plain;
    match parser
    case Plain => plain
    case Introduced => if b == OSC_INTRODUCER then Inside(0) else if b in skips then Introduced else plain
    case Inside(len) => if EndsString(b) then plain else Inside(len + 1)
  }

  function ParseAll(skips: set<byte>, parser: Parser, bytes: seq<byte>): Parser
    decreases |bytes|
  {
    if bytes == [] then parser else ParseAll(skips, Parse(skips, parser, bytes[0]), bytes[1..])
  }

  /** Whether no OSC string the parser meets in `bytes` runs past the cap. */
  predicate WithinCap(skips: set<byte>, parser: Parser, bytes: seq<byte>)
    decreases |bytes|
  {
    && (parser.Inside? ==> parser.len <= MAX_OSC_BYTES)
    && (bytes != [] ==> WithinCap(skips, Parse(skips, parser, bytes[0]), bytes[1..]))
  }

  /** A parser reading the stream, and whether what it is in was opened with nothing after its ESC. */
  datatype Reader = Reader(parser: Parser, direct: bool)

  function Read(skips: set<byte>, reader: Reader, b: byte): Reader {
    Reader(Parse(skips, reader.parser, b),
           b == ESC || (reader.direct && (reader.parser.Introduced? ==> b == OSC_INTRODUCER)))
  }

  /** Whether an OSC string in `bytes` runs past the cap: one opened by `ESC ]`, or one opened with skipped bytes
      between the two. */
  predicate Overruns(skips: set<byte>, reader: Reader, bytes: seq<byte>, direct: bool)
    decreases |bytes|
  {
    || (reader.parser.Inside? && reader.parser.len > MAX_OSC_BYTES && reader.direct == direct)
    || (bytes != [] && Overruns(skips, Read(skips, reader, bytes[0]), bytes[1..], direct))
  }

  /** The guard beside the parser it feeds and a reader of what comes in. It is past strings opened with bytes skipped,
      which it does not see; a string it has cancelled is over for the parser. */
  predicate InStep(state: State, parser: Parser, reader: Reader) {
    match state
    case Ground => parser == reader.parser && (reader.direct ==> parser.Plain?)
    case Escape => parser == reader.parser == Introduced && reader.direct
    case Osc(len) => parser == reader.parser == Inside(len) && reader.direct && len <= MAX_OSC_BYTES
    case Discard => parser.Plain? && reader.parser.Inside? && reader.parser.len > MAX_OSC_BYTES && reader.direct
  }

  lemma StepsTogether(skips: set<byte>, state: State, parser: Parser, reader: Reader, b: byte)
    requires InStep(state, parser, reader)
    ensures
      var (next, verdict) := Judged(state, b);
      InStep(next, ParseAll(skips, parser, Handed(verdict, b)), Read(skips, reader, b))
  {
    OneParsed(skips, parser, b);
    OneParsed(skips, parser, CAN);
  }

  lemma OneParsed(skips: set<byte>, parser: Parser, b: byte)
    ensures ParseAll(skips, parser, [b]) == Parse(skips, parser, b)
    ensures forall rest :: (
      WithinCap(skips, parser, [b] + rest)
      <==> (parser.Inside? ==> parser.len <= MAX_OSC_BYTES) && WithinCap(skips, Parse(skips, parser, b), rest))
  {
    assert [b][1..] == [];
    forall rest: seq<byte> ensures ([b] + rest)[1..] == rest {
    }
  }

  /** No OSC string that reaches the parser runs past the cap, unless one in the stream does that was opened with
      skipped bytes between its ESC and its `]`: the guard takes no notice of those. */
  lemma {:induction false} OutputWithinCapIff(
    skips: set<byte>, state: State, parser: Parser, reader: Reader, bytes: seq<byte>)
    requires InStep(state, parser, reader)
    ensures WithinCap(skips, parser, Out(state, bytes)) <==> !Overruns(skips, reader, bytes, false)
    decreases |bytes|
  {
    if bytes != [] {
      var b, rest := bytes[0], bytes[1..];
      var (next, verdict) := Judged(state, b);
      var out := Out(next, rest);
      StepsTogether(skips, state, parser, reader, b);
      OneParsed(skips, parser, b);
      OneParsed(skips, parser, CAN);
      OutputWithinCapIff(skips, next, ParseAll(skips, parser, Handed(verdict, b)), Read(skips, reader, b), rest);
      match verdict
      case Forward => assert Out(state, bytes) == [b] + out;
      case Cancel => assert Out(state, bytes) == [CAN] + out;
      case Drop => assert Out(state, bytes) == out;
    }
  }

  /** So a parser that leaves its escape state on every other byte is never given a string past the cap. */
  lemma {:induction false} NothingSkipped(reader: Reader, bytes: seq<byte>)
    requires reader.direct || reader.parser.Plain?
    ensures !Overruns({}, reader, bytes, false)
    decreases |bytes|
  {
    if bytes != [] {
      NothingSkipped(Read({}, reader, bytes[0]), bytes[1..]);
    }
  }

  /** A stream goes through unchanged exactly when no OSC string in it that was opened by `ESC ]` runs past the cap. */
  lemma {:induction false} UnchangedIffWithinCap(
    skips: set<byte>, state: State, parser: Parser, reader: Reader, bytes: seq<byte>)
    requires InStep(state, parser, reader) && !state.Discard?
    ensures Out(state, bytes) == bytes <==> !Overruns(skips, reader, bytes, true)
    decreases |bytes|
  {
    if bytes != [] {
      var b, rest := bytes[0], bytes[1..];
      var (next, verdict) := Judged(state, b);
      var out := Out(next, rest);
      StepsTogether(skips, state, parser, reader, b);
      if verdict == Forward {
        UnchangedIffWithinCap(
          skips, next, ParseAll(skips, parser, Handed(verdict, b)), Read(skips, reader, b), rest);
        assert ([b] + out)[1..] == out && ([b] + out)[0] == b;
      } else {
        assert ([CAN] + out)[0] == CAN != b;
        assert Overruns(skips, Read(skips, reader, b), rest, true);
      }
    }
  }

  // ------------------------------------------------------------------------
  // A string the guard does not see
  // ------------------------------------------------------------------------

  lemma {:induction false} GroundForwards(payload: seq<byte>)
    requires ESC !in payload
    ensures Out(Ground, payload) == payload && After(Ground, payload) == Ground
    decreases |payload|
  {
    if payload != [] {
      assert payload[0] in payload && forall b | b in payload[1..] :: b in payload;
      GroundForwards(payload[1..]);
    }
  }

  lemma {:induction false} InsideGrows(skips: set<byte>, len: nat, payload: seq<byte>)
    requires forall b | b in payload :: !EndsString(b)
    ensures ParseAll(skips, Inside(len), payload) == Inside(len + |payload|)
    decreases |payload|
  {
    if payload != [] {
      assert payload[0] in payload && forall b | b in payload[1..] :: b in payload;
      InsideGrows(skips, len + 1, payload[1..]);
    }
  }

  lemma {:induction false} ParsedInTwo(skips: set<byte>, parser: Parser, a: seq<byte>, b: seq<byte>)
    ensures ParseAll(skips, parser, a + b) == ParseAll(skips, ParseAll(skips, parser, a), b)
    decreases |a|
  {
    if a == [] {
      assert a + b == b;
    } else {
      assert (a + b)[1..] == a[1..] + b;
      ParsedInTwo(skips, Parse(skips, parser, a[0]), a[1..], b);
    }
  }

  /** An OSC string opened with a control or DEL after its ESC goes through whole, however long it is, and the parser
      keeps all of it. */
  lemma OpenedPastTheGuard(skip: byte, payload: seq<byte>)
    requires skip in CONTROLS + {DEL} && forall b | b in payload :: !EndsString(b)
    ensures Out(Ground, [ESC, skip, OSC_INTRODUCER] + payload) == [ESC, skip, OSC_INTRODUCER] + payload
    ensures ParseAll(CONTROLS + {DEL}, Plain, [ESC, skip, OSC_INTRODUCER] + payload) == Inside(|payload|)
  {
    hide Out, After, ParseAll, CONTROLS, EndsString;
    var skips, opening := CONTROLS + {DEL}, [ESC, skip, OSC_INTRODUCER];
    SkipsApart(skip);
    SeenAsPlain(skips, skip);
    NoEscape(payload);
    FilteredInTwo(Ground, opening, payload);
    GroundForwards(payload);
    ParsedInTwo(skips, Plain, opening, payload);
    InsideGrows(skips, 0, payload);
  }

  lemma SkipsApart(skip: byte)
    requires skip in CONTROLS + {DEL}
    ensures skip != ESC && skip != OSC_INTRODUCER
  {
  }

  lemma NoEscape(payload: seq<byte>)
    requires forall b | b in payload :: !EndsString(b)
    ensures ESC !in payload
  {
    assert EndsString(ESC);
  }

  lemma SeenAsPlain(skips: set<byte>, skip: byte)
    requires skip in skips && skip != ESC && skip != OSC_INTRODUCER
    ensures var opening := [ESC, skip, OSC_INTRODUCER];
      && Out(Ground, opening) == opening && After(Ground, opening) == Ground
      && ParseAll(skips, Plain, opening) == Inside(0)
  {
    var opening := [ESC, skip, OSC_INTRODUCER];
    assert opening == [ESC] + ([skip] + [OSC_INTRODUCER]);
    FilteredInTwo(Ground, [ESC], [skip] + [OSC_INTRODUCER]);
    FilteredInTwo(Escape, [skip], [OSC_INTRODUCER]);
    FilteredOne(Ground, ESC);
    FilteredOne(Escape, skip);
    FilteredOne(Ground, OSC_INTRODUCER);
    ParsedInTwo(skips, Plain, [ESC], [skip] + [OSC_INTRODUCER]);
    ParsedInTwo(skips, Introduced, [skip], [OSC_INTRODUCER]);
    OneParsed(skips, Plain, ESC);
    OneParsed(skips, Introduced, skip);
    OneParsed(skips, Introduced, OSC_INTRODUCER);
  }

  // ------------------------------------------------------------------------
  // What becomes of an over-long string
  // ------------------------------------------------------------------------

  lemma {:induction false} InsideString(len: nat, payload: seq<byte>)
    requires forall b | b in payload :: !EndsString(b)
    requires len + |payload| <= MAX_OSC_BYTES
    ensures After(Osc(len), payload) == Osc(len + |payload|) && Out(Osc(len), payload) == payload
    decreases |payload|
  {
    if payload != [] {
      assert payload[0] in payload;
      InsideString(len + 1, payload[1..]);
    }
  }

  lemma {:induction false} DiscardedString(payload: seq<byte>)
    requires forall b | b in payload :: !EndsString(b)
    ensures After(Discard, payload) == Discard && Out(Discard, payload) == []
    decreases |payload|
  {
    if payload != [] {
      assert payload[0] in payload;
      DiscardedString(payload[1..]);
    }
  }

  /** An over-long string reaches the parser cut at the cap and cancelled; of its end only an ESC does, and all that
      follows is filtered as if the string had ended where the program ended it. */
  lemma OverlongString(payload: seq<byte>, end: byte, rest: seq<byte>)
    requires |payload| > MAX_OSC_BYTES && EndsString(end) && forall b | b in payload :: !EndsString(b)
    ensures Out(Osc(0), payload + ([end] + rest))
      == payload[..MAX_OSC_BYTES] + [CAN] + (if end == ESC then [ESC] else []) + Out(AfterPlain(end), rest)
  {
    hide After, Out;
    var kept, over, dropped := payload[..MAX_OSC_BYTES], payload[MAX_OSC_BYTES], payload[MAX_OSC_BYTES + 1..];
    var tail := [end] + rest;
    CutAtCap(payload, tail);
    FilteredInTwo(Osc(0), kept, [over] + (dropped + tail));
    InsideString(0, kept);
    assert over in payload;
    PastTheCap(over, dropped, tail);
    Ended(end, rest);
    var left := (if end == ESC then [ESC] else []) + Out(AfterPlain(end), rest);
    assert kept + ([CAN] + left) == kept + [CAN] + (if end == ESC then [ESC] else []) + Out(AfterPlain(end), rest);
  }

  lemma CutAtCap(payload: seq<byte>, tail: seq<byte>)
    requires |payload| > MAX_OSC_BYTES
    ensures payload + tail
      == payload[..MAX_OSC_BYTES] + ([payload[MAX_OSC_BYTES]] + (payload[MAX_OSC_BYTES + 1..] + tail))
  {
  }

  lemma PastTheCap(over: byte, dropped: seq<byte>, tail: seq<byte>)
    requires !EndsString(over) && forall b | b in dropped :: !EndsString(b)
    ensures Out(Osc(MAX_OSC_BYTES), [over] + (dropped + tail)) == [CAN] + Out(Discard, tail)
  {
    hide After, Out;
    FilteredInTwo(Osc(MAX_OSC_BYTES), [over], dropped + tail);
    FilteredOne(Osc(MAX_OSC_BYTES), over);
    FilteredInTwo(Discard, dropped, tail);
    DiscardedString(dropped);
  }

  lemma Ended(end: byte, rest: seq<byte>)
    requires EndsString(end)
    ensures Out(Discard, [end] + rest) == (if end == ESC then [ESC] else []) + Out(AfterPlain(end), rest)
  {
    FilteredInTwo(Discard, [end], rest);
    FilteredOne(Discard, end);
  }

  lemma FilteredOne(state: State, b: byte)
    ensures After(state, [b]) == Judged(state, b).0 && Out(state, [b]) == Handed(Judged(state, b).1, b)
  {
    assert [b][1..] == [];
  }
}

/** What the scrollback reads as, from its oldest output to its newest, however it is cut into segments. */
module Reading {
  import opened Text
  import opened Json
  import opened Messages
  import opened Blocks
  import opened Retention
  import opened RetentionLaws
  import opened RetentionRuns
  import opened Counting
  import P = Patch

  /** One thing read: a character and the link it is in, if any, or a rich block. */
  datatype Mark =
    | Char(c: char, link: Option<string>)
    | Emitted(bundle: Bundle, id: nat, trust: Tier)
    | LiveOne(id: nat, mime: string, initial: Value)

  function Chars(text: string, link: Option<string>): (marks: seq<Mark>)
    ensures |marks| == |text|
  {
    seq(|text|, (i: nat) requires i < |text| => Char(text[i], link))
  }

  function SegmentReads(segment: Segment): seq<Mark> {
    match segment
    case Plain(text) => Chars(text, None)
    case Link(text, url) => Chars(text, Some(url))
    case Content(bundle, id, trust) => [Emitted(bundle, id, trust)]
    case Live(live) => [LiveOne(live.id, live.mime, live.initial)]
  }

  /** The marks of some output in order. */
  function Reads(output: seq<Segment>): seq<Mark> {
    if output == [] then [] else SegmentReads(output[0]) + Reads(output[1..])
  }

  /** The marks of all output, block after block. */
  function AllReads(blocks: seq<Block>): seq<Mark> {
    if blocks == [] then [] else Reads(blocks[0].output) + AllReads(blocks[1..])
  }

  ghost predicate EndOf(a: seq<Mark>, b: seq<Mark>) {
    |a| <= |b| && b[|b| - |a|..] == a
  }

  lemma EndOfSum(a: seq<Mark>, b: seq<Mark>, c: seq<Mark>)
    requires EndOf(a, b)
    ensures EndOf(a + c, b + c)
  {
    assert (b + c)[|b| - |a|..] == b[|b| - |a|..] + c;
  }

  lemma EndOfEnd(a: seq<Mark>, b: seq<Mark>, c: seq<Mark>)
    requires EndOf(a, b) && EndOf(b, c)
    ensures EndOf(a, c)
  {
  }

  lemma EndOfItself(a: seq<Mark>)
    ensures EndOf(a, a) && EndOf([], a)
  {
  }

  lemma CharsInTwo(a: string, b: string, link: Option<string>)
    ensures Chars(a + b, link) == Chars(a, link) + Chars(b, link)
  {
  }

  // ------------------------------------------------------------------------
  // Output read on
  // ------------------------------------------------------------------------

  lemma {:induction false} ReadsInTwo(a: seq<Segment>, b: seq<Segment>)
    ensures Reads(a + b) == Reads(a) + Reads(b)
  {
    hide SegmentReads;
    if a == [] {
      assert a + b == b;
    } else {
      assert (a + b)[1..] == a[1..] + b;
      ReadsInTwo(a[1..], b);
    }
  }

  lemma ReadsOne(segment: Segment)
    ensures Reads([segment]) == SegmentReads(segment)
  {
    assert [segment][1..] == [];
  }

  lemma ReadsLast(front: seq<Segment>, last: Segment)
    ensures Reads(front + [last]) == Reads(front) + SegmentReads(last)
  {
    ReadsInTwo(front, [last]);
    ReadsOne(last);
  }

  lemma ReadsLonger(front: seq<Segment>, last: Segment, longer: Segment, more: seq<Mark>)
    requires SegmentReads(longer) == SegmentReads(last) + more
    ensures Reads(front + [longer]) == Reads(front + [last]) + more
  {
    hide SegmentReads, Reads;
    ReadsLast(front, last);
    ReadsLast(front, longer);
    assert Reads(front) + (SegmentReads(last) + more) == Reads(front) + SegmentReads(last) + more;
  }

  /** Printed text is read after what was there, outside any link. */
  lemma TextReads(output: seq<Segment>, text: string)
    ensures Reads(WithText(output, text)) == Reads(output) + Chars(text, None)
    ensures |WithText(output, text)| == |output| + if output != [] && output[|output| - 1].Plain? then 0 else 1
  {
    if output != [] && output[|output| - 1].Plain? {
      var front, last := output[..|output| - 1], output[|output| - 1];
      assert output == front + [last] && WithText(output, text) == front + [Plain(last.text + text)];
      CharsInTwo(last.text, text, None);
      ReadsLonger(front, last, Plain(last.text + text), Chars(text, None));
    } else {
      ReadsLast(output, Plain(text));
    }
  }

  /** Text printed inside a link is read after what was there, in that link, and starts a segment of its own only where
      the last is no link to the same place. */
  lemma LinkReads(output: seq<Segment>, text: string, url: string)
    ensures Reads(WithLink(output, text, url)) == Reads(output) + Chars(text, Some(url))
    ensures |WithLink(output, text, url)| == |output| + if EndsInLink(output, url) then 0 else 1
  {
    if EndsInLink(output, url) {
      var front, last := output[..|output| - 1], output[|output| - 1];
      assert output == front + [last] && WithLink(output, text, url) == front + [Link(last.text + text, url)];
      CharsInTwo(last.text, text, Some(url));
      ReadsLonger(front, last, Link(last.text + text, url), Chars(text, Some(url)));
    } else {
      ReadsLast(output, Link(text, url));
    }
  }

  // ------------------------------------------------------------------------
  // Output cut
  // ------------------------------------------------------------------------

  lemma TailIsEnd(text: string, toFree: nat, link: Option<string>)
    ensures EndOf(Chars(Tail(text, toFree), link), Chars(text, link))
  {
  }

  lemma CutReads(segment: Segment, toFree: nat)
    ensures EndOf(SegmentReads(TrimSegment(segment, toFree)), SegmentReads(segment))
    ensures SegmentBytes(TrimSegment(segment, toFree)) == 0 ==> SegmentReads(TrimSegment(segment, toFree)) == []
  {
    match segment
    case Plain(text) => TailIsEnd(text, toFree, None);
    case Link(text, url) =>
      TailIsEnd(text, toFree, Some(url));
      assert Tail(text, toFree) == "" ==> TrimSegment(segment, toFree) == Link("", "");
    case _ =>
  }

  /** What a trim leaves of what was read is its end. */
  lemma {:induction false} TrimReads(output: seq<Segment>, toFree: nat)
    ensures EndOf(Reads(Trimmed(output, toFree)), Reads(output))
  {
    hide Trimmed, TrimSegment, SegmentBytes, SegmentReads, EndOf;
    TrimOfNothing(output);
    EndOfItself(Reads(output));
    if output != [] && toFree != 0 {
      var first, rest := TrimSegment(output[0], toFree), output[1..];
      TrimStep(output, toFree);
      TrimSegmentFrees(output[0], toFree);
      var freed := SegmentBytes(output[0]) - SegmentBytes(first);
      TrimOfNothing(rest);
      var trimmed := Trimmed(rest, Left(toFree, freed));
      TrimReads(rest, Left(toFree, freed));
      CutReads(output[0], toFree);
      ReadsFirst(first, trimmed);
      if SegmentBytes(first) == 0 {
        NothingBefore(SegmentReads(output[0]), Reads(trimmed), Reads(rest));
      } else {
        EndOfSum(SegmentReads(first), SegmentReads(output[0]), Reads(rest));
      }
    }
  }

  lemma ReadsFirst(first: Segment, rest: seq<Segment>)
    ensures Reads([first] + rest) == SegmentReads(first) + Reads(rest)
  {
    assert ([first] + rest)[1..] == rest;
  }

  lemma NothingBefore(gone: seq<Mark>, a: seq<Mark>, b: seq<Mark>)
    requires EndOf(a, b)
    ensures EndOf([] + a, gone + b)
  {
    assert (gone + b)[|gone + b| - |a|..] == b[|b| - |a|..];
  }

  // ------------------------------------------------------------------------
  // Blocks read on
  // ------------------------------------------------------------------------

  lemma {:induction false} AllReadsInTwo(a: seq<Block>, b: seq<Block>)
    ensures AllReads(a + b) == AllReads(a) + AllReads(b)
  {
    hide Reads;
    if a == [] {
      assert a + b == b;
    } else {
      assert (a + b)[1..] == a[1..] + b;
      AllReadsInTwo(a[1..], b);
    }
  }

  lemma {:induction false} NothingRead(blocks: seq<Block>)
    requires forall b | b in blocks :: b.output == []
    ensures AllReads(blocks) == []
  {
    if blocks != [] {
      assert blocks[0] in blocks && forall b | b in blocks[1..] :: b in blocks;
      NothingRead(blocks[1..]);
    }
  }

  lemma AllReadsOne(block: Block)
    ensures AllReads([block]) == Reads(block.output)
  {
    assert [block][1..] == [];
  }

  lemma CurrentReads(blocks: seq<Block>)
    requires blocks != []
    ensures AllReads(blocks) == AllReads(blocks[..|blocks| - 1]) + Reads(Current(blocks).output)
  {
    hide AllReads, Reads;
    var last := |blocks| - 1;
    AllReadsInTwo(blocks[..last], [blocks[last]]);
    AllReadsOne(blocks[last]);
    assert blocks == blocks[..last] + [blocks[last]];
  }

  /** Marks added to the current block are read after all others. */
  lemma CurrentGains(blocks: seq<Block>, block: Block, gained: seq<Mark>)
    requires blocks != [] && Reads(block.output) == Reads(Current(blocks).output) + gained
    ensures AllReads(WithCurrent(blocks, block)) == AllReads(blocks) + gained
  {
    hide AllReads, Reads;
    CurrentReads(blocks);
    CurrentReads(WithCurrent(blocks, block));
    var front := blocks[..|blocks| - 1];
    assert WithCurrent(blocks, block)[..|blocks| - 1] == front;
    assert AllReads(front) + (Reads(Current(blocks).output) + gained)
      == AllReads(front) + Reads(Current(blocks).output) + gained;
  }

  /** A live block written over with its own opening is read as it was. */
  lemma LiveReads(blocks: seq<Block>, at: LiveIndex, live: LiveBlock)
    requires AnyLiveAt(blocks, at)
    requires var was := LiveAt(blocks, at); live.id == was.id && live.mime == was.mime && live.initial == was.initial
    ensures AllReads(WithLive(blocks, at, live)) == AllReads(blocks)
  {
    hide AllReads, Reads;
    var block := blocks[at.block];
    var after := block.(output := block.output[at.segment := Live(live)]);
    SameSegmentRead(block.output, at.segment, Live(live));
    var front, back := blocks[..at.block], blocks[at.block + 1..];
    assert blocks == front + ([block] + back) && WithLive(blocks, at, live) == front + ([after] + back);
    AllReadsInTwo(front, [block] + back);
    AllReadsInTwo([block], back);
    AllReadsInTwo(front, [after] + back);
    AllReadsInTwo([after], back);
    AllReadsOne(block);
    AllReadsOne(after);
  }

  lemma SameSegmentRead(output: seq<Segment>, at: nat, segment: Segment)
    requires at < |output| && SegmentReads(segment) == SegmentReads(output[at])
    ensures Reads(output[at := segment]) == Reads(output)
  {
    hide Reads, SegmentReads;
    var front, back := output[..at], output[at + 1..];
    assert output == front + ([output[at]] + back) && output[at := segment] == front + ([segment] + back);
    ReadsInTwo(front, [output[at]] + back);
    ReadsInTwo(front, [segment] + back);
    ReadsFirst(output[at], back);
    ReadsFirst(segment, back);
  }

  // ------------------------------------------------------------------------
  // Enforcement
  // ------------------------------------------------------------------------

  lemma AgedReads(s: State, t: State)
    requires Inv(s) && Inv(t) && Aged(s, t)
    ensures EndOf(AllReads(t.blocks), AllReads(s.blocks))
  {
    hide IndexExact, BlocksSound, Reads, AllReads;
    var front, back := s.blocks[..t.cursor], s.blocks[t.cursor..];
    assert t.blocks[t.cursor..] == back && s.blocks == front + back;
    assert t.blocks == t.blocks[..t.cursor] + back;
    NothingRead(t.blocks[..t.cursor]);
    AllReadsInTwo(t.blocks[..t.cursor], back);
    AllReadsInTwo(front, back);
  }

  lemma TrimCurrentReads(s: State)
    requires Inv(s) && s.cursor == |s.blocks| - 1
    ensures EndOf(AllReads(TrimCurrent(s).blocks), AllReads(s.blocks))
  {
    hide IndexExact, BlocksSound, Reads, AllReads, Trimmed, KeepLive, EndOf;
    TrimReads(Current(s.blocks).output, Excess(s));
    var t := TrimCurrent(s);
    CurrentReads(s.blocks);
    CurrentReads(t.blocks);
    NothingRead(s.blocks[..s.cursor]);
    assert t.blocks[..s.cursor] == s.blocks[..s.cursor];
    assert [] + Reads(Current(s.blocks).output) == Reads(Current(s.blocks).output);
    assert [] + Reads(Current(t.blocks).output) == Reads(Current(t.blocks).output);
  }

  lemma EnforcedReads(s: State)
    requires Inv(s)
    ensures Shape(s) && EndOf(AllReads(Enforced(s).blocks), AllReads(s.blocks))
  {
    hide Inv, Enforced, Aged, TrimCurrent, Retained, EndOf, AllReads;
    InvShape(s);
    EnforcedKeepsInv(s);
    EnforcedCases(s);
    var e := Enforced(s);
    EndOfItself(AllReads(s.blocks));
    if Aged(s, e) {
      AgedReads(s, e);
    } else if e != s {
      var t :| Inv(t) && Aged(s, t) && t.cursor == |t.blocks| - 1 && e == TrimCurrent(t);
      AgedReads(s, t);
      TrimCurrentReads(t);
      EndOfEnd(AllReads(e.blocks), AllReads(t.blocks), AllReads(s.blocks));
    }
  }

  /** Counting loses marks from the front only, and none short of a check. */
  lemma NotedReads(s: State, bytes: nat)
    requires Inv(s)
    ensures Shape(s)
    ensures EndOf(AllReads(NoteGrowth(s, bytes).blocks), AllReads(s.blocks))
    ensures s.since + bytes < BUDGET_CHECK_INTERVAL_BYTES ==>
      NoteGrowth(s, bytes).blocks == s.blocks && NoteGrowth(s, bytes).since == s.since + bytes
  {
    hide Inv, Enforced, EndOf, AllReads;
    InvShape(s);
    EndOfItself(AllReads(s.blocks));
    ResetSound(s);
    EnforcedReads(s.(since := 0));
  }

  // ------------------------------------------------------------------------
  // Every event
  // ------------------------------------------------------------------------

  /** What an event adds to what is read: printed characters in the link that is open, a newline, a rich block. */
  function Gained(s: State, e: Event): seq<Mark> {
    match e
    case Print(text) => if s.phase == Output then Chars(text, s.activeLink) else []
    case LineBreak => if s.phase == Output then [Char('\n', None)] else []
    case EmitBlock(bundle, id, trust) => [Emitted(bundle, id, trust)]
    case OpenBlock(id, mime, spec) =>
      if id in s.live || |s.live| >= MAX_OPEN_LIVE_BLOCKS then [] else [LiveOne(id, mime, spec)]
    case _ => []
  }

  lemma WrittenReads(s: State, e: Event)
    requires Shape(s) && Grows(e)
    ensures Reads(Written(s, e).output) == Reads(Current(s.blocks).output) + Gained(s, e)
  {
    hide Reads, WithText, WithLink, Chars;
    var output := Current(s.blocks).output;
    match e
    case Print(text) =>
      TextReads(output, text);
      if s.activeLink.Some? {
        LinkReads(output, text, s.activeLink.value);
      }
    case LineBreak =>
      TextReads(output, "\n");
      NewlineReads();
    case EmitBlock(bundle, id, trust) => ReadsLast(output, Content(bundle, id, trust));
    case PatchBlock(_, _) =>
  }

  lemma NewlineReads()
    ensures Chars("\n", None) == [Char('\n', None)]
  {
  }

  lemma ChangedReads(s: State, e: Event)
    requires Inv(s) && Grows(e)
    ensures Shape(s) && AllReads(Changed(s, e).blocks) == AllReads(s.blocks) + Gained(s, e)
  {
    hide Inv, Reads, AllReads, Written, P.Patched, JsonBytes, Gained;
    InvShape(s);
    if e.PatchBlock? && e.id in s.live {
      IndexedIsLive(s, e.id);
      LiveReads(s.blocks, s.live[e.id], Folded(LiveAt(s.blocks, s.live[e.id]), e.patch));
      NothingGained(s, e);
    } else {
      WrittenReads(s, e);
      CurrentGains(s.blocks, Written(s, e), Gained(s, e));
    }
  }

  lemma NothingGained(s: State, e: Event)
    requires !e.Print? && !e.LineBreak? && !e.EmitBlock? && !e.OpenBlock?
    ensures Gained(s, e) == [] && forall marks: seq<Mark> :: marks + [] == marks
  {
  }

  lemma GrowthReads(s: State, e: Event)
    requires Inv(s) && Grows(e)
    ensures Shape(s) && EndOf(AllReads(Step(s, e).blocks), AllReads(s.blocks) + Gained(s, e))
    ensures !Checks(s, e) ==> AllReads(Step(s, e).blocks) == AllReads(s.blocks) + Gained(s, e)
  {
    hide Inv, Changed, NoteGrowth, Step, Bytes, BundleBytes, Grew, Taken, EndOf, AllReads, Gained;
    InvShape(s);
    StepNotes(s, e);
    ChangedInv(s, e);
    ChangedReads(s, e);
    var changed := Changed(s, e);
    if Linked(s, e) {
      var url := Bytes(s.activeLink.value);
      NotedReads(changed, url);
      NotedSound(changed, url);
      var once := NoteGrowth(changed, url);
      NotedReads(once, Bytes(e.text));
      EndOfEnd(AllReads(Step(s, e).blocks), AllReads(once.blocks), AllReads(changed.blocks));
    } else {
      NotedReads(changed, Counted(s, e));
    }
  }

  lemma NotedSound(s: State, bytes: nat)
    requires Inv(s)
    ensures Shape(s) && Inv(NoteGrowth(s, bytes))
  {
    hide Inv, NoteGrowth;
    InvShape(s);
    NoteGrowthLaws(s, bytes);
  }

  /** The events that count nothing. */
  lemma OtherReads(s: State, e: Event)
    requires Inv(s) && !Grows(e)
    ensures Shape(s) && AllReads(Step(s, e).blocks) == AllReads(s.blocks) + Gained(s, e)
  {
    hide Inv, Reads, AllReads, JsonBytes;
    InvShape(s);
    var current := Current(s.blocks);
    assert AllReads(s.blocks) + [] == AllReads(s.blocks) && Reads(current.output) + [] == Reads(current.output);
    match e
    case PromptStart => PromptReads(s);
    case CommandEnd(code) => CurrentGains(s.blocks, current.(exitCode := code), []);
    case SetCwd(cwd) => CurrentGains(s.blocks, current.(cwd := Some(cwd)), []);
    case OpenBlock(id, mime, spec) =>
      var segment := Live(Opened(id, mime, spec));
      ReadsLast(current.output, segment);
      CurrentGains(s.blocks, current.(output := current.output + [segment]), SegmentReads(segment));
    case CloseBlock(id) =>
      if id in s.live {
        IndexedIsLive(s, id);
        LiveReads(s.blocks, s.live[id], LiveAt(s.blocks, s.live[id]).(closed := true));
      }
    case CommandStart =>
    case OutputStart =>
    case SetCwdHost(_) =>
    case SetLink(_) =>
  }

  lemma PromptReads(s: State)
    requires Shape(s)
    ensures AllReads(Prompted(s).blocks) == AllReads(s.blocks)
  {
    hide Reads, AllReads;
    var pushed := s.blocks + [EMPTY_BLOCK];
    AllReadsInTwo(s.blocks, [EMPTY_BLOCK]);
    AllReadsOne(EMPTY_BLOCK);
    EmptyReads();
    assert AllReads(s.blocks) + [] == AllReads(s.blocks);
    var blocks := if !IsEmpty(Current(s.blocks)) && |s.blocks| < MAX_BLOCKS then pushed else s.blocks;
    assert Reads(Current(blocks).output) + [] == Reads(Current(blocks).output);
    CurrentGains(blocks, Current(blocks).(cwd := s.cwd), []);
    assert AllReads(blocks) + [] == AllReads(blocks);
  }

  lemma EmptyReads()
    ensures Reads([]) == []
  {
  }

  /** One event adds at the end just what it brings, and short of a check loses nothing. */
  lemma StepReads(s: State, e: Event)
    requires Inv(s)
    ensures Shape(s) && EndOf(AllReads(Step(s, e).blocks), AllReads(s.blocks) + Gained(s, e))
    ensures !Checks(s, e) ==> AllReads(Step(s, e).blocks) == AllReads(s.blocks) + Gained(s, e)
  {
    hide Inv, Step, EndOf, AllReads, Gained, Counted;
    InvShape(s);
    if Grows(e) {
      GrowthReads(s, e);
    } else {
      OtherReads(s, e);
      EndOfItself(AllReads(Step(s, e).blocks));
    }
  }

  /** All that a run brings, in order. */
  function AllGained(s: State, events: seq<Event>): seq<Mark>
    requires Shape(s)
    decreases |events|
  {
    if events == [] then [] else Gained(s, events[0]) + AllGained(Step(s, events[0]), events[1..])
  }

  /** Over any run, what is read is the end of what was there and all that came, characters in their links and rich
      blocks in their places: nothing lost from the middle, nothing turned round, nothing in another link. */
  lemma {:induction false} RunReads(s: State, events: seq<Event>)
    requires Inv(s)
    ensures Shape(s) && EndOf(AllReads(Run(s, events).blocks), AllReads(s.blocks) + AllGained(s, events))
    decreases |events|
  {
    hide Inv, Step, EndOf, AllReads, Gained;
    InvShape(s);
    var before := AllReads(s.blocks);
    if events == [] {
      EndOfItself(before);
      assert before + [] == before;
    } else {
      var e, rest := events[0], events[1..];
      var next := Step(s, e);
      StepReads(s, e);
      StepKeepsInv(s, e);
      RunReads(next, rest);
      var later := AllGained(next, rest);
      EndOfSum(AllReads(next.blocks), before + Gained(s, e), later);
      EndOfEnd(AllReads(Run(s, events).blocks), AllReads(next.blocks) + later, before + Gained(s, e) + later);
      assert before + Gained(s, e) + later == before + (Gained(s, e) + later);
    }
  }
}

/** What is kept beside the output: what each block records of its command, and what the session carries along. */
module Records {
  import opened Text
  import opened Json
  import opened Messages
  import opened Blocks
  import opened Retention
  import opened RetentionLaws
  import opened RetentionRuns
  import opened Counting
  import P = Patch

  // ------------------------------------------------------------------------
  // What counting leaves alone
  // ------------------------------------------------------------------------

  /** What a block records of its command, whatever becomes of its output. */
  datatype Record = Record(command: string, cwd: Option<string>, exitCode: Option<int>)

  function RecordOf(block: Block): Record {
    Record(block.command, block.cwd, block.exitCode)
  }

  /** No block's record differs, and nothing that the session carries along. */
  ghost predicate SameRecords(s: State, t: State) {
    && |t.blocks| == |s.blocks|
    && (forall i | 0 <= i < |s.blocks| :: RecordOf(t.blocks[i]) == RecordOf(s.blocks[i]))
    && t.activeLink == s.activeLink && t.cwd == s.cwd && t.cwdHost == s.cwdHost
    && t.phase == s.phase && t.sawMarks == s.sawMarks
  }

  lemma SameRecordsTransitive(s: State, t: State, u: State)
    requires SameRecords(s, t) && SameRecords(t, u)
    ensures SameRecords(s, u)
  {
    assert forall i | 0 <= i < |s.blocks| :: RecordOf(t.blocks[i]) == RecordOf(s.blocks[i]);
  }

  /** Eliding and trimming take output and nothing else. */
  lemma EnforcedRecords(s: State)
    requires Inv(s)
    ensures Shape(s) && SameRecords(s, Enforced(s))
  {
    hide Inv, Enforced;
    InvShape(s);
    EnforcedOldestFirst(s);
    var e := Enforced(s);
    forall i | 0 <= i < |s.blocks| ensures RecordOf(e.blocks[i]) == RecordOf(s.blocks[i]) {
      assert i == |s.blocks| - 1 ==> e.blocks[i] == Current(e.blocks);
    }
  }

  lemma NotedRecords(s: State, bytes: nat)
    requires Inv(s)
    ensures Shape(s) && SameRecords(s, NoteGrowth(s, bytes)) && Inv(NoteGrowth(s, bytes))
  {
    hide Inv, Enforced;
    InvShape(s);
    NoteGrowthLaws(s, bytes);
    ResetSound(s);
    EnforcedRecords(s.(since := 0));
  }

  /** An event that counts leaves the records as what it writes leaves them. */
  lemma GrowthRecords(s: State, e: Event)
    requires Inv(s) && Grows(e)
    ensures Shape(s) && SameRecords(Changed(s, e), Step(s, e))
  {
    hide Inv, Changed, NoteGrowth, Step, SameRecords, Counted, Bytes;
    InvShape(s);
    StepNotes(s, e);
    ChangedInv(s, e);
    var changed := Changed(s, e);
    if Linked(s, e) {
      var url := Bytes(s.activeLink.value);
      NotedRecords(changed, url);
      NotedRecords(NoteGrowth(changed, url), Bytes(e.text));
      SameRecordsTransitive(changed, NoteGrowth(changed, url), Step(s, e));
    } else {
      NotedRecords(changed, Counted(s, e));
    }
  }

  // ------------------------------------------------------------------------
  // One event
  // ------------------------------------------------------------------------

  /** A directory short enough to be taken. */
  predicate Moves(e: Event) {
    e.SetCwd? && Bytes(e.cwd) <= MAX_CWD_BYTES
  }

  /** What the block being written records after an event, if it is still the one being written. */
  function Recorded(s: State, e: Event): Record
    requires Shape(s)
  {
    var current := Current(s.blocks);
    Record(
      if e.Print? && s.phase == Input then current.command + Taken(s, e.text) else current.command,
      if Moves(e) && current.cwd == None then Some(e.cwd) else current.cwd,
      if e.CommandEnd? then e.exitCode else current.exitCode)
  }

  /** No event touches what a finished block records; the one being written gets its command line, its first
      directory and its last exit code. */
  lemma StepRecords(s: State, e: Event)
    requires Inv(s)
    ensures Shape(s)
    ensures var t := Step(s, e);
      && (forall i | 0 <= i < |s.blocks| - 1 :: RecordOf(t.blocks[i]) == RecordOf(s.blocks[i]))
      && (!e.PromptStart? ==> |t.blocks| == |s.blocks| && RecordOf(Current(t.blocks)) == Recorded(s, e))
  {
    hide Inv, RecordOf, Step, Recorded;
    InvShape(s);
    if Grows(e) {
      GrowthRecords(s, e);
      ChangedRecords(s, e);
      var t, changed := Step(s, e), Changed(s, e);
      assert RecordOf(t.blocks[|s.blocks| - 1]) == RecordOf(changed.blocks[|s.blocks| - 1]);
      forall i | 0 <= i < |s.blocks| - 1 ensures RecordOf(t.blocks[i]) == RecordOf(s.blocks[i]) {
        assert RecordOf(t.blocks[i]) == RecordOf(changed.blocks[i]);
      }
    } else {
      OtherRecords(s, e);
    }
  }

  lemma ChangedRecords(s: State, e: Event)
    requires Shape(s) && Grows(e)
    ensures var t := Changed(s, e);
      && |t.blocks| == |s.blocks| && RecordOf(Current(t.blocks)) == Recorded(s, e)
      && forall i | 0 <= i < |s.blocks| - 1 :: RecordOf(t.blocks[i]) == RecordOf(s.blocks[i])
  {
    hide P.Patched, JsonBytes, Taken, WithText, WithLink;
  }

  lemma OtherRecords(s: State, e: Event)
    requires Shape(s) && !Grows(e)
    ensures var t := Step(s, e);
      && |s.blocks| <= |t.blocks|
      && (forall i | 0 <= i < |s.blocks| - 1 :: RecordOf(t.blocks[i]) == RecordOf(s.blocks[i]))
      && (!e.PromptStart? ==> |t.blocks| == |s.blocks| && RecordOf(Current(t.blocks)) == Recorded(s, e))
  {
    hide NoteGrowth, P.Patched, JsonBytes, Taken;
  }

  /** Of text printed into a command line the longest part from its front is kept that the line has room for. */
  lemma TypedIsLongest(s: State, text: string, n: nat)
    requires Inv(s) && s.phase == Input && n <= |text|
    ensures Shape(s)
    ensures
      var before, after := Current(s.blocks).command, Current(Step(s, Print(text)).blocks).command;
      && |before| <= |after| <= |before| + |text| && after == before + text[..|after| - |before|]
      && (Bytes(before + text[..n]) <= MAX_COMMAND_BYTES <==> n <= |after| - |before|)
  {
    hide Inv, Step, Bytes, Head;
    InvShape(s);
    StepRecords(s, Print(text));
    CurrentNotElided(s);
    var before := Current(s.blocks).command;
    HeadIsLongest(text, MAX_COMMAND_BYTES - Bytes(before), n);
    BytesOfConcat(before, text[..n]);
    CommandRoom(s, text);
  }

  lemma CommandRoom(s: State, text: string)
    requires Shape(s) && Bytes(Current(s.blocks).command) <= MAX_COMMAND_BYTES
    ensures Taken(s, text) == Head(text, MAX_COMMAND_BYTES - Bytes(Current(s.blocks).command))
  {
    hide Bytes, Head;
  }

  predicate SetsLink(e: Event) {
    e.SetLink? || e.PromptStart?
  }

  predicate SetsPhase(e: Event) {
    e.PromptStart? || e.CommandStart? || e.OutputStart? || e.CommandEnd?
  }

  /** What each event sets of what the session carries along. */
  lemma StepSession(s: State, e: Event)
    requires Inv(s)
    ensures Shape(s)
    ensures var t := Step(s, e);
      && t.activeLink == (if e.SetLink? then e.url else if e.PromptStart? then None else s.activeLink)
      && t.phase == (if e.PromptStart? then Prompt else if e.CommandStart? then Input
                     else if e.OutputStart? || e.CommandEnd? then Output else s.phase)
      && t.cwd == (if Moves(e) then Some(e.cwd) else s.cwd)
      && t.cwdHost == (if !e.SetCwdHost? then s.cwdHost
                       else if e.host.Some? && Bytes(e.host.value) <= MAX_CWD_BYTES then e.host else None)
      && (t.sawMarks <==> s.sawMarks || SetsPhase(e))
  {
    hide Inv, NoteGrowth, P.Patched, JsonBytes, Taken;
    InvShape(s);
    if Grows(e) {
      GrowthRecords(s, e);
    }
  }

  // ------------------------------------------------------------------------
  // Whole runs
  // ------------------------------------------------------------------------

  /** A finished block keeps its command line, directory and exit code for good, elided or not. */
  lemma {:induction false} FinishedKeepsRecord(s: State, events: seq<Event>, i: nat)
    requires Inv(s) && i + 1 < |s.blocks|
    ensures Shape(s) && RecordOf(Run(s, events).blocks[i]) == RecordOf(s.blocks[i])
    decreases |events|
  {
    hide Inv, Step, RecordOf;
    InvShape(s);
    if events != [] {
      StepRecords(s, events[0]);
      StepKeepsInv(s, events[0]);
      FinishedKeepsRecord(Step(s, events[0]), events[1..], i);
    }
  }

  /** Until the next prompt a block keeps the first directory it was given and the last exit code. */
  lemma {:induction false} CurrentKeeps(s: State, events: seq<Event>)
    requires Inv(s) && PromptStart !in events
    ensures Shape(s)
    ensures var was, now := Current(s.blocks), Current(Run(s, events).blocks);
      && |Run(s, events).blocks| == |s.blocks|
      && (was.cwd != None || (forall e | e in events :: !Moves(e)) ==> now.cwd == was.cwd)
      && ((forall e | e in events :: !e.CommandEnd?) ==> now.exitCode == was.exitCode)
    decreases |events|
  {
    hide Inv, Step, Taken;
    InvShape(s);
    if events != [] {
      var e, rest := events[0], events[1..];
      assert e in events && forall a | a in rest :: a in events;
      StepRecords(s, e);
      StepKeepsInv(s, e);
      CurrentKeeps(Step(s, e), rest);
    }
  }

  /** Where a command runs is the first directory reported while it is being written, and how it ended the last
      code. */
  lemma CurrentRecords(s: State, before: seq<Event>, e: Event, after: seq<Event>)
    requires Inv(s) && PromptStart !in before + [e] + after
    ensures Shape(s)
    ensures var now := Current(Run(s, before + [e] + after).blocks);
      && (Current(s.blocks).cwd == None && (forall b | b in before :: !Moves(b)) && Moves(e) ==> now.cwd == Some(e.cwd))
      && (e.CommandEnd? && (forall a | a in after :: !a.CommandEnd?) ==> now.exitCode == e.exitCode)
  {
    hide Inv, Step, Run, Taken;
    InvShape(s);
    assert e in before + [e] + after;
    assert (forall b | b in before :: b in before + [e] + after) && forall a | a in after :: a in before + [e] + after;
    RunThrough(s, before, e, after);
    CurrentKeeps(s, before);
    var met := Run(s, before);
    RunKeepsInv(s, before);
    StepRecords(met, e);
    StepKeepsInv(met, e);
    CurrentKeeps(Step(met, e), after);
  }

  lemma RunThrough(s: State, before: seq<Event>, e: Event, after: seq<Event>)
    requires Shape(s)
    ensures Run(s, before + [e] + after) == Run(Step(Run(s, before), e), after)
  {
    hide Run, Step;
    RunInTwo(s, before + [e], after);
    RunInTwo(s, before, [e]);
    RunOfOne(Run(s, before), e);
  }

  /** What no event of a run sets stays as it was, and the marks are seen once and for all. */
  lemma {:induction false} SessionStays(s: State, events: seq<Event>)
    requires Inv(s)
    ensures Shape(s)
    ensures var t := Run(s, events);
      && ((forall e | e in events :: !SetsLink(e)) ==> t.activeLink == s.activeLink)
      && ((forall e | e in events :: !SetsPhase(e)) ==> t.phase == s.phase)
      && ((forall e | e in events :: !Moves(e)) ==> t.cwd == s.cwd)
      && ((forall e | e in events :: !e.SetCwdHost?) ==> t.cwdHost == s.cwdHost)
      && (t.sawMarks <==> s.sawMarks || exists e | e in events :: SetsPhase(e))
    decreases |events|
  {
    hide Inv, Step;
    InvShape(s);
    if events != [] {
      var e, rest := events[0], events[1..];
      assert e in events && forall a | a in rest :: a in events;
      assert forall a | a in events :: a == e || a in rest;
      StepSession(s, e);
      StepKeepsInv(s, e);
      SessionStays(Step(s, e), rest);
    }
  }

  /** Link, phase, directory and host are what the last event to set them made of them; a directory too long to be
      taken sets nothing, a host too long clears it. */
  lemma SessionIsLastSet(s: State, before: seq<Event>, e: Event, after: seq<Event>)
    requires Inv(s)
    ensures Shape(s)
    ensures var t := Run(s, before + [e] + after);
      && (SetsLink(e) && (forall a | a in after :: !SetsLink(a)) ==> t.activeLink == if e.SetLink? then e.url else None)
      && (SetsPhase(e) && (forall a | a in after :: !SetsPhase(a)) ==>
            t.phase == if e.PromptStart? then Prompt else if e.CommandStart? then Input else Output)
      && (Moves(e) && (forall a | a in after :: !Moves(a)) ==> t.cwd == Some(e.cwd))
      && (e.SetCwdHost? && (forall a | a in after :: !a.SetCwdHost?) ==>
            t.cwdHost == if e.host.Some? && Bytes(e.host.value) <= MAX_CWD_BYTES then e.host else None)
  {
    hide Inv, Step, Run;
    InvShape(s);
    RunThrough(s, before, e, after);
    RunKeepsInv(s, before);
    StepSession(Run(s, before), e);
    StepKeepsInv(Run(s, before), e);
    SessionStays(Step(Run(s, before), e), after);
  }

  // ------------------------------------------------------------------------
  // What is counted is what is written
  // ------------------------------------------------------------------------

  /** What an event writes beyond what it counts: a link's url is counted with each piece of text, and kept once. */
  function Repeated(s: State, e: Event): nat
    requires Shape(s)
  {
    if Linked(s, e) && EndsInLink(Current(s.blocks).output, s.activeLink.value) then Bytes(s.activeLink.value) else 0
  }

  /** The bytes retained before a check are those counted, but for the url of a link gone on with, and for text printed
      at a prompt, which is counted and not kept. */
  lemma WrittenIsCounted(s: State, e: Event)
    requires Inv(s) && Grows(e) && !e.PatchBlock?
    ensures Shape(s)
    ensures Retained(Changed(s, e).blocks) + Repeated(s, e)
      == Retained(s.blocks) + if e.Print? && s.phase == Prompt then 0 else Counted(s, e)
  {
    hide Inv, Retained, RetainedBytes, Written, Counted, Repeated;
    InvShape(s);
    WrittenBytes(s, e);
    BlockReplaced(s.blocks, |s.blocks| - 1, Written(s, e));
  }

  lemma WrittenBytes(s: State, e: Event)
    requires Shape(s) && Grows(e) && !e.PatchBlock?
    ensures RetainedBytes(Written(s, e)) + Repeated(s, e)
      == RetainedBytes(Current(s.blocks)) + if e.Print? && s.phase == Prompt then 0 else Counted(s, e)
  {
    hide WithText, WithLink, Bytes, BundleBytes, OutputBytes, Taken, EndsInLink;
    var current := Current(s.blocks);
    match e
    case Print(text) =>
      BytesOfConcat(current.command, Taken(s, text));
      WithTextAppends(current.output, text);
      if s.activeLink.Some? {
        WithLinkAppends(current.output, text, s.activeLink.value);
      }
    case LineBreak =>
      WithTextAppends(current.output, "\n");
      NewlineBytes();
    case EmitBlock(bundle, id, trust) =>
      LastSegment(current.output, Content(bundle, id, trust));
  }

  lemma NewlineBytes()
    ensures Bytes("\n") == 1
  {
    assert Bytes("\n"[1..]) == 0;
  }

  /** A patch adds what it makes its block's state grow by, or takes what it makes it shrink by, and only growth is
      counted. */
  lemma PatchIsCounted(s: State, id: nat, patch: Value)
    requires Inv(s) && id in s.live
    ensures Shape(s) && Unclosed(s.blocks, s.live[id])
    ensures var before := LiveAt(s.blocks, s.live[id]);
      var e := PatchBlock(id, patch);
      var shrunk := Retained(s.blocks) - Retained(Changed(s, e).blocks);
      && shrunk == JsonBytes(before.current) - JsonBytes(P.Patched(before.current, patch))
      && Counted(s, e) == if shrunk < 0 then -shrunk else 0
  {
    hide Inv, Retained, P.Patched, JsonBytes, OutputBytes;
    InvShape(s);
    IndexedIsLive(s, id);
    SizeIsRight(s, id);
    var at := s.live[id];
    var after := Folded(LiveAt(s.blocks, at), patch);
    LiveRetained(s.blocks, at, after);
  }

  /** A live block written over with its own opening changes the bytes kept by what its state does. */
  lemma LiveRetained(blocks: seq<Block>, at: LiveIndex, live: LiveBlock)
    requires AnyLiveAt(blocks, at) && live.initial == LiveAt(blocks, at).initial
    ensures Retained(WithLive(blocks, at, live)) + LiveAt(blocks, at).currentBytes
      == Retained(blocks) + live.currentBytes
  {
    hide Retained, OutputBytes, JsonBytes;
    var block := blocks[at.block];
    var output := block.output;
    var front, back := output[..at.segment], output[at.segment + 1..];
    assert output == front + [output[at.segment]] + back;
    assert output[at.segment := Live(live)] == front + [Live(live)] + back;
    OutputConcat(front + [output[at.segment]], back);
    OutputConcat(front + [Live(live)], back);
    LastSegment(front, output[at.segment]);
    LastSegment(front, Live(live));
    BlockReplaced(blocks, at.block, block.(output := output[at.segment := Live(live)]));
  }

  /** An opened block is kept twice over, as it was opened and as it is. */
  lemma OpenedIsKept(s: State, id: nat, mime: string, spec: Value)
    requires Inv(s)
    ensures Shape(s)
    ensures Retained(Step(s, OpenBlock(id, mime, spec)).blocks)
      == Retained(s.blocks) + OpenedBytes(s, OpenBlock(id, mime, spec))
  {
    hide Inv, Retained, JsonBytes, OutputBytes;
    InvShape(s);
    var current := Current(s.blocks);
    var segment := Live(Opened(id, mime, spec));
    LastSegment(current.output, segment);
    BlockReplaced(s.blocks, |s.blocks| - 1, current.(output := current.output + [segment]));
  }
}

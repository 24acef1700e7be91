/** The scrollback as the terminal keeps it: blocks changed in place, an index into them, a cursor for eviction.
    Each method is proved to do what `Retention.Step` says, and so to keep its invariant. */
module Scrollback {
  import opened Text
  import opened Json
  import opened Messages
  import opened Blocks
  import opened Retention
  import opened RetentionLaws
  import Runs = RetentionRuns

  /** The values of a list of block objects. */
  function Values(blocks: seq<CommandBlock>): (values: seq<Block>)
    reads blocks
    ensures |values| == |blocks|
    ensures forall i | 0 <= i < |blocks| :: values[i] == blocks[i].Model()
  {
    if blocks == [] then [] else [blocks[0].Model()] + Values(blocks[1..])
  }

  /** The values, known block by block, are the list of them. */
  lemma ValuesAre(blocks: seq<CommandBlock>, values: seq<Block>)
    requires |values| == |blocks| && forall i | 0 <= i < |blocks| :: blocks[i].Model() == values[i]
    ensures Values(blocks) == values
  {
  }

  /** One turn of the eviction loop. */
  lemma EvictedStep(s: State, retained: nat)
    requires Shape(s) && Retained(s.blocks[s.cursor..]) <= retained
    requires retained > MAX_RETAINED_OUTPUT_BYTES && s.cursor + 1 < |s.blocks|
    ensures var block := s.blocks[s.cursor];
      if block.elided then
        var next := s.(cursor := s.cursor + 1);
        && Shape(next) && Retained(next.blocks[next.cursor..]) <= retained
        && Evicted(s, retained) == Evicted(next, retained)
      else
        var next := ElideAt(s, s.cursor);
        && Shape(next) && RetainedBytes(block) <= retained
        && Retained(next.blocks[next.cursor..]) <= retained - RetainedBytes(block)
        && Evicted(s, retained) == Evicted(next, retained - RetainedBytes(block))
  {
    hide RetainedBytes, Elided, DropBlock;
    RetainedFrom(s.blocks, s.cursor);
    assert ElideAt(s, s.cursor).blocks[s.cursor + 1..] == s.blocks[s.cursor + 1..];
  }

  lemma ShapeOf(s: State)
    requires Shape(s)
    ensures s.cursor < |s.blocks|
  {
  }

  lemma ElideInParts(s: State)
    requires Shape(s)
    ensures ElideAt(s, s.cursor) == s.(blocks := s.blocks[s.cursor := Elided(s.blocks[s.cursor])],
                                       live := DropBlock(s.live, s.cursor), cursor := s.cursor + 1)
  {
  }

  lemma EvictedEnd(s: State, retained: nat)
    requires Shape(s) && Retained(s.blocks[s.cursor..]) <= retained
    requires retained <= MAX_RETAINED_OUTPUT_BYTES || s.cursor + 1 >= |s.blocks|
    ensures Evicted(s, retained) == (s, retained)
  {
  }

  lemma OpenRefused(s: State, id: nat, mime: string, spec: Value)
    requires Shape(s) && (id in s.live || |s.live| >= MAX_OPEN_LIVE_BLOCKS)
    ensures Step(s, OpenBlock(id, mime, spec)) == s
  {
  }

  lemma OpenedInParts(s: State, id: nat, mime: string, spec: Value)
    requires Shape(s) && id !in s.live && |s.live| < MAX_OPEN_LIVE_BLOCKS
    ensures var output := Current(s.blocks).output;
      Step(s, OpenBlock(id, mime, spec)) ==
        WithOutput(s, output + [Live(Opened(id, mime, spec))])
          .(live := s.live[id := LiveIndex(|s.blocks| - 1, |output|)])
  {
  }

  lemma PatchIgnored(s: State, id: nat, patch: Value)
    requires Shape(s)
    requires id !in s.live || !AnyLiveAt(s.blocks, s.live[id]) || LiveAt(s.blocks, s.live[id]).closed
    ensures Step(s, PatchBlock(id, patch)) == s
  {
  }

  lemma PatchedInParts(s: State, id: nat, patch: Value, after: LiveBlock, grew: nat)
    requires Shape(s) && id in s.live && AnyLiveAt(s.blocks, s.live[id]) && !LiveAt(s.blocks, s.live[id]).closed
    requires var before := LiveAt(s.blocks, s.live[id]);
      && after == Folded(before, patch)
      && grew == if after.currentBytes < before.currentBytes then 0 else after.currentBytes - before.currentBytes
    ensures Step(s, PatchBlock(id, patch))
      == Retention.NoteGrowth(s.(blocks := WithLive(s.blocks, s.live[id], after)), grew)
  {
    hide Retention.NoteGrowth, Folded, WithLive;
  }

  lemma PromptedInParts(s: State, next: State)
    requires Shape(s)
    requires next == (if !Retention.IsEmpty(Current(s.blocks)) && |s.blocks| < MAX_BLOCKS
                      then s.(blocks := s.blocks + [EMPTY_BLOCK]) else s)
    ensures Step(s, Event.PromptStart) ==
      next.(blocks := WithCurrent(next.blocks, Current(next.blocks).(cwd := next.cwd)),
            activeLink := None, sawMarks := true, phase := Prompt)
  {
  }

  class Scrollback {
    var activeLink: Option<string>
    var blocks: seq<CommandBlock>
    var cwd: Option<string>
    var cwdHost: Option<string>
    var since: nat
    var cursor: nat
    var live: map<nat, LiveIndex>
    var phase: Phase
    var sawMarks: bool

    ghost function Model(): State
      reads this, blocks
    {
      State(activeLink, Values(blocks), cwd, cwdHost, since, cursor, live, phase, sawMarks)
    }

    /** No two entries of the list are one block. */
    ghost predicate Distinct()
      reads this`blocks
    {
      forall i, j | 0 <= i < j < |blocks| :: blocks[i] != blocks[j]
    }

    /** No two entries of the list are one block, and the state is a sound one. */
    ghost predicate Valid()
      reads this, blocks
    {
      Distinct() && Inv(Model())
    }

    constructor ()
      ensures Valid() && Model() == INITIAL
      ensures forall b | b in blocks :: fresh(b)
    {
      var first := new CommandBlock();
      activeLink, blocks, cwd, cwdHost, since, cursor := None, [first], None, None, 0, 0;
      live, phase, sawMarks := map[], Output, false;
      new;
      Runs.InitialInv();
      assert Values(blocks) == [EMPTY_BLOCK];
    }

    // --------------------------------------------------------------------
    // The retention budget
    // --------------------------------------------------------------------

    /** Elide the oldest blocks until what is retained fits, then cut the current one if it alone does not. */
    method EnforceRetentionBudget()
      requires Distinct() && Shape(Model())
      modifies this, blocks
      ensures blocks == old(blocks) && Model() == Enforced(old(Model()))
    {
      hide Values, Retained, Evicted, TrimCurrent;
      var retained := Retained(Values(blocks));
      if retained <= MAX_RETAINED_OUTPUT_BYTES {
        return;
      }
      RetainedSuffix(Model().blocks, cursor);
      retained := Evict(retained);
      if retained > MAX_RETAINED_OUTPUT_BYTES {
        CutCurrent();
      }
    }

    method Evict(all: nat) returns (retained: nat)
      requires Distinct() && Shape(Model()) && Retained(Model().blocks[cursor..]) <= all
      modifies this, blocks
      ensures blocks == old(blocks) && (Model(), retained) == Evicted(old(Model()), all)
    {
      hide Values, Retained, RetainedBytes, Elided, Evicted, DropBlock, Distinct, ElideAt, Shape;
      retained := all;
      ShapeOf(Model());
      var last := |blocks| - 1;
      while retained > MAX_RETAINED_OUTPUT_BYTES && cursor < last
        decreases last - cursor
        invariant blocks == old(blocks) && cursor < |blocks| && Shape(Model())
        invariant Retained(Model().blocks[cursor..]) <= retained
        invariant Evicted(Model(), retained) == Evicted(old(Model()), all)
      {
        EvictedStep(Model(), retained);
        var block := blocks[cursor];
        if block.elided {
          cursor := cursor + 1;
          continue;
        }
        retained := retained - RetainedBytes(block.Model());
        ElideNext();
      }
      EvictedEnd(Model(), retained);
    }

    /** Elide the block at the cursor, forget its live blocks, and move on. */
    method ElideNext()
      requires Distinct() && Shape(Model())
      modifies this`cursor, this`live, blocks[cursor]
      ensures Model() == ElideAt(old(Model()), old(cursor)) && cursor == old(cursor) + 1
    {
      hide Values, Elided, DropBlock, ElideAt;
      ghost var state := Model();
      ElideBlock(cursor);
      live := DropBlock(live, cursor);
      cursor := cursor + 1;
      ElideInParts(state);
    }

    method ElideBlock(index: nat)
      requires Distinct() && index < |blocks|
      modifies blocks[index]
      ensures Model() == old(Model()).(blocks := old(Model()).blocks[index := Elided(old(Model()).blocks[index])])
    {
      hide Values, Elided;
      ghost var before := Model();
      blocks[index].Elide();
      ValuesAre(blocks, before.blocks[index := Elided(before.blocks[index])]);
    }

    method CutCurrent()
      requires Distinct() && Shape(Model())
      modifies this, blocks
      ensures blocks == old(blocks) && Model() == TrimCurrent(old(Model()))
    {
      hide Values, Trimmed, RetainedBytes, KeepLive;
      ghost var before := Model();
      var current := blocks[|blocks| - 1];
      var bytes := RetainedBytes(current.Model());
      var excess := if bytes < CURRENT_BLOCK_TRIM_TARGET then 0 else bytes - CURRENT_BLOCK_TRIM_TARGET;
      var _ := current.TrimFront(excess);
      ValuesAre(blocks, WithCurrent(before.blocks, Current(before.blocks).(output := current.output)));
      ForgetCut();
    }

    /** Forget the live blocks whose segment is no longer one. */
    method ForgetCut()
      modifies this`live
      ensures Model() == old(Model()).(live := KeepLive(old(live), old(Model()).blocks))
    {
      hide Values, KeepLive;
      var values := Values(blocks);
      live := KeepLive(live, values);
    }

    method NoteGrowth(bytes: nat)
      requires Distinct() && Shape(Model())
      modifies this, blocks
      ensures Distinct() && blocks == old(blocks) && Model() == Retention.NoteGrowth(old(Model()), bytes)
    {
      hide Values, Enforced, RetainedBytes;
      since := since + bytes;
      if since >= BUDGET_CHECK_INTERVAL_BYTES {
        since := 0;
        EnforceRetentionBudget();
      }
    }

    // --------------------------------------------------------------------
    // Text
    // --------------------------------------------------------------------

    method Print(text: string)
      requires Valid()
      modifies this, blocks
      ensures Valid() && blocks == old(blocks) && Model() == Step(old(Model()), Event.Print(text))
    {
      hide Values, Inv, Retention.NoteGrowth, WithText, WithLink, Enforced;
      InvShape(Model());
      Runs.StepKeepsInv(Model(), Event.Print(text));
      match phase {
        case Input => PrintCommand(text);
        case Output => PrintOutput(text);
        case Prompt => NoteGrowth(Bytes(text));
      }
    }

    /** Text typed at the prompt: what fits of it joins the command line. */
    method PrintCommand(text: string)
      requires Distinct() && Shape(Model()) && phase == Input
      modifies this, blocks
      ensures blocks == old(blocks) && Model() == Printed(old(Model()), text)
    {
      hide Values, Retention.NoteGrowth, Enforced, WithCurrent, Head, Bytes;
      var used := Bytes(blocks[|blocks| - 1].command);
      var room := if used < MAX_COMMAND_BYTES then MAX_COMMAND_BYTES - used else 0;
      var taken := Fit(text, room);
      ExtendCommand(taken);
      NoteGrowth(Bytes(taken));
    }

    method ExtendCommand(taken: string)
      requires Distinct() && Shape(Model())
      modifies blocks[|blocks| - 1]
      ensures Distinct() && Shape(Model())
      ensures var was := old(Model());
        var block := Current(was.blocks);
        Model() == was.(blocks := WithCurrent(was.blocks, block.(command := block.command + taken)))
    {
      hide Values;
      ghost var before := Model();
      var current := blocks[|blocks| - 1];
      current.command := current.command + taken;
      ValuesAre(blocks, WithCurrent(before.blocks, Current(before.blocks).(command := current.command)));
    }

    method PrintOutput(text: string)
      requires Distinct() && Shape(Model()) && phase == Output
      modifies this, blocks
      ensures blocks == old(blocks) && Model() == Printed(old(Model()), text)
    {
      hide Values, Retention.NoteGrowth, WithText, WithLink, Enforced;
      ghost var before := Model();
      var current := blocks[|blocks| - 1];
      if activeLink.Some? {
        current.AppendLink(text, activeLink.value);
      } else {
        current.AppendText(text);
      }
      ValuesAre(blocks, WithCurrent(before.blocks, Current(before.blocks).(output := current.output)));
      if activeLink.Some? {
        NoteGrowth(Bytes(activeLink.value));
      }
      NoteGrowth(Bytes(text));
    }

    method LineBreak()
      requires Valid()
      modifies this, blocks
      ensures Valid() && blocks == old(blocks) && Model() == Step(old(Model()), Event.LineBreak)
    {
      hide Values, Inv, Retention.NoteGrowth, WithText, Enforced;
      ghost var before := Model();
      InvShape(before);
      Runs.StepKeepsInv(before, Event.LineBreak);
      if phase == Output {
        var current := blocks[|blocks| - 1];
        current.AppendText("\n");
        ValuesAre(blocks, WithCurrent(before.blocks, Current(before.blocks).(output := current.output)));
        NoteGrowth(1);
      }
    }

    // --------------------------------------------------------------------
    // Marks
    // --------------------------------------------------------------------

    method PromptStart()
      requires Valid()
      modifies this, blocks
      ensures Valid() && Model() == Step(old(Model()), Event.PromptStart)
      ensures old(blocks) <= blocks && forall b | b in blocks[|old(blocks)|..] :: fresh(b)
    {
      hide Values, Inv, Distinct, Retention.IsEmpty, WithCurrent, Current, Step;
      ghost var before := Model();
      InvShape(before);
      Runs.StepKeepsInv(before, Event.PromptStart);
      NextBlock();
      ghost var next := Model();
      PromptHere();
      PromptedInParts(before, next);
    }

    /** Begin the prompt in the current block. */
    method PromptHere()
      requires Distinct() && Shape(Model())
      modifies this`activeLink, this`sawMarks, this`phase, blocks[|blocks| - 1]
      ensures Model() == old(Model()).(
        blocks := WithCurrent(old(Model()).blocks, Current(old(Model()).blocks).(cwd := cwd)),
        activeLink := None, sawMarks := true, phase := Prompt)
    {
      hide Values, Distinct, WithCurrent, Current;
      activeLink, sawMarks, phase := None, true, Prompt;
      MoveCurrent(cwd);
    }

    /** Start a new block, unless the current one is still empty or there are too many. */
    method NextBlock()
      requires Distinct() && Shape(Model())
      modifies this`blocks
      ensures Distinct()
      ensures Model() == (if !Retention.IsEmpty(Current(old(Model()).blocks)) && |old(blocks)| < MAX_BLOCKS
                          then old(Model()).(blocks := old(Model()).blocks + [EMPTY_BLOCK]) else old(Model()))
      ensures old(blocks) <= blocks && forall b | b in blocks[|old(blocks)|..] :: fresh(b)
      ensures blocks == old(blocks) || fresh(blocks[|blocks| - 1])
    {
      hide Values;
      if !blocks[|blocks| - 1].IsEmpty() && |blocks| < MAX_BLOCKS {
        ghost var before := Model();
        var block := new CommandBlock();
        blocks := blocks + [block];
        ValuesAre(blocks, before.blocks + [EMPTY_BLOCK]);
      }
    }

    method MoveCurrent(to: Option<string>)
      requires Distinct() && Shape(Model())
      modifies blocks[|blocks| - 1]
      ensures Model()
        == old(Model()).(blocks := WithCurrent(old(Model()).blocks, Current(old(Model()).blocks).(cwd := to)))
    {
      hide Values;
      ghost var before := Model();
      blocks[|blocks| - 1].cwd := to;
      ValuesAre(blocks, WithCurrent(before.blocks, Current(before.blocks).(cwd := to)));
    }

    method CommandStart()
      requires Valid()
      modifies this
      ensures Valid() && blocks == old(blocks) && Model() == Step(old(Model()), Event.CommandStart)
    {
      hide Values, Inv;
      InvShape(Model());
      Runs.StepKeepsInv(Model(), Event.CommandStart);
      sawMarks, phase := true, Input;
    }

    method OutputStart()
      requires Valid()
      modifies this
      ensures Valid() && blocks == old(blocks) && Model() == Step(old(Model()), Event.OutputStart)
    {
      hide Values, Inv;
      InvShape(Model());
      Runs.StepKeepsInv(Model(), Event.OutputStart);
      sawMarks, phase := true, Output;
    }

    method CommandEnd(exitCode: Option<int>)
      requires Valid()
      modifies this, blocks
      ensures Valid() && blocks == old(blocks) && Model() == Step(old(Model()), Event.CommandEnd(exitCode))
    {
      hide Values, Inv;
      ghost var before := Model();
      InvShape(before);
      Runs.StepKeepsInv(before, Event.CommandEnd(exitCode));
      blocks[|blocks| - 1].exitCode := exitCode;
      ValuesAre(blocks, WithCurrent(before.blocks, Current(before.blocks).(exitCode := exitCode)));
      sawMarks, phase := true, Output;
    }

    method SetCwd(to: string)
      requires Valid()
      modifies this, blocks
      ensures Valid() && blocks == old(blocks) && Model() == Step(old(Model()), Event.SetCwd(to))
    {
      hide Values, Inv;
      ghost var before := Model();
      InvShape(before);
      Runs.StepKeepsInv(before, Event.SetCwd(to));
      if Bytes(to) > MAX_CWD_BYTES {
        return;
      }
      if blocks[|blocks| - 1].cwd.None? {
        MoveCurrent(Some(to));
      }
      cwd := Some(to);
    }

    method SetCwdHost(host: Option<string>)
      requires Valid()
      modifies this
      ensures Valid() && blocks == old(blocks) && Model() == Step(old(Model()), Event.SetCwdHost(host))
    {
      hide Values, Inv;
      InvShape(Model());
      Runs.StepKeepsInv(Model(), Event.SetCwdHost(host));
      cwdHost := if host.Some? && Bytes(host.value) <= MAX_CWD_BYTES then host else None;
    }

    method SetLink(url: Option<string>)
      requires Valid()
      modifies this
      ensures Valid() && blocks == old(blocks) && Model() == Step(old(Model()), Event.SetLink(url))
    {
      hide Values, Inv;
      InvShape(Model());
      Runs.StepKeepsInv(Model(), Event.SetLink(url));
      activeLink := url;
    }

    // --------------------------------------------------------------------
    // Rich blocks
    // --------------------------------------------------------------------

    method AppendSegment(segment: Segment)
      requires Distinct() && Shape(Model())
      modifies blocks[|blocks| - 1]
      ensures Model() == WithOutput(old(Model()), Current(old(Model()).blocks).output + [segment])
    {
      hide Values;
      ghost var before := Model();
      var current := blocks[|blocks| - 1];
      current.output := current.output + [segment];
      ValuesAre(blocks, WithCurrent(before.blocks, Current(before.blocks).(output := current.output)));
    }

    method Emit(bundle: Bundle, id: nat, trust: Tier)
      requires Valid()
      modifies this, blocks
      ensures Valid() && blocks == old(blocks) && Model() == Step(old(Model()), EmitBlock(bundle, id, trust))
    {
      hide Values, Inv, Retention.NoteGrowth, Enforced, BundleBytes;
      ghost var before := Model();
      InvShape(before);
      Runs.StepKeepsInv(before, EmitBlock(bundle, id, trust));
      AppendSegment(Content(bundle, id, trust));
      NoteGrowth(BundleBytes(bundle));
    }

    /** Start tracking a live block, unless one is open under the id or too many are open. */
    method Open(id: nat, mime: string, spec: Value)
      requires Valid()
      modifies this, blocks
      ensures Valid() && blocks == old(blocks) && Model() == Step(old(Model()), OpenBlock(id, mime, spec))
    {
      hide Values, Inv, Opened, Distinct, WithOutput, Step;
      ghost var before := Model();
      InvShape(before);
      Runs.StepKeepsInv(before, OpenBlock(id, mime, spec));
      if id in live || |live| >= MAX_OPEN_LIVE_BLOCKS {
        OpenRefused(before, id, mime, spec);
        return;
      }
      OpenedInParts(before, id, mime, spec);
      Track(id, mime, spec);
    }

    /** A new live segment in the current block, and where it is. */
    method Track(id: nat, mime: string, spec: Value)
      requires Distinct() && Shape(Model())
      modifies this`live, blocks[|blocks| - 1]
      ensures var was := old(Model()); var output := Current(was.blocks).output;
        Model() == WithOutput(was, output + [Live(Opened(id, mime, spec))])
          .(live := was.live[id := LiveIndex(|was.blocks| - 1, |output|)])
    {
      hide Values, Distinct, WithCurrent, Opened;
      var segment := |blocks[|blocks| - 1].output|;
      live := live[id := LiveIndex(|blocks| - 1, segment)];
      AppendSegment(Live(Opened(id, mime, spec)));
    }

    method WriteLive(at: LiveIndex, current: LiveBlock)
      requires Distinct() && AnyLiveAt(Model().blocks, at)
      modifies blocks[at.block]
      ensures Model() == old(Model()).(blocks := WithLive(old(Model()).blocks, at, current))
    {
      hide Values;
      ghost var before := Model();
      var block := blocks[at.block];
      block.output := block.output[at.segment := Live(current)];
      ValuesAre(blocks, WithLive(before.blocks, at, current));
    }

    /** Fold a patch into the live block under `id`, found through the index alone. */
    method Patch(id: nat, patch: Value)
      requires Valid()
      modifies this, blocks
      ensures Valid() && blocks == old(blocks) && Model() == Step(old(Model()), PatchBlock(id, patch))
    {
      hide Values, Inv, Distinct, Retention.NoteGrowth, Enforced, Folded, WithLive, Step;
      ghost var before := Model();
      InvShape(before);
      Runs.StepKeepsInv(before, PatchBlock(id, patch));
      if id !in live || !AnyLiveAt(before.blocks, live[id]) || LiveAt(before.blocks, live[id]).closed {
        PatchIgnored(before, id, patch);
      }
      if id !in live {
        return;
      }
      var at := live[id];
      if at.block < |blocks| && at.segment < |blocks[at.block].output| {
        match blocks[at.block].output[at.segment] {
          case Live(current) =>
            if !current.closed {
              var folded, grew := Fold(current, patch);
              PatchedInParts(before, id, patch, folded, grew);
              WriteLive(at, folded);
              NoteGrowth(grew);
            }
          case _ =>
        }
      }
    }

    /** Stop tracking the live block under `id`, leaving it marked closed. */
    method Close(id: nat)
      requires Valid()
      modifies this, blocks
      ensures Valid() && blocks == old(blocks) && Model() == Step(old(Model()), CloseBlock(id))
    {
      hide Values, Inv;
      ghost var before := Model();
      InvShape(before);
      Runs.StepKeepsInv(before, CloseBlock(id));
      if id !in live {
        return;
      }
      var at := live[id];
      live := live - {id};
      if at.block < |blocks| && at.segment < |blocks[at.block].output| {
        match blocks[at.block].output[at.segment] {
          case Live(current) =>
            WriteLive(at, current.(closed := true));
          case _ =>
        }
      }
    }

    // --------------------------------------------------------------------
    // Reading
    // --------------------------------------------------------------------

    /** All plain text across the blocks' output, rich blocks and links skipped. */
    method AllText() returns (text: string)
      ensures text == PlainText(Values(blocks))
    {
      text := "";
      var values := Values(blocks);
      for b := 0 to |blocks|
        invariant PlainText(values) == text + PlainText(values[b..])
      {
        var output := blocks[b].output;
        assert values[b..][1..] == values[b + 1..];
        assert values[b..][0].output == output;
        ghost var before := text;
        for i := 0 to |output|
          invariant before + OutputText(output) == text + OutputText(output[i..])
        {
          assert output[i..][1..] == output[i + 1..];
          if output[i].Plain? {
            text := text + output[i].text;
          }
        }
        assert text == before + OutputText(output);
        assert before + (OutputText(output) + PlainText(values[b + 1..])) == text + PlainText(values[b + 1..]);
      }
    }
  }

  /** The longest prefix of `text` within `room` bytes, found by stepping back to a character boundary. */
  method Fit(text: string, room: nat) returns (taken: string)
    ensures taken == Head(text, room)
  {
    var take: nat := if Bytes(text) < room then Bytes(text) else room;
    if Bytes(text) < room {
      HeadOfAll(text, room);
    }
    while !IsCharBoundary(text, take)
      invariant Head(text, take) == Head(text, room)
      decreases take
    {
      HeadOffBoundary(text, take);
      take := take - 1;
    }
    BoundaryHead(text, take);
    return text[..CharsBefore(text, take)];
  }

  lemma {:induction false} HeadOfAll(text: string, room: nat)
    requires Bytes(text) <= room
    ensures Head(text, room) == Head(text, Bytes(text)) == text
  {
    if text != "" {
      HeadOfAll(text[1..], room - CharBytes(text[0]));
      HeadOfAll(text[1..], Bytes(text[1..]));
    }
  }
}

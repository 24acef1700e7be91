/** The scrollback as a state machine over terminal events: what each event does to the block list. */
module Retention {
  import opened Text
  import opened Json
  import opened Messages
  import opened Blocks

  // ------------------------------------------------------------------------
  // Constants
  // ------------------------------------------------------------------------

  const MAX_OPEN_LIVE_BLOCKS := 1024
  const MAX_COMMAND_BYTES := 4096
  const MAX_CWD_BYTES := 4096
  const MAX_BLOCKS := 50_000
  const MAX_RETAINED_OUTPUT_BYTES := 8 * 1024 * 1024
  const BUDGET_CHECK_INTERVAL_BYTES := 1024 * 1024
  const CURRENT_BLOCK_TRIM_TARGET := MAX_RETAINED_OUTPUT_BYTES / 4 * 3

  // ------------------------------------------------------------------------
  // State
  // ------------------------------------------------------------------------

  datatype Phase = Input | Output | Prompt

  /** Where a live block is in the block list. */
  datatype LiveIndex = LiveIndex(block: nat, segment: nat)

  datatype State = State(
    activeLink: Option<string>,
    blocks: seq<Block>,
    cwd: Option<string>,
    cwdHost: Option<string>,
    since: nat,
    cursor: nat,
    live: map<nat, LiveIndex>,
    phase: Phase,
    sawMarks: bool)

  const INITIAL := State(None, [EMPTY_BLOCK], None, None, 0, 0, map[], Output, false)

  datatype Event =
    | Print(text: string)
    | LineBreak
    | PromptStart
    | CommandStart
    | OutputStart
    | CommandEnd(exitCode: Option<int>)
    | SetCwd(cwd: string)
    | SetCwdHost(host: Option<string>)
    | EmitBlock(bundle: Bundle, id: nat, trust: Tier)
    | OpenBlock(id: nat, mime: string, spec: Value)
    | PatchBlock(id: nat, patch: Value)
    | CloseBlock(id: nat)
    | SetLink(url: Option<string>)

  /** There is always a block being written, and eviction has not passed it. */
  predicate Shape(s: State) {
    s.cursor < |s.blocks|
  }

  /** No block comes or goes, and the cursor moves no way but on. */
  predicate SameList(s: State, t: State) {
    |t.blocks| == |s.blocks| && s.cursor <= t.cursor < |t.blocks|
  }

  function Current(blocks: seq<Block>): Block
    requires blocks != []
  {
    blocks[|blocks| - 1]
  }

  function WithCurrent(blocks: seq<Block>, block: Block): seq<Block>
    requires blocks != []
  {
    blocks[|blocks| - 1 := block]
  }

  function WithOutput(s: State, output: seq<Segment>): State
    requires s.blocks != []
  {
    s.(blocks := WithCurrent(s.blocks, Current(s.blocks).(output := output)))
  }

  // ------------------------------------------------------------------------
  // Sums and text over the block list
  // ------------------------------------------------------------------------

  function Retained(blocks: seq<Block>): nat {
    if blocks == [] then 0 else RetainedBytes(blocks[0]) + Retained(blocks[1..])
  }

  /** Bytes of output, command lines left out. */
  function TotalOutput(blocks: seq<Block>): nat {
    if blocks == [] then 0 else OutputBytes(blocks[0].output) + TotalOutput(blocks[1..])
  }

  function PlainText(blocks: seq<Block>): string {
    if blocks == [] then "" else OutputText(blocks[0].output) + PlainText(blocks[1..])
  }

  // ------------------------------------------------------------------------
  // The retention budget
  // ------------------------------------------------------------------------

  /** The live blocks but those in block `at`. */
  function DropBlock(live: map<nat, LiveIndex>, at: nat): map<nat, LiveIndex> {
    map id | id in live && live[id].block != at :: live[id]
  }

  function AnyLiveAt(blocks: seq<Block>, at: LiveIndex): bool {
    at.block < |blocks| && at.segment < |blocks[at.block].output| && blocks[at.block].output[at.segment].Live?
  }

  /** The live blocks whose segment is still one. */
  function KeepLive(live: map<nat, LiveIndex>, blocks: seq<Block>): map<nat, LiveIndex> {
    map id | id in live && AnyLiveAt(blocks, live[id]) :: live[id]
  }

  function ElideAt(s: State, at: nat): State
    requires at < |s.blocks|
  {
    s.(blocks := s.blocks[at := Elided(s.blocks[at])], live := DropBlock(s.live, at), cursor := at + 1)
  }

  /** Elide from the cursor on until what is retained fits; the retained count that is left comes too. */
  function Evicted(s: State, retained: nat): (r: (State, nat))
    requires Shape(s)
    requires Retained(s.blocks[s.cursor..]) <= retained
    ensures SameList(s, r.0)
    decreases |s.blocks| - s.cursor
  {
    if retained > MAX_RETAINED_OUTPUT_BYTES && s.cursor + 1 < |s.blocks| then
      var block := s.blocks[s.cursor];
      assert s.blocks[s.cursor..][1..] == s.blocks[s.cursor + 1..];
      if block.elided then Evicted(s.(cursor := s.cursor + 1), retained)
      else
        var next := ElideAt(s, s.cursor);
        assert next.blocks[s.cursor + 1..] == s.blocks[s.cursor + 1..];
        Evicted(next, retained - RetainedBytes(block))
    else (s, retained)
  }

  /** Cut the current block back to the trim target. */
  function TrimCurrent(s: State): State
    requires s.blocks != []
  {
    var bytes := RetainedBytes(Current(s.blocks));
    var excess := if bytes < CURRENT_BLOCK_TRIM_TARGET then 0 else bytes - CURRENT_BLOCK_TRIM_TARGET;
    var cut := WithOutput(s, Trimmed(Current(s.blocks).output, excess));
    cut.(live := KeepLive(s.live, cut.blocks))
  }

  function Enforced(s: State): (t: State)
    requires Shape(s)
    ensures SameList(s, t)
  {
    var retained := Retained(s.blocks);
    if retained <= MAX_RETAINED_OUTPUT_BYTES then s
    else
      RetainedSuffix(s.blocks, s.cursor);
      var (evicted, left) := Evicted(s, retained);
      if left > MAX_RETAINED_OUTPUT_BYTES then TrimCurrent(evicted) else evicted
  }

  function NoteGrowth(s: State, bytes: nat): (t: State)
    requires Shape(s)
    ensures SameList(s, t)
  {
    if s.since + bytes >= BUDGET_CHECK_INTERVAL_BYTES then Enforced(s.(since := 0))
    else s.(since := s.since + bytes)
  }

  lemma {:induction false} RetainedSuffix(blocks: seq<Block>, at: nat)
    requires at <= |blocks|
    ensures Retained(blocks[at..]) <= Retained(blocks)
  {
    if at > 0 {
      RetainedSuffix(blocks[1..], at - 1);
      assert blocks[1..][at - 1..] == blocks[at..];
    } else {
      assert blocks[at..] == blocks;
    }
  }

  // ------------------------------------------------------------------------
  // Events
  // ------------------------------------------------------------------------

  function Printed(s: State, text: string): State
    requires Shape(s)
  {
    var current := Current(s.blocks);
    match s.phase
    case Input =>
      var room := if Bytes(current.command) < MAX_COMMAND_BYTES then MAX_COMMAND_BYTES - Bytes(current.command) else 0;
      var taken := Head(text, room);
      NoteGrowth(s.(blocks := WithCurrent(s.blocks, current.(command := current.command + taken))), Bytes(taken))
    case Output => (
      match s.activeLink
      case Some(url) =>
        var linked := WithOutput(s, WithLink(current.output, text, url));
        NoteGrowth(NoteGrowth(linked, Bytes(url)), Bytes(text))
      case None => NoteGrowth(WithOutput(s, WithText(current.output, text)), Bytes(text))
    )
    case Prompt => NoteGrowth(s, Bytes(text))
  }

  function BrokenLine(s: State): State
    requires Shape(s)
  {
    if s.phase == Output then NoteGrowth(WithOutput(s, WithText(Current(s.blocks).output, "\n")), 1) else s
  }

  predicate IsEmpty(block: Block) {
    block.command == "" && block.output == []
  }

  function Prompted(s: State): State
    requires s.blocks != []
  {
    var blocks := if !IsEmpty(Current(s.blocks)) && |s.blocks| < MAX_BLOCKS then s.blocks + [EMPTY_BLOCK] else s.blocks;
    s.(blocks := WithCurrent(blocks, Current(blocks).(cwd := s.cwd)),
       activeLink := None, sawMarks := true, phase := Prompt)
  }

  function MovedTo(s: State, cwd: string): State
    requires s.blocks != []
  {
    if Bytes(cwd) > MAX_CWD_BYTES then s
    else
      var current := Current(s.blocks);
      s.(cwd := Some(cwd),
         blocks := if current.cwd.None? then WithCurrent(s.blocks, current.(cwd := Some(cwd))) else s.blocks)
  }

  function Emitted(s: State, bundle: Bundle, id: nat, trust: Tier): State
    requires Shape(s)
  {
    NoteGrowth(WithOutput(s, Current(s.blocks).output + [Content(bundle, id, trust)]), BundleBytes(bundle))
  }

  function OpenedIn(s: State, id: nat, mime: string, spec: Value): State
    requires s.blocks != []
  {
    if id in s.live || |s.live| >= MAX_OPEN_LIVE_BLOCKS then s
    else
      var output := Current(s.blocks).output;
      WithOutput(s, output + [Live(Opened(id, mime, spec))])
        .(live := s.live[id := LiveIndex(|s.blocks| - 1, |output|)])
  }

  function LiveAt(blocks: seq<Block>, at: LiveIndex): LiveBlock
    requires AnyLiveAt(blocks, at)
  {
    blocks[at.block].output[at.segment].live
  }

  /** The block list with one live block written over. */
  function WithLive(blocks: seq<Block>, at: LiveIndex, live: LiveBlock): seq<Block>
    requires AnyLiveAt(blocks, at)
  {
    var block := blocks[at.block];
    blocks[at.block := block.(output := block.output[at.segment := Live(live)])]
  }

  function PatchedIn(s: State, id: nat, patch: Value): State
    requires Shape(s)
  {
    if id in s.live && AnyLiveAt(s.blocks, s.live[id]) && !LiveAt(s.blocks, s.live[id]).closed then
      var before := LiveAt(s.blocks, s.live[id]);
      var after := Folded(before, patch);
      var grew := if after.currentBytes < before.currentBytes then 0 else after.currentBytes - before.currentBytes;
      NoteGrowth(s.(blocks := WithLive(s.blocks, s.live[id], after)), grew)
    else s
  }

  function ClosedIn(s: State, id: nat): State
    requires s.blocks != []
  {
    if id in s.live then
      var at := s.live[id];
      s.(live := s.live - {id},
         blocks :=
           if AnyLiveAt(s.blocks, at) then WithLive(s.blocks, at, LiveAt(s.blocks, at).(closed := true)) else s.blocks)
    else s
  }

  function Step(s: State, e: Event): (t: State)
    requires Shape(s)
    ensures |s.blocks| <= |t.blocks| && s.cursor <= t.cursor < |t.blocks|
  {
    match e
    case Print(text) => Printed(s, text)
    case LineBreak => BrokenLine(s)
    case PromptStart => Prompted(s)
    case CommandStart => s.(sawMarks := true, phase := Input)
    case OutputStart => s.(sawMarks := true, phase := Output)
    case CommandEnd(code) =>
      s.(sawMarks := true, phase := Output, blocks := WithCurrent(s.blocks, Current(s.blocks).(exitCode := code)))
    case SetCwd(cwd) => MovedTo(s, cwd)
    case SetCwdHost(host) => s.(cwdHost := if host.Some? && Bytes(host.value) <= MAX_CWD_BYTES then host else None)
    case EmitBlock(bundle, id, trust) => Emitted(s, bundle, id, trust)
    case OpenBlock(id, mime, spec) => OpenedIn(s, id, mime, spec)
    case PatchBlock(id, patch) => PatchedIn(s, id, patch)
    case CloseBlock(id) => ClosedIn(s, id)
    case SetLink(url) => s.(activeLink := url)
  }

  /** The state after a run of events. */
  function Run(s: State, events: seq<Event>): (t: State)
    requires Shape(s)
    ensures |s.blocks| <= |t.blocks| && s.cursor <= t.cursor < |t.blocks|
    decreases |events|
  {
    if events == [] then s else
      Run(Step(s, events[0]), events[1..])
  }
}

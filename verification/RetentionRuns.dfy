/** The scrollback's laws event by event, and over every run from a fresh session. */
module RetentionRuns {
  import opened Text
  import opened Json
  import opened Messages
  import opened Blocks
  import opened Retention
  import opened RetentionLaws

  // ------------------------------------------------------------------------
  // What an event brings
  // ------------------------------------------------------------------------

  /** The plain text an event appends. */
  function Appended(s: State, e: Event): string {
    match e
    case Print(text) => if s.phase == Output && s.activeLink.None? then text else ""
    case LineBreak => if s.phase == Output then "\n" else ""
    case _ => ""
  }

  function Taken(s: State, text: string): string
    requires Shape(s)
  {
    var command := Current(s.blocks).command;
    Head(text, if Bytes(command) < MAX_COMMAND_BYTES then MAX_COMMAND_BYTES - Bytes(command) else 0)
  }

  function Grew(s: State, id: nat, patch: Value): nat {
    if id in s.live && Unclosed(s.blocks, s.live[id]) then
      var before := LiveAt(s.blocks, s.live[id]);
      var after := Folded(before, patch);
      if after.currentBytes < before.currentBytes then 0 else after.currentBytes - before.currentBytes
    else 0
  }

  /** The bytes an event counts towards the next check. */
  function Counted(s: State, e: Event): nat
    requires Shape(s)
  {
    match e
    case Print(text) => (
      match s.phase
      case Input => Bytes(Taken(s, text))
      case Output => Bytes(text) + if s.activeLink.Some? then Bytes(s.activeLink.value) else 0
      case Prompt => Bytes(text)
    )
    case LineBreak => if s.phase == Output then 1 else 0
    case EmitBlock(bundle, _, _) => BundleBytes(bundle)
    case PatchBlock(id, patch) => Grew(s, id, patch)
    case _ => 0
  }

  /** The bytes an accepted `open` adds, which nothing counts. */
  function OpenedBytes(s: State, e: Event): nat {
    if e.OpenBlock? && e.id !in s.live && |s.live| < MAX_OPEN_LIVE_BLOCKS then 2 * JsonBytes(e.spec) else 0
  }

  /** Whether an event makes the budget be measured again. */
  predicate Checks(s: State, e: Event)
    requires Shape(s)
  {
    s.since + Counted(s, e) >= BUDGET_CHECK_INTERVAL_BYTES
  }

  /** What every step keeps: the invariant, the text as a suffix, and the bound on output. */
  ghost predicate StepKeeps(s: State, t: State, appended: string, counted: nat, unseen: nat) {
    && Inv(t)
    && IsSuffix(PlainText(t.blocks), PlainText(s.blocks) + appended)
    && (if s.since + counted >= BUDGET_CHECK_INTERVAL_BYTES
        then TotalOutput(t.blocks) <= MAX_RETAINED_OUTPUT_BYTES + t.since
        else t.since == s.since + counted && TotalOutput(t.blocks) <= TotalOutput(s.blocks) + counted + unseen)
  }

  // ------------------------------------------------------------------------
  // Noting growth
  // ------------------------------------------------------------------------

  lemma NoteGrowthLaws(s: State, bytes: nat)
    requires Inv(s)
    ensures var t := NoteGrowth(s, bytes);
      && Inv(t)
      && IsSuffix(PlainText(t.blocks), PlainText(s.blocks))
      && (if s.since + bytes >= BUDGET_CHECK_INTERVAL_BYTES
          then t.since == 0 && TotalOutput(t.blocks) <= MAX_RETAINED_OUTPUT_BYTES
          else t == s.(since := s.since + bytes))
  {
    hide Enforced;
    var reset := s.(since := 0);
    SameLivesKeepIndex(s, reset);
    if s.since + bytes >= BUDGET_CHECK_INTERVAL_BYTES {
      EnforcedKeepsInv(reset);
      EnforcedKeepsSuffix(reset);
      EnforcedWithinBudget(reset);
    } else {
      SameLivesKeepIndex(s, s.(since := s.since + bytes));
    }
  }

  /** A change that adds no more than it counts, then counted. */
  lemma ChangeThenNote(s: State, changed: State, appended: string, bytes: nat)
    requires Inv(s) && Inv(changed) && changed.since == s.since
    requires PlainText(changed.blocks) == PlainText(s.blocks) + appended
    requires TotalOutput(changed.blocks) <= TotalOutput(s.blocks) + bytes
    ensures StepKeeps(s, NoteGrowth(changed, bytes), appended, bytes, 0)
  {
    hide Inv, NoteGrowth, TotalOutput, PlainText;
    InvShape(s);
    InvShape(changed);
    NoteGrowthLaws(changed, bytes);
  }

  lemma NothingAdded(s: State, t: State)
    requires Inv(s) && Inv(t) && t.since == s.since
    requires PlainText(t.blocks) == PlainText(s.blocks) && TotalOutput(t.blocks) <= TotalOutput(s.blocks)
    ensures StepKeeps(s, t, "", 0, 0)
  {
    assert PlainText(s.blocks) + "" == PlainText(s.blocks);
  }

  // ------------------------------------------------------------------------
  // Changes to the current block
  // ------------------------------------------------------------------------

  /** What rewriting the current block does to the sums. */
  lemma CurrentSums(s: State, block: Block, appended: string, bytes: nat)
    requires Shape(s)
    requires OutputText(block.output) == OutputText(Current(s.blocks).output) + appended
    requires OutputBytes(block.output) <= OutputBytes(Current(s.blocks).output) + bytes
    ensures var blocks := WithCurrent(s.blocks, block);
      && PlainText(blocks) == PlainText(s.blocks) + appended
      && TotalOutput(blocks) <= TotalOutput(s.blocks) + bytes
  {
    hide OutputText, OutputBytes, PlainText, TotalOutput;
    CurrentText(s.blocks, block);
    BlockReplaced(s.blocks, |s.blocks| - 1, block);
    var front := PlainText(s.blocks[..|s.blocks| - 1]);
    assert front + (OutputText(Current(s.blocks).output) + appended)
      == front + OutputText(Current(s.blocks).output) + appended;
  }

  lemma CurrentNotElided(s: State)
    requires Inv(s)
    ensures !Current(s.blocks).elided && Bytes(Current(s.blocks).command) <= MAX_COMMAND_BYTES
  {
  }

  /** Output added to the current block with its live segments untouched. */
  lemma OutputAdded(s: State, output: seq<Segment>, appended: string, bytes: nat)
    requires Inv(s)
    requires SameLiveSegments(Current(s.blocks).output, output)
    requires OutputText(output) == OutputText(Current(s.blocks).output) + appended
    requires OutputBytes(output) <= OutputBytes(Current(s.blocks).output) + bytes
    ensures var t := WithOutput(s, output);
      && Inv(t) && t.since == s.since
      && PlainText(t.blocks) == PlainText(s.blocks) + appended
      && TotalOutput(t.blocks) <= TotalOutput(s.blocks) + bytes
  {
    hide OutputText, OutputBytes, PlainText, TotalOutput, Inv, SameLiveSegments;
    InvShape(s);
    CurrentNotElided(s);
    CurrentRewritten(s, Current(s.blocks).(output := output));
    CurrentSums(s, Current(s.blocks).(output := output), appended, bytes);
  }

  lemma TextKeepsLives(output: seq<Segment>, text: string)
    ensures SameLiveSegments(output, WithText(output, text))
  {
  }

  lemma LinkKeepsLives(output: seq<Segment>, text: string, url: string)
    ensures SameLiveSegments(output, WithLink(output, text, url))
  {
  }

  // ------------------------------------------------------------------------
  // Event by event
  // ------------------------------------------------------------------------

  lemma PrintInput(s: State, text: string)
    requires Inv(s) && s.phase == Input
    ensures StepKeeps(s, Printed(s, text), "", Bytes(Taken(s, text)), 0)
  {
    hide PlainText, TotalOutput, NoteGrowth, Inv, OutputText, OutputBytes;
    InvShape(s);
    CurrentNotElided(s);
    var current := Current(s.blocks);
    BytesOfConcat(current.command, Taken(s, text));
    var block := current.(command := current.command + Taken(s, text));
    CurrentRewritten(s, block);
    assert OutputText(current.output) == OutputText(current.output) + "";
    CurrentSums(s, block, "", 0);
    ChangeThenNote(s, s.(blocks := WithCurrent(s.blocks, block)), "", Bytes(Taken(s, text)));
  }

  lemma PrintText(s: State, text: string)
    requires Inv(s)
    ensures var output := WithText(Current(s.blocks).output, text);
      StepKeeps(s, NoteGrowth(WithOutput(s, output), Bytes(text)), text, Bytes(text), 0)
  {
    hide PlainText, TotalOutput, NoteGrowth, Inv, OutputText, OutputBytes;
    InvShape(s);
    var output := Current(s.blocks).output;
    TextKeepsLives(output, text);
    WithTextAppends(output, text);
    OutputAdded(s, WithText(output, text), text, Bytes(text));
    ChangeThenNote(s, WithOutput(s, WithText(output, text)), text, Bytes(text));
  }

  lemma PrintLink(s: State, text: string, url: string)
    requires Inv(s)
    ensures var linked := WithOutput(s, WithLink(Current(s.blocks).output, text, url));
      StepKeeps(s, NoteGrowth(NoteGrowth(linked, Bytes(url)), Bytes(text)), "", Bytes(text) + Bytes(url), 0)
  {
    hide PlainText, TotalOutput, NoteGrowth, Inv, OutputText, OutputBytes;
    InvShape(s);
    var output := Current(s.blocks).output;
    LinkKeepsLives(output, text, url);
    WithLinkAppends(output, text, url);
    assert OutputText(output) + "" == OutputText(output);
    OutputAdded(s, WithLink(output, text, url), "", Bytes(text) + Bytes(url));
    NotedTwice(s, WithOutput(s, WithLink(output, text, url)), Bytes(url), Bytes(text));
  }

  lemma KeepsIs(s: State, t: State, appended: string, counted: nat)
    requires Inv(t) && IsSuffix(PlainText(t.blocks), PlainText(s.blocks) + appended)
    requires if s.since + counted >= BUDGET_CHECK_INTERVAL_BYTES
      then TotalOutput(t.blocks) <= MAX_RETAINED_OUTPUT_BYTES + t.since
      else t.since == s.since + counted && TotalOutput(t.blocks) <= TotalOutput(s.blocks) + counted
    ensures StepKeeps(s, t, appended, counted, 0)
  {
    hide Inv, IsSuffix, PlainText, TotalOutput;
  }

  /** The same, in numbers and text. */
  lemma NotedNumbers(s: State, bytes: nat)
    requires Inv(s)
    ensures Shape(s) && Inv(NoteGrowth(s, bytes))
    ensures IsSuffix(PlainText(NoteGrowth(s, bytes).blocks), PlainText(s.blocks))
    ensures var t := NoteGrowth(s, bytes);
      if s.since + bytes >= BUDGET_CHECK_INTERVAL_BYTES
      then t.since == 0 && TotalOutput(t.blocks) <= MAX_RETAINED_OUTPUT_BYTES
      else t.since == s.since + bytes && TotalOutput(t.blocks) == TotalOutput(s.blocks)
  {
    hide PlainText, TotalOutput, NoteGrowth, Inv, IsSuffix;
    InvShape(s);
    NoteGrowthLaws(s, bytes);
  }

  /** Two amounts counted one after the other, in numbers alone. */
  lemma CountedTwice(
    total: nat, since: nat, first: nat, second: nat, changed: nat, onceTotal: nat, onceSince: nat, twiceTotal: nat,
    twiceSince: nat)
    requires changed <= total + second + first
    requires if since + first >= BUDGET_CHECK_INTERVAL_BYTES
      then onceSince == 0 && onceTotal <= MAX_RETAINED_OUTPUT_BYTES
      else onceSince == since + first && onceTotal == changed
    requires if onceSince + second >= BUDGET_CHECK_INTERVAL_BYTES
      then twiceSince == 0 && twiceTotal <= MAX_RETAINED_OUTPUT_BYTES
      else twiceSince == onceSince + second && twiceTotal == onceTotal
    ensures if since + (second + first) >= BUDGET_CHECK_INTERVAL_BYTES
      then twiceTotal <= MAX_RETAINED_OUTPUT_BYTES + twiceSince
      else twiceSince == since + (second + first) && twiceTotal <= total + (second + first)
  {
  }

  /** A change counted in two parts, either of which may set off a check. */
  lemma NotedTwice(s: State, changed: State, first: nat, second: nat)
    requires Inv(s) && Inv(changed) && changed.since == s.since
    requires PlainText(changed.blocks) == PlainText(s.blocks)
    requires TotalOutput(changed.blocks) <= TotalOutput(s.blocks) + second + first
    ensures StepKeeps(s, NoteGrowth(NoteGrowth(changed, first), second), "", second + first, 0)
  {
    hide PlainText, TotalOutput, NoteGrowth, Inv, IsSuffix, StepKeeps;
    NotedNumbers(changed, first);
    var once := NoteGrowth(changed, first);
    NotedNumbers(once, second);
    var twice := NoteGrowth(once, second);
    CountedTwice(TotalOutput(s.blocks), s.since, first, second, TotalOutput(changed.blocks),
                 TotalOutput(once.blocks), once.since, TotalOutput(twice.blocks), twice.since);
    SuffixTransitive(PlainText(twice.blocks), PlainText(once.blocks), PlainText(changed.blocks));
    var text := PlainText(s.blocks);
    assert text + "" == text;
    KeepsIs(s, twice, "", second + first);
  }

  lemma EmitKeeps(s: State, bundle: Bundle, id: nat, trust: Tier)
    requires Inv(s)
    ensures StepKeeps(s, Emitted(s, bundle, id, trust), "", BundleBytes(bundle), 0)
  {
    hide PlainText, TotalOutput, NoteGrowth, Inv, OutputText, OutputBytes, BundleBytes;
    InvShape(s);
    var output, content := Current(s.blocks).output, Content(bundle, id, trust);
    LastSegment(output, content);
    assert OutputText(output) + "" == OutputText(output);
    assert SameLiveSegments(output, output + [content]);
    OutputAdded(s, output + [content], "", BundleBytes(bundle));
    ChangeThenNote(s, WithOutput(s, output + [content]), "", BundleBytes(bundle));
  }

  /** A block rewritten without touching its output. */
  lemma HeaderKeeps(s: State, block: Block)
    requires Inv(s)
    requires block.output == Current(s.blocks).output && block.command == Current(s.blocks).command && !block.elided
    ensures var t := s.(blocks := WithCurrent(s.blocks, block));
      Inv(t) && PlainText(t.blocks) == PlainText(s.blocks) && TotalOutput(t.blocks) <= TotalOutput(s.blocks)
  {
    hide PlainText, TotalOutput, Inv, OutputText, OutputBytes;
    InvShape(s);
    CurrentNotElided(s);
    CurrentRewritten(s, block);
    assert OutputText(block.output) == OutputText(block.output) + "";
    CurrentSums(s, block, "", 0);
    assert PlainText(s.blocks) + "" == PlainText(s.blocks);
  }

  lemma PushKeeps(s: State)
    requires Inv(s) && |s.blocks| < MAX_BLOCKS
    ensures var t := s.(blocks := s.blocks + [EMPTY_BLOCK]);
      Inv(t) && PlainText(t.blocks) == PlainText(s.blocks) && TotalOutput(t.blocks) == TotalOutput(s.blocks)
  {
    hide PlainText, TotalOutput;
    var t := s.(blocks := s.blocks + [EMPTY_BLOCK]);
    TextConcat(s.blocks, [EMPTY_BLOCK]);
    OneBlock(EMPTY_BLOCK);
    assert PlainText(s.blocks) + "" == PlainText(s.blocks);
    forall at ensures (AnyLiveAt(s.blocks, at) <==> AnyLiveAt(t.blocks, at))
        && (AnyLiveAt(s.blocks, at) ==> LiveAt(s.blocks, at) == LiveAt(t.blocks, at)) {
    }
    SameLivesKeepIndex(s, t);
  }

  /** Fields the invariant does not read. */
  lemma ElsewhereKeeps(s: State, t: State)
    requires Inv(s)
    requires t.blocks == s.blocks && t.live == s.live && t.cursor == s.cursor && t.since == s.since
    ensures Inv(t)
  {
    SameLivesKeepIndex(s, t);
  }

  lemma PromptKeeps(s: State)
    requires Inv(s)
    ensures StepKeeps(s, Prompted(s), "", 0, 0)
  {
    hide PlainText, TotalOutput, Inv;
    InvShape(s);
    var pushed := s;
    if !IsEmpty(Current(s.blocks)) && |s.blocks| < MAX_BLOCKS {
      PushKeeps(s);
      pushed := s.(blocks := s.blocks + [EMPTY_BLOCK]);
    }
    InvShape(pushed);
    CurrentNotElided(pushed);
    var moved := pushed.(blocks := WithCurrent(pushed.blocks, Current(pushed.blocks).(cwd := s.cwd)));
    HeaderKeeps(pushed, Current(pushed.blocks).(cwd := s.cwd));
    ElsewhereKeeps(moved, Prompted(s));
    NothingAdded(s, Prompted(s));
  }

  lemma MoveKeeps(s: State, cwd: string)
    requires Inv(s)
    ensures StepKeeps(s, MovedTo(s, cwd), "", 0, 0)
  {
    hide PlainText, TotalOutput, Inv;
    InvShape(s);
    CurrentNotElided(s);
    var moved := s.(blocks := WithCurrent(s.blocks, Current(s.blocks).(cwd := Some(cwd))));
    HeaderKeeps(s, Current(s.blocks).(cwd := Some(cwd)));
    if Bytes(cwd) <= MAX_CWD_BYTES {
      ElsewhereKeeps(if Current(s.blocks).cwd.None? then moved else s, MovedTo(s, cwd));
    }
    NothingAdded(s, MovedTo(s, cwd));
  }

  lemma EndKeeps(s: State, code: Option<int>)
    requires Inv(s)
    ensures StepKeeps(s, Step(s, CommandEnd(code)), "", 0, 0)
  {
    hide PlainText, TotalOutput, Inv;
    InvShape(s);
    CurrentNotElided(s);
    var block := Current(s.blocks).(exitCode := code);
    HeaderKeeps(s, block);
    ElsewhereKeeps(s.(blocks := WithCurrent(s.blocks, block)), Step(s, CommandEnd(code)));
    NothingAdded(s, Step(s, CommandEnd(code)));
  }

  // ------------------------------------------------------------------------
  // Live blocks
  // ------------------------------------------------------------------------

  /** The new live segment is the only one an `open` adds. */
  lemma OpenAt(s: State, id: nat, mime: string, spec: Value)
    requires Shape(s) && id !in s.live && |s.live| < MAX_OPEN_LIVE_BLOCKS
    ensures var t, at := OpenedIn(s, id, mime, spec), LiveIndex(|s.blocks| - 1, |Current(s.blocks).output|);
      && !AnyLiveAt(s.blocks, at) && AnyLiveAt(t.blocks, at) && LiveAt(t.blocks, at) == Opened(id, mime, spec)
      && LivesBut(s.blocks, t.blocks, at)
      && t.live == s.live[id := at]
  {
    hide Opened;
    var last := |s.blocks| - 1;
    assert forall i | 0 <= i < last :: OpenedIn(s, id, mime, spec).blocks[i] == s.blocks[i];
  }

  /** The same live segments everywhere but at one place. */
  ghost predicate LivesBut(a: seq<Block>, b: seq<Block>, at: LiveIndex) {
    forall other | other != at ::
      (AnyLiveAt(b, other) <==> AnyLiveAt(a, other)) && (AnyLiveAt(a, other) ==> LiveAt(b, other) == LiveAt(a, other))
  }

  lemma OpenKeepsInv(s: State, id: nat, mime: string, spec: Value)
    requires Inv(s)
    ensures Inv(OpenedIn(s, id, mime, spec))
  {
    hide BlocksSound, IndexExact, JsonBytes, AnyLiveAt, LiveAt;
    if id !in s.live && |s.live| < MAX_OPEN_LIVE_BLOCKS {
      var t, at := OpenedIn(s, id, mime, spec), LiveIndex(|s.blocks| - 1, |Current(s.blocks).output|);
      OpenAt(s, id, mime, spec);
      OpenKeepsIndex(s, t, id, at);
      OpenKeepsSound(s.blocks, t.blocks, at, Opened(id, mime, spec));
      CurrentNotElided(s);
      assert |t.live| == |s.live| + 1;
    }
  }

  lemma OpenKeepsSound(blocks: seq<Block>, after: seq<Block>, at: LiveIndex, live: LiveBlock)
    requires BlocksSound(blocks) && |after| == |blocks|
    requires forall b | 0 <= b < |blocks| :: after[b].command == blocks[b].command
    requires LivesBut(blocks, after, at) && AnyLiveAt(after, at) && LiveAt(after, at) == live
    requires live.currentBytes == JsonBytes(live.current)
    ensures BlocksSound(after)
  {
    hide AnyLiveAt, LiveAt, JsonBytes;
  }

  lemma OpenKeepsIndex(s: State, t: State, id: nat, at: LiveIndex)
    requires IndexExact(s) && id !in s.live && t.live == s.live[id := at]
    requires !AnyLiveAt(s.blocks, at) && Unclosed(t.blocks, at) && LiveAt(t.blocks, at).id == id
    requires LivesBut(s.blocks, t.blocks, at)
    ensures IndexExact(t)
  {
    hide AnyLiveAt;
    forall other ensures other != at ==> (Unclosed(t.blocks, other) <==> Unclosed(s.blocks, other)) {
    }
    forall k | k in s.live ensures s.live[k] != at {
      assert Unclosed(s.blocks, s.live[k]);
    }
  }

  lemma OpenKeeps(s: State, id: nat, mime: string, spec: Value)
    requires Inv(s)
    ensures StepKeeps(s, OpenedIn(s, id, mime, spec), "", 0, OpenedBytes(s, OpenBlock(id, mime, spec)))
  {
    hide PlainText, TotalOutput, Inv, OutputText, OutputBytes;
    InvShape(s);
    OpenKeepsInv(s, id, mime, spec);
    if id !in s.live && |s.live| < MAX_OPEN_LIVE_BLOCKS {
      var output, segment := Current(s.blocks).output, Live(Opened(id, mime, spec));
      LastSegment(output, segment);
      assert OutputText(output) + "" == OutputText(output);
      CurrentSums(s, Current(s.blocks).(output := output + [segment]), "", 2 * JsonBytes(spec));
    } else {
      NothingAdded(s, s);
    }
  }

  /** Writing over an unclosed live block leaves every other segment as it was. */
  lemma WithLiveAt(blocks: seq<Block>, at: LiveIndex, live: LiveBlock)
    requires AnyLiveAt(blocks, at)
    ensures var after := WithLive(blocks, at, live);
      && |after| == |blocks|
      && AnyLiveAt(after, at) && LiveAt(after, at) == live
      && LivesBut(blocks, after, at)
      && PlainText(after) == PlainText(blocks)
      && TotalOutput(after) + LiveAt(blocks, at).currentBytes + JsonBytes(LiveAt(blocks, at).initial)
        == TotalOutput(blocks) + live.currentBytes + JsonBytes(live.initial)
  {
    hide JsonBytes, PlainText, TotalOutput, LivesBut;
    WithLiveSums(blocks, at, live);
    WithLiveBut(blocks, at, live);
  }

  lemma WithLiveBut(blocks: seq<Block>, at: LiveIndex, live: LiveBlock)
    requires AnyLiveAt(blocks, at)
    ensures LivesBut(blocks, WithLive(blocks, at, live), at)
  {
  }

  lemma WithLiveSums(blocks: seq<Block>, at: LiveIndex, live: LiveBlock)
    requires AnyLiveAt(blocks, at)
    ensures var after := WithLive(blocks, at, live);
      && PlainText(after) == PlainText(blocks)
      && TotalOutput(after) + LiveAt(blocks, at).currentBytes + JsonBytes(LiveAt(blocks, at).initial)
        == TotalOutput(blocks) + live.currentBytes + JsonBytes(live.initial)
  {
    hide JsonBytes, PlainText, TotalOutput, OutputText, OutputBytes;
    var block := blocks[at.block];
    var output := block.output[at.segment := Live(live)];
    SegmentReplaced(block.output, at.segment, Live(live));
    BlockReplaced(blocks, at.block, block.(output := output));
    var front, back := blocks[..at.block], blocks[at.block + 1..];
    assert blocks == front + ([block] + back);
    assert WithLive(blocks, at, live) == front + ([block.(output := output)] + back);
    SameTextBetween(front, block, block.(output := output), back);
  }

  lemma SameTextBetween(front: seq<Block>, a: Block, b: Block, back: seq<Block>)
    requires OutputText(a.output) == OutputText(b.output)
    ensures PlainText(front + ([a] + back)) == PlainText(front + ([b] + back))
  {
    hide PlainText, TotalOutput, OutputText, OutputBytes;
    TextConcat(front, [a] + back);
    TextConcat([a], back);
    TextConcat(front, [b] + back);
    TextConcat([b], back);
    OneBlock(a);
    OneBlock(b);
  }

  lemma PatchKeepsInv(s: State, id: nat, live: LiveBlock)
    requires Inv(s) && id in s.live && live.id == id && !live.closed
    requires live.currentBytes == JsonBytes(live.current)
    ensures Inv(s.(blocks := WithLive(s.blocks, s.live[id], live)))
  {
    hide PlainText, TotalOutput, JsonBytes;
    var at := s.live[id];
    assert Unclosed(s.blocks, at);
    var t := s.(blocks := WithLive(s.blocks, at, live));
    WithLiveAt(s.blocks, at, live);
    forall other ensures Unclosed(t.blocks, other) <==> Unclosed(s.blocks, other) {
    }
  }

  lemma PatchKeeps(s: State, id: nat, patch: Value)
    requires Inv(s)
    ensures StepKeeps(s, PatchedIn(s, id, patch), "", Grew(s, id, patch), 0)
  {
    hide PlainText, TotalOutput, Inv, NoteGrowth, JsonBytes;
    InvShape(s);
    if id in s.live {
      IndexedIsLive(s, id);
      var at := s.live[id];
      var after := Folded(LiveAt(s.blocks, at), patch);
      WithLiveAt(s.blocks, at, after);
      PatchKeepsInv(s, id, after);
      assert PlainText(s.blocks) + "" == PlainText(s.blocks);
      ChangeThenNote(s, s.(blocks := WithLive(s.blocks, at, after)), "", Grew(s, id, patch));
    } else {
      NothingAdded(s, s);
    }
  }

  lemma IndexedIsLive(s: State, id: nat)
    requires Inv(s) && id in s.live
    ensures Unclosed(s.blocks, s.live[id]) && LiveAt(s.blocks, s.live[id]).id == id
  {
  }

  lemma CloseKeepsInv(s: State, id: nat)
    requires Inv(s) && id in s.live
    ensures Inv(ClosedIn(s, id))
  {
    hide PlainText, TotalOutput, WithLive, BlocksSound, IndexExact, AnyLiveAt, LiveAt;
    var at, t := s.live[id], ClosedIn(s, id);
    IndexedIsLive(s, id);
    WithLiveAt(s.blocks, at, LiveAt(s.blocks, at).(closed := true));
    WithLiveElsewhere(s.blocks, at, LiveAt(s.blocks, at).(closed := true));
    ClosedIndex(s, t, id, at);
    StillSound(s.blocks, t.blocks, at);
    if at.block < s.cursor {
      ElidedIsApart(s, at.block);
    }
    assert t.live.Keys <= s.live.Keys;
    Smaller(t.live.Keys, s.live.Keys);
    assert |t.live| == |t.live.Keys| && |s.live| == |s.live.Keys|;
  }

  lemma StillSound(blocks: seq<Block>, after: seq<Block>, at: LiveIndex)
    requires BlocksSound(blocks) && |after| == |blocks|
    requires forall b | 0 <= b < |blocks| :: after[b].command == blocks[b].command
    requires LivesBut(blocks, after, at) && AnyLiveAt(after, at)
    requires AnyLiveAt(blocks, at) && LiveAt(after, at) == LiveAt(blocks, at).(closed := true)
    ensures BlocksSound(after)
  {
    hide AnyLiveAt, LiveAt, JsonBytes;
  }

  lemma ClosedIndex(s: State, t: State, id: nat, at: LiveIndex)
    requires IndexExact(s) && id in s.live && s.live[id] == at && t.live == s.live - {id}
    requires LivesBut(s.blocks, t.blocks, at) && AnyLiveAt(t.blocks, at) && LiveAt(t.blocks, at).closed
    ensures IndexExact(t)
  {
    hide AnyLiveAt, LiveAt;
    forall other ensures Unclosed(t.blocks, other) <==> Unclosed(s.blocks, other) && other != at {
    }
  }

  /** Only the one segment of the one block is written. */
  lemma WithLiveElsewhere(blocks: seq<Block>, at: LiveIndex, live: LiveBlock)
    requires AnyLiveAt(blocks, at)
    ensures var after := WithLive(blocks, at, live);
      forall b | 0 <= b < |blocks| ::
        after[b].command == blocks[b].command && after[b].elided == blocks[b].elided
        && (b != at.block ==> after[b] == blocks[b])
  {
  }

  lemma CloseKeeps(s: State, id: nat)
    requires Inv(s)
    ensures StepKeeps(s, ClosedIn(s, id), "", 0, 0)
  {
    hide PlainText, TotalOutput, JsonBytes, Inv;
    InvShape(s);
    if id in s.live {
      IndexedIsLive(s, id);
      CloseKeepsInv(s, id);
      WithLiveAt(s.blocks, s.live[id], LiveAt(s.blocks, s.live[id]).(closed := true));
      NothingAdded(s, ClosedIn(s, id));
    } else {
      NothingAdded(s, s);
    }
  }

  // ------------------------------------------------------------------------
  // Every event
  // ------------------------------------------------------------------------

  lemma PrintKeeps(s: State, text: string)
    requires Inv(s)
    ensures StepKeeps(s, Printed(s, text), Appended(s, Print(text)), Counted(s, Print(text)), 0)
  {
    hide PlainText, TotalOutput, Inv, NoteGrowth, StepKeeps;
    InvShape(s);
    match s.phase
    case Input => PrintInput(s, text);
    case Output =>
      if s.activeLink.Some? {
        PrintLink(s, text, s.activeLink.value);
      } else {
        PrintText(s, text);
      }
    case Prompt => PromptPrintKeeps(s, text);
  }

  lemma StepLaws(s: State, e: Event)
    requires Inv(s)
    ensures StepKeeps(s, Step(s, e), Appended(s, e), Counted(s, e), OpenedBytes(s, e))
  {
    hide PlainText, TotalOutput, Inv, NoteGrowth, StepKeeps;
    InvShape(s);
    match e
    case Print(text) => PrintKeeps(s, text);
    case LineBreak =>
      if s.phase == Output {
        PrintText(s, "\n");
        assert Bytes("\n") == 1 by {
          assert Bytes("\n"[1..]) == 0;
        }
      } else {
        NothingAdded(s, s);
      }
    case PromptStart => PromptKeeps(s);
    case SetCwd(cwd) => MoveKeeps(s, cwd);
    case CommandEnd(code) => EndKeeps(s, code);
    case EmitBlock(bundle, id, trust) => EmitKeeps(s, bundle, id, trust);
    case OpenBlock(id, mime, spec) => OpenKeeps(s, id, mime, spec);
    case PatchBlock(id, patch) => PatchKeeps(s, id, patch);
    case CloseBlock(id) => CloseKeeps(s, id);
    case _ =>
      ElsewhereKeeps(s, Step(s, e));
      NothingAdded(s, Step(s, e));
  }

  lemma StepKeepsInv(s: State, e: Event)
    requires Inv(s)
    ensures Inv(Step(s, e))
  {
    hide Inv, Step;
    InvShape(s);
    StepLaws(s, e);
  }

  lemma PromptPrintKeeps(s: State, text: string)
    requires Inv(s)
    ensures StepKeeps(s, NoteGrowth(s, Bytes(text)), "", Bytes(text), 0)
  {
    assert PlainText(s.blocks) + "" == PlainText(s.blocks);
    ChangeThenNote(s, s, "", Bytes(text));
  }

  // ------------------------------------------------------------------------
  // Whole runs
  // ------------------------------------------------------------------------

  lemma InitialInv()
    ensures Inv(INITIAL)
  {
    assert forall at :: !AnyLiveAt(INITIAL.blocks, at);
  }

  lemma {:induction false} RunInTwo(s: State, a: seq<Event>, b: seq<Event>)
    requires Shape(s)
    ensures Run(s, a + b) == Run(Run(s, a), b)
    decreases |a|
  {
    hide Step;
    if a == [] {
      assert a + b == b;
    } else {
      assert (a + b)[1..] == a[1..] + b;
      RunInTwo(Step(s, a[0]), a[1..], b);
    }
  }

  lemma RunOfNone(s: State)
    requires Shape(s)
    ensures Run(s, []) == s
  {
  }

  lemma RunFirst(s: State, e: Event, rest: seq<Event>)
    requires Shape(s)
    ensures Run(s, [e] + rest) == Run(Step(s, e), rest)
  {
    hide Step;
    assert ([e] + rest)[1..] == rest;
  }

  lemma RunOfOne(s: State, e: Event)
    requires Shape(s)
    ensures Run(s, [e]) == Step(s, e)
  {
    hide Step;
    assert [e][1..] == [];
  }

  lemma {:induction false} RunKeepsInv(s: State, events: seq<Event>)
    requires Inv(s)
    ensures Inv(Run(s, events))
    decreases |events|
  {
    if events != [] {
      StepLaws(s, events[0]);
      RunKeepsInv(Step(s, events[0]), events[1..]);
    }
  }

  /** In every reachable state the index is exactly the unclosed live segments, of which there are at most the cap. */
  lemma IndexAlwaysExact(events: seq<Event>)
    ensures IndexExact(Run(INITIAL, events)) && |Run(INITIAL, events).live| <= MAX_OPEN_LIVE_BLOCKS
  {
    InitialInv();
    RunKeepsInv(INITIAL, events);
  }

  /** All the plain text a run appends. */
  function AppendedBy(s: State, events: seq<Event>): string
    requires Shape(s)
    decreases |events|
  {
    if events == [] then "" else Appended(s, events[0]) + AppendedBy(Step(s, events[0]), events[1..])
  }

  lemma SuffixOfItself(text: string)
    ensures IsSuffix(text, text)
  {
  }

  /** What the scrollback holds is the end of what was appended: nothing lost from the middle, nothing reordered. */
  lemma {:induction false} TextIsSuffix(s: State, events: seq<Event>)
    requires Inv(s)
    ensures IsSuffix(PlainText(Run(s, events).blocks), PlainText(s.blocks) + AppendedBy(s, events))
    decreases |events|
  {
    hide PlainText, Inv, Step, IsSuffix, TotalOutput, Appended;
    InvShape(s);
    if events == [] {
      SuffixOfItself(PlainText(s.blocks));
      assert PlainText(s.blocks) + "" == PlainText(s.blocks);
    } else {
      var e, rest := events[0], events[1..];
      var next := Step(s, e);
      StepLaws(s, e);
      TextIsSuffix(next, rest);
      var later := AppendedBy(next, rest);
      SuffixOfConcat(PlainText(next.blocks), PlainText(s.blocks) + Appended(s, e), later);
      SuffixTransitive(PlainText(Run(s, events).blocks), PlainText(next.blocks) + later,
                       PlainText(s.blocks) + Appended(s, e) + later);
      assert PlainText(s.blocks) + Appended(s, e) + later == PlainText(s.blocks) + (Appended(s, e) + later);
    }
  }

  /** The bytes of live specs opened since the last check. */
  function OpenedSince(s: State, events: seq<Event>, before: nat): nat
    requires Shape(s)
    decreases |events|
  {
    if events == [] then before
    else
      OpenedSince(Step(s, events[0]), events[1..],
                  if Checks(s, events[0]) then 0 else before + OpenedBytes(s, events[0]))
  }

  /** At every moment the output is within the budget, but for what was counted and what was opened since the last
      check; what was counted is always less than the interval. */
  lemma {:induction false} OutputBounded(s: State, events: seq<Event>, before: nat)
    requires Inv(s) && TotalOutput(s.blocks) <= MAX_RETAINED_OUTPUT_BYTES + s.since + before
    ensures var t := Run(s, events);
      && TotalOutput(t.blocks) <= MAX_RETAINED_OUTPUT_BYTES + t.since + OpenedSince(s, events, before)
      && t.since < BUDGET_CHECK_INTERVAL_BYTES
    decreases |events|
  {
    hide TotalOutput, Inv, Step, PlainText, Counted, OpenedBytes;
    InvShape(s);
    if events != [] {
      StepLaws(s, events[0]);
      OutputBounded(Step(s, events[0]), events[1..],
                    if Checks(s, events[0]) then 0 else before + OpenedBytes(s, events[0]));
    }
  }

  // ------------------------------------------------------------------------
  // Elided for good
  // ------------------------------------------------------------------------

  lemma NotedKeepsElided(s: State, bytes: nat, i: nat)
    requires Inv(s) && i < s.cursor
    ensures var t := NoteGrowth(s, bytes); i < t.cursor && t.blocks[i] == s.blocks[i]
  {
    var reset := s.(since := 0);
    SameLivesKeepIndex(s, reset);
    EnforcedOldestFirst(reset);
  }

  lemma OutputKeepsElided(s: State, output: seq<Segment>, bytes: nat, i: nat)
    requires Inv(s) && i < s.cursor
    requires SameLiveSegments(Current(s.blocks).output, output)
    ensures Inv(WithOutput(s, output))
    ensures var t := NoteGrowth(WithOutput(s, output), bytes); i < t.cursor && t.blocks[i] == s.blocks[i]
  {
    CurrentNotElided(s);
    CurrentRewritten(s, Current(s.blocks).(output := output));
    NotedKeepsElided(WithOutput(s, output), bytes, i);
  }

  lemma PrintKeepsElided(s: State, text: string, i: nat)
    requires Inv(s) && i < s.cursor
    ensures var t := Printed(s, text); i < t.cursor && t.blocks[i] == s.blocks[i]
  {
    hide Inv, NoteGrowth, SameLiveSegments;
    InvShape(s);
    var current := Current(s.blocks);
    match s.phase
    case Input =>
      CurrentNotElided(s);
      BytesOfConcat(current.command, Taken(s, text));
      var block := current.(command := current.command + Taken(s, text));
      assert SameLiveSegments(current.output, block.output) by { SameLivesReflexive(current.output); }
      CurrentRewritten(s, block);
      NotedKeepsElided(s.(blocks := WithCurrent(s.blocks, block)), Bytes(Taken(s, text)), i);
    case Output =>
      if s.activeLink.Some? {
        var url := s.activeLink.value;
        var linked := WithOutput(s, WithLink(current.output, text, url));
        LinkKeepsLives(current.output, text, url);
        OutputKeepsElided(s, WithLink(current.output, text, url), Bytes(url), i);
        NoteGrowthLaws(linked, Bytes(url));
        NotedKeepsElided(NoteGrowth(linked, Bytes(url)), Bytes(text), i);
      } else {
        TextKeepsLives(current.output, text);
        OutputKeepsElided(s, WithText(current.output, text), Bytes(text), i);
      }
    case Prompt => NotedKeepsElided(s, Bytes(text), i);
  }

  lemma SameLivesReflexive(output: seq<Segment>)
    ensures SameLiveSegments(output, output)
  {
  }

  /** An elided block is never the current one, and no live block is left in it. */
  lemma ElidedIsApart(s: State, i: nat)
    requires Inv(s) && i < s.cursor
    ensures s.blocks[i].elided && s.blocks[i].output == [] && i < |s.blocks| - 1
    ensures forall id | id in s.live :: s.live[id].block != i
  {
    forall id | id in s.live ensures s.live[id].block != i {
      IndexedIsLive(s, id);
    }
  }

  /** One step leaves an elided block as it is. */
  lemma StepKeepsElided(s: State, e: Event, i: nat)
    requires Inv(s) && i < s.cursor
    ensures var t := Step(s, e); i < t.cursor && t.blocks[i] == s.blocks[i]
  {
    hide Inv, NoteGrowth, Folded, SameLiveSegments, BundleBytes;
    InvShape(s);
    ElidedIsApart(s, i);
    var output := Current(s.blocks).output;
    match e
    case Print(text) => PrintKeepsElided(s, text, i);
    case LineBreak =>
      TextKeepsLives(output, "\n");
      OutputKeepsElided(s, WithText(output, "\n"), 1, i);
    case EmitBlock(bundle, id, trust) =>
      ContentKeepsLives(output, Content(bundle, id, trust));
      OutputKeepsElided(s, output + [Content(bundle, id, trust)], BundleBytes(bundle), i);
    case PatchBlock(id, patch) => PatchKeepsElided(s, id, patch, i);
    case _ =>
  }

  lemma ContentKeepsLives(output: seq<Segment>, content: Segment)
    requires content.Content?
    ensures SameLiveSegments(output, output + [content])
  {
  }

  lemma PatchKeepsElided(s: State, id: nat, patch: Value, i: nat)
    requires Inv(s) && i < s.cursor
    ensures var t := PatchedIn(s, id, patch); i < t.cursor && t.blocks[i] == s.blocks[i]
  {
    hide Inv, NoteGrowth, JsonBytes;
    InvShape(s);
    if id in s.live {
      ElidedIsApart(s, i);
      IndexedIsLive(s, id);
      var after := Folded(LiveAt(s.blocks, s.live[id]), patch);
      PatchKeepsInv(s, id, after);
      NotedKeepsElided(s.(blocks := WithLive(s.blocks, s.live[id], after)), Grew(s, id, patch), i);
    }
  }

  /** An elided block stays at its index, empty, under the same command line, for the rest of the session. */
  lemma {:induction false} ElidedForGood(s: State, events: seq<Event>, i: nat)
    requires Inv(s) && i < s.cursor
    ensures var t := Run(s, events);
      i < t.cursor && t.blocks[i] == s.blocks[i] && t.blocks[i].elided && t.blocks[i].output == []
    decreases |events|
  {
    hide Inv, Step;
    InvShape(s);
    ElidedIsApart(s, i);
    if events != [] {
      StepLaws(s, events[0]);
      StepKeepsElided(s, events[0], i);
      ElidedForGood(Step(s, events[0]), events[1..], i);
    }
  }

  // ------------------------------------------------------------------------
  // The index against a scan
  // ------------------------------------------------------------------------

  /** Every unclosed live segment under `id` rewritten by `f`, found by walking the whole block list. */
  function Scanned(blocks: seq<Block>, id: nat, f: LiveBlock -> LiveBlock): (scanned: seq<Block>)
    ensures |scanned| == |blocks|
  {
    seq(|blocks|, b requires 0 <= b < |blocks| => blocks[b].(output := ScannedOutput(blocks[b].output, id, f)))
  }

  function ScannedOutput(output: seq<Segment>, id: nat, f: LiveBlock -> LiveBlock): (scanned: seq<Segment>)
    ensures |scanned| == |output|
  {
    seq(|output|, i requires 0 <= i < |output| =>
      if output[i].Live? && !output[i].live.closed && output[i].live.id == id then Live(f(output[i].live))
      else output[i])
  }

  /** Reaching a live block through the index does exactly what a scan of every segment would. */
  lemma IndexIsScan(s: State, id: nat, f: LiveBlock -> LiveBlock)
    requires Inv(s)
    ensures Scanned(s.blocks, id, f) ==
      if id in s.live then WithLive(s.blocks, s.live[id], f(LiveAt(s.blocks, s.live[id]))) else s.blocks
  {
    hide JsonBytes;
    var direct :=
      if id in s.live then WithLive(s.blocks, s.live[id], f(LiveAt(s.blocks, s.live[id]))) else s.blocks;
    forall b | 0 <= b < |s.blocks| ensures Scanned(s.blocks, id, f)[b] == direct[b] {
      var output := s.blocks[b].output;
      forall i | 0 <= i < |output| ensures ScannedOutput(output, id, f)[i] == direct[b].output[i] {
        var at := LiveIndex(b, i);
        if output[i].Live? && !output[i].live.closed && output[i].live.id == id {
          assert Unclosed(s.blocks, at);
        } else if id in s.live {
          assert s.live[id] != at;
        }
      }
      assert ScannedOutput(output, id, f) == direct[b].output;
    }
  }

  lemma PatchIsScan(s: State, id: nat, patch: Value)
    requires Inv(s)
    ensures Step(s, PatchBlock(id, patch))
      == if id in s.live
         then NoteGrowth(s.(blocks := Scanned(s.blocks, id, live => Folded(live, patch))), Grew(s, id, patch)) else s
    ensures id !in s.live ==> Scanned(s.blocks, id, live => Folded(live, patch)) == s.blocks
  {
    hide NoteGrowth, Scanned, Inv, JsonBytes;
    InvShape(s);
    var f := (live: LiveBlock) => Folded(live, patch);
    IndexIsScan(s, id, f);
    if id in s.live {
      IndexedIsLive(s, id);
    }
  }

  lemma CloseIsScan(s: State, id: nat)
    requires Inv(s)
    ensures Step(s, CloseBlock(id))
      == s.(blocks := Scanned(s.blocks, id, (live: LiveBlock) => live.(closed := true)), live := s.live - {id})
  {
    hide Scanned, Inv, JsonBytes;
    InvShape(s);
    var f := (live: LiveBlock) => live.(closed := true);
    IndexIsScan(s, id, f);
    if id in s.live {
      IndexedIsLive(s, id);
    } else {
      assert s.live - {id} == s.live;
    }
  }
}

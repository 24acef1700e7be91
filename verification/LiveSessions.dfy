/** A client's updates in the scrollback they arrive in, among everything else that happens there. */
module LiveSessions {
  import opened Text
  import opened Json
  import opened Messages
  import opened Blocks
  import opened Retention
  import opened RetentionLaws
  import opened RetentionRuns
  import opened Counting
  import opened Characters
  import P = Patch
  import Diff
  import LiveClient

  // ------------------------------------------------------------------------
  // One live block through enforcement
  // ------------------------------------------------------------------------

  /** What is known of one live block: if it is indexed, then at `at`; if a live segment is there, it is this one; and
      it is there unless it is lost, which takes a check. */
  ghost predicate Follows(t: State, id: nat, at: LiveIndex, live: LiveBlock, checked: bool) {
    && Shape(t)
    && (id in t.live ==> t.live[id] == at)
    && (AnyLiveAt(t.blocks, at) ==> LiveAt(t.blocks, at) == live)
    && (t.cursor <= at.block && at.block + 1 < |t.blocks| ==> AnyLiveAt(t.blocks, at))
    && (!checked ==> AnyLiveAt(t.blocks, at))
  }

  lemma {:induction false} EvictedFollows(s: State, retained: nat, id: nat, at: LiveIndex, live: LiveBlock)
    requires Follows(s, id, at, live, true) && Retained(s.blocks[s.cursor..]) <= retained
    ensures Follows(Evicted(s, retained).0, id, at, live, true)
    decreases |s.blocks| - s.cursor
  {
    hide Retained, RetainedBytes;
    if retained > MAX_RETAINED_OUTPUT_BYTES && s.cursor + 1 < |s.blocks| {
      RetainedFrom(s.blocks, s.cursor);
      var block := s.blocks[s.cursor];
      if block.elided {
        EvictedFollows(s.(cursor := s.cursor + 1), retained, id, at, live);
      } else {
        var next := ElideAt(s, s.cursor);
        assert next.blocks[s.cursor + 1..] == s.blocks[s.cursor + 1..];
        EvictedFollows(next, retained - RetainedBytes(block), id, at, live);
      }
    }
  }

  lemma TrimFollows(s: State, id: nat, at: LiveIndex, live: LiveBlock)
    requires Follows(s, id, at, live, true)
    ensures Follows(TrimCurrent(s), id, at, live, true)
  {
    hide Trimmed, RetainedBytes;
    var t := TrimCurrent(s);
    assert forall i | 0 <= i < |s.blocks| - 1 :: t.blocks[i] == s.blocks[i];
    if AnyLiveAt(t.blocks, at) {
      TrimmedLiveAt(s, at);
    }
  }

  lemma NotedFollows(s: State, bytes: nat, id: nat, at: LiveIndex, live: LiveBlock, checked: bool)
    requires Follows(s, id, at, live, checked)
    requires !checked ==> s.since + bytes < BUDGET_CHECK_INTERVAL_BYTES
    ensures Follows(NoteGrowth(s, bytes), id, at, live, checked)
  {
    hide Evicted, TrimCurrent, Retained;
    if s.since + bytes >= BUDGET_CHECK_INTERVAL_BYTES {
      var reset := s.(since := 0);
      var retained := Retained(reset.blocks);
      if retained > MAX_RETAINED_OUTPUT_BYTES {
        RetainedSuffix(reset.blocks, reset.cursor);
        EvictedFollows(reset, retained, id, at, live);
        TrimFollows(Evicted(reset, retained).0, id, at, live);
      }
    }
  }

  // ------------------------------------------------------------------------
  // What a check loses
  // ------------------------------------------------------------------------

  /** Whether the url and the text of linked text each set off a check of their own. */
  predicate ChecksTwice(s: State, e: Event) {
    && Linked(s, e)
    && s.since + Bytes(s.activeLink.value) >= BUDGET_CHECK_INTERVAL_BYTES
    && Bytes(e.text) >= BUDGET_CHECK_INTERVAL_BYTES
  }

  /** Whether an event loses the live segment at `at`: it makes the budget be checked, and what it has written then is
      too much for the segment to stay. */
  predicate Goes(s: State, e: Event, at: LiveIndex)
    requires Shape(s)
  {
    var written := Changed(s, e).(since := 0);
    Checks(s, e) && (Loses(written, at) || (ChecksTwice(s, e) && Loses(Enforced(written), at)))
  }

  lemma CheckedBlocks(s: State, e: Event)
    requires Inv(s) && Checks(s, e)
    ensures Grows(e)
    ensures var written := Changed(s, e).(since := 0);
      && Inv(written) && Inv(Enforced(written))
      && Step(s, e).blocks == if ChecksTwice(s, e) then Enforced(Enforced(written)).blocks else Enforced(written).blocks
  {
    hide Inv, Changed, Enforced, Step, BundleBytes, Grew, Taken, Bytes;
    InvShape(s);
    if Grows(e) {
      StepNotes(s, e);
      ChangedInv(s, e);
      var written := Changed(s, e).(since := 0);
      ResetSound(Changed(s, e));
      EnforcedKeepsInv(written);
      assert Enforced(written).(since := 0) == Enforced(written);
    }
  }

  // ------------------------------------------------------------------------
  // One live block through an event
  // ------------------------------------------------------------------------

  /** What an event makes of a live block: a patch under its id is folded in, and nothing else touches it. */
  function Next(live: LiveBlock, id: nat, e: Event): LiveBlock {
    if e.PatchBlock? && e.id == id then Folded(live, e.patch) else live
  }

  lemma CurrentFollows(s: State, block: Block, id: nat, at: LiveIndex, live: LiveBlock, checked: bool)
    requires Follows(s, id, at, live, checked) && SameLiveSegments(Current(s.blocks).output, block.output)
    ensures Follows(s.(blocks := WithCurrent(s.blocks, block)), id, at, live, checked)
  {
    var after := WithCurrent(s.blocks, block);
    assert forall i | 0 <= i < |s.blocks| - 1 :: after[i] == s.blocks[i];
    if at.block + 1 == |s.blocks| {
      assert SameLiveSegments(s.blocks[at.block].output, after[at.block].output);
    }
  }

  lemma FollowsShape(s: State, id: nat, at: LiveIndex, live: LiveBlock, checked: bool)
    requires Follows(s, id, at, live, checked)
    ensures Shape(s)
  {
  }

  lemma FollowsAnyhow(s: State, id: nat, at: LiveIndex, live: LiveBlock, checked: bool)
    requires Follows(s, id, at, live, false)
    ensures Follows(s, id, at, live, checked)
  {
  }

  /** Growth short of a check is only counted. */
  lemma NotQuite(s: State, bytes: nat)
    requires Shape(s)
    ensures s.since + bytes < BUDGET_CHECK_INTERVAL_BYTES ==> NoteGrowth(s, bytes).since == s.since + bytes
  {
  }

  lemma PromptFollows(s: State, id: nat, at: LiveIndex, live: LiveBlock)
    requires Follows(s, id, at, live, false)
    ensures Follows(Prompted(s), id, at, live, false)
  {
  }

  /** Another live block, at another place, written over or opened. */
  lemma ElsewhereFollows(s: State, t: State, other: LiveIndex, id: nat, at: LiveIndex, live: LiveBlock)
    requires Follows(s, id, at, live, false) && other != at
    requires t.cursor == s.cursor && |t.blocks| == |s.blocks| && LivesBut(s.blocks, t.blocks, other)
    requires id in t.live ==> id in s.live && t.live[id] == s.live[id]
    ensures Follows(t, id, at, live, false)
  {
  }

  lemma OpenFollows(s: State, other: nat, mime: string, spec: Value, id: nat, at: LiveIndex, live: LiveBlock)
    requires Inv(s) && Follows(s, id, at, live, false) && id in s.live
    ensures Follows(OpenedIn(s, other, mime, spec), id, at, live, false)
  {
    hide Inv, Follows, Opened, LivesBut;
    FollowsShape(s, id, at, live, false);
    if other !in s.live && |s.live| < MAX_OPEN_LIVE_BLOCKS {
      OpenAt(s, other, mime, spec);
      FollowsThere(s, id, at, live);
      var there := LiveIndex(|s.blocks| - 1, |Current(s.blocks).output|);
      ElsewhereFollows(s, OpenedIn(s, other, mime, spec), there, id, at, live);
    }
  }

  lemma FollowsThere(s: State, id: nat, at: LiveIndex, live: LiveBlock)
    requires Follows(s, id, at, live, false)
    ensures AnyLiveAt(s.blocks, at) && LiveAt(s.blocks, at) == live
    ensures id in s.live ==> s.live[id] == at
  {
  }

  lemma PatchFollows(s: State, other: nat, patch: Value, id: nat, at: LiveIndex, live: LiveBlock)
    requires Inv(s) && Follows(s, id, at, live, false) && id in s.live && other in s.live
    ensures Follows(Changed(s, PatchBlock(other, patch)), id, at, Next(live, id, PatchBlock(other, patch)), false)
  {
    hide Inv, NoteGrowth, JsonBytes, P.Patched;
    InvShape(s);
    IndexedIsLive(s, other);
    IndexedIsLive(s, id);
    var there := s.live[other];
    var after := Folded(LiveAt(s.blocks, there), patch);
    var written := Changed(s, PatchBlock(other, patch));
    WithLiveAt(s.blocks, there, after);
    if other == id {
      assert Follows(written, id, at, after, false);
    } else {
      ElsewhereFollows(s, written, there, id, at, live);
    }
  }

  lemma ChangedFollows(s: State, e: Event, id: nat, at: LiveIndex, live: LiveBlock)
    requires Inv(s) && Follows(s, id, at, live, false) && id in s.live
    ensures Follows(Changed(s, e), id, at, Next(live, id, e), false)
  {
    hide Inv, Follows, SameLiveSegments, Written, P.Patched, Next, JsonBytes;
    InvShape(s);
    NextOther(live, id, e);
    if e.PatchBlock? && e.id in s.live {
      PatchFollows(s, e.id, e.patch, id, at, live);
    } else {
      WrittenSound(s, e);
      CurrentFollows(s, Written(s, e), id, at, live, false);
    }
  }

  lemma NextOther(live: LiveBlock, id: nat, e: Event)
    ensures !(e.PatchBlock? && e.id == id) ==> Next(live, id, e) == live
  {
  }

  /** An event's growth, counted in one part or two, either of which may set off a check. */
  lemma GrowthFollows(s: State, e: Event, id: nat, at: LiveIndex, live: LiveBlock)
    requires Inv(s) && Follows(s, id, at, live, false) && id in s.live && Grows(e)
    ensures Follows(Step(s, e), id, at, Next(live, id, e), Checks(s, e))
  {
    hide Inv, Follows, Changed, NoteGrowth, Next, Step, Bytes, BundleBytes, Grew, Taken;
    InvShape(s);
    StepNotes(s, e);
    ChangedInv(s, e);
    InvShape(Changed(s, e));
    ChangedFollows(s, e, id, at, live);
    var after, checked := Next(live, id, e), Checks(s, e);
    FollowsAnyhow(Changed(s, e), id, at, after, checked);
    if Linked(s, e) {
      var url := Bytes(s.activeLink.value);
      NotedFollows(Changed(s, e), url, id, at, after, checked);
      NotQuite(Changed(s, e), url);
      NotedFollows(NoteGrowth(Changed(s, e), url), Bytes(e.text), id, at, after, checked);
    } else {
      NotedFollows(Changed(s, e), Counted(s, e), id, at, after, checked);
    }
  }

  lemma CloseFollows(s: State, other: nat, id: nat, at: LiveIndex, live: LiveBlock)
    requires Inv(s) && Follows(s, id, at, live, false) && id in s.live && other != id
    ensures Follows(ClosedIn(s, other), id, at, live, false)
  {
    hide Inv, JsonBytes;
    InvShape(s);
    if other in s.live {
      IndexedIsLive(s, other);
      IndexedIsLive(s, id);
      var there := s.live[other];
      WithLiveAt(s.blocks, there, LiveAt(s.blocks, there).(closed := true));
      ElsewhereFollows(s, ClosedIn(s, other), there, id, at, live);
    }
  }

  lemma StepFollows(s: State, e: Event, id: nat)
    requires Inv(s) && id in s.live && e != CloseBlock(id)
    ensures AnyLiveAt(s.blocks, s.live[id])
    ensures Follows(Step(s, e), id, s.live[id], Next(LiveAt(s.blocks, s.live[id]), id, e), Checks(s, e))
  {
    hide Inv, NoteGrowth, SameLiveSegments, BundleBytes, P.Patched;
    InvShape(s);
    IndexedIsLive(s, id);
    var at, live, checked := s.live[id], LiveAt(s.blocks, s.live[id]), Checks(s, e);
    assert Follows(s, id, at, live, false);
    hide Follows;
    if Grows(e) {
      GrowthFollows(s, e, id, at, live);
    } else {
      OtherFollows(s, e, id, at, live);
      NextOther(live, id, e);
      FollowsAnyhow(Step(s, e), id, at, live, checked);
    }
  }

  /** The events that count nothing. */
  lemma OtherFollows(s: State, e: Event, id: nat, at: LiveIndex, live: LiveBlock)
    requires Inv(s) && Follows(s, id, at, live, false) && id in s.live && !Grows(e) && e != CloseBlock(id)
    ensures Follows(Step(s, e), id, at, live, false)
  {
    hide Inv, Follows, SameLiveSegments;
    InvShape(s);
    var output := Current(s.blocks).output;
    SameLivesReflexive(output);
    match e
    case PromptStart =>
      PromptFollows(s, id, at, live);
    case CommandEnd(code) =>
      CurrentFollows(s, Current(s.blocks).(exitCode := code), id, at, live, false);
      SameButMarks(s.(blocks := WithCurrent(s.blocks, Current(s.blocks).(exitCode := code))), Step(s, e), id, at, live,
        false);
    case SetCwd(cwd) =>
      CurrentFollows(s, Current(s.blocks).(cwd := Some(cwd)), id, at, live, false);
      SameButMarks(s.(blocks := Step(s, e).blocks), Step(s, e), id, at, live, false);
    case OpenBlock(other, mime, spec) => OpenFollows(s, other, mime, spec, id, at, live);
    case CloseBlock(other) => CloseFollows(s, other, id, at, live);
    case CommandStart => SameButMarks(s, Step(s, e), id, at, live, false);
    case OutputStart => SameButMarks(s, Step(s, e), id, at, live, false);
    case SetCwdHost(host) => SameButMarks(s, Step(s, e), id, at, live, false);
    case SetLink(url) => SameButMarks(s, Step(s, e), id, at, live, false);
  }

  /** Fields that say nothing of live blocks. */
  lemma SameButMarks(s: State, t: State, id: nat, at: LiveIndex, live: LiveBlock, checked: bool)
    requires Follows(s, id, at, live, checked)
    requires t.blocks == s.blocks && t.live == s.live && t.cursor == s.cursor
    ensures Follows(t, id, at, live, checked)
  {
  }

  lemma LosesLives(s: State, e: Event, at: LiveIndex)
    requires Inv(s) && AnyLiveAt(s.blocks, at)
    requires Checks(s, e) && AnyLiveAt(Changed(s, e).blocks, at)
    ensures AnyLiveAt(Step(s, e).blocks, at) <==> !Goes(s, e, at)
  {
    hide Inv, Changed, Enforced, Step, Checks, Loses, ChecksTwice, AnyLiveAt;
    InvShape(s);
    CheckedBlocks(s, e);
    var written := Changed(s, e).(since := 0);
    SameAny(written, Changed(s, e), at);
    EnforcedLosesIff(written, at);
    if AnyLiveAt(Enforced(written).blocks, at) {
      EnforcedLosesIff(Enforced(written), at);
    } else {
      LosesOnlyLives(Enforced(written), at);
      if AnyLiveAt(Enforced(Enforced(written)).blocks, at) {
        EnforcedAddsNoLive(Enforced(written), at);
      }
    }
  }

  lemma SameAny(s: State, t: State, at: LiveIndex)
    requires s.blocks == t.blocks
    ensures AnyLiveAt(s.blocks, at) <==> AnyLiveAt(t.blocks, at)
  {
  }

  lemma LosesOnlyLives(s: State, at: LiveIndex)
    requires Shape(s)
    ensures Loses(s, at) ==> AnyLiveAt(s.blocks, at)
  {
  }

  /** A live block leaves the index exactly when it is closed, or when the event sets off a check in which what is
      retained before it and around it is too much: eliding its block, or cutting the current one past it. Until then
      only patches under its own id change it. */
  lemma LeavesIff(s: State, e: Event, id: nat)
    requires Inv(s) && id in s.live
    ensures AnyLiveAt(s.blocks, s.live[id])
    ensures var t, at := Step(s, e), s.live[id];
      && (id !in t.live <==> e == CloseBlock(id) || Goes(s, e, at))
      && (id in t.live ==>
            t.live[id] == at && AnyLiveAt(t.blocks, at) && LiveAt(t.blocks, at) == Next(LiveAt(s.blocks, at), id, e))
  {
    hide Step, Next, P.Patched, BlocksSound, Checks, Changed, Goes;
    InvShape(s);
    IndexedIsLive(s, id);
    StepKeepsInv(s, e);
    var at := s.live[id];
    if e == CloseBlock(id) {
      ClosedLeaves(s, id);
    } else {
      StepFollows(s, e, id);
      NextKeepsId(LiveAt(s.blocks, at), id, e);
      if Checks(s, e) {
        ChangedFollows(s, e, id, at, LiveAt(s.blocks, at));
        LosesLives(s, e, at);
      } else {
        GoesOnlyAtChecks(s, e, at);
      }
    }
  }

  lemma GoesOnlyAtChecks(s: State, e: Event, at: LiveIndex)
    requires Shape(s)
    ensures Goes(s, e, at) ==> Checks(s, e)
  {
  }

  lemma ClosedLeaves(s: State, id: nat)
    requires Shape(s)
    ensures id !in Step(s, CloseBlock(id)).live
  {
  }

  lemma NextKeepsId(live: LiveBlock, id: nat, e: Event)
    ensures Next(live, id, e).id == live.id && Next(live, id, e).closed == live.closed
  {
  }

  // ------------------------------------------------------------------------
  // Whole sessions
  // ------------------------------------------------------------------------

  /** One turn of a session: an update of this block, or anything else that reaches the terminal. */
  datatype Turn = Whole(v: Value) | Minimal(v: Value) | Other(e: Event)

  /** Whether an event opens, patches or closes the block of this id. */
  predicate Touches(e: Event, id: nat) {
    match e
    case OpenBlock(at, _, _) => at == id
    case PatchBlock(at, _) => at == id
    case CloseBlock(at) => at == id
    case _ => false
  }

  /** What the terminal makes of a message the client writes. */
  function Arrived(message: Message): seq<Event> {
    match message
    case Caps => []
    case Close(id) => [CloseBlock(id)]
    case Emit(bundle, id, trust) => [EmitBlock(bundle, id, trust)]
    case Open(id, mime, spec) => [OpenBlock(id, mime, spec)]
    case Patch(id, patch) => [PatchBlock(id, patch)]
  }

  function AllArrived(stream: seq<LiveClient.Sent>): seq<Event>
    requires forall sent | sent in stream :: sent.Frame?
  {
    if stream == [] then [] else Arrived(stream[0].message) + AllArrived(stream[1..])
  }

  /** The events of one turn, the client diffing the value against the last it sent. */
  function TurnEvents(id: nat, last: Value, turn: Turn): seq<Event> {
    match turn
    case Whole(v) => Arrived(LiveClient.WholeUpdate(id, v))
    case Minimal(v) => AllArrived(LiveClient.MinimalUpdate(id, last, v))
    case Other(e) => [e]
  }

  function TurnValue(last: Value, turn: Turn): Value {
    if turn.Other? then last else turn.v
  }

  function Session(id: nat, last: Value, turns: seq<Turn>): seq<Event>
    decreases |turns|
  {
    if turns == [] then []
    else TurnEvents(id, last, turns[0]) + Session(id, TurnValue(last, turns[0]), turns[1..])
  }

  function LastValue(last: Value, turns: seq<Turn>): Value
    decreases |turns|
  {
    if turns == [] then last else LastValue(TurnValue(last, turns[0]), turns[1..])
  }

  /** Whether no event of a run loses the segment at `at`, each judged by the state it meets. */
  predicate Kept(s: State, events: seq<Event>, at: LiveIndex)
    requires Shape(s)
    decreases |events|
  {
    events == [] || (!Goes(s, events[0], at) && Kept(Step(s, events[0]), events[1..], at))
  }

  /** Whether the terminal holds this value for the block, if it still holds the block. */
  ghost predicate ShowsIfKept(s: State, id: nat, at: LiveIndex, v: Value) {
    && Inv(s)
    && (id in s.live ==> s.live[id] == at && AnyLiveAt(s.blocks, at) && LiveAt(s.blocks, at).current == v)
  }

  lemma AbsentStays(s: State, e: Event, id: nat)
    requires Shape(s) && id !in s.live && !(e.OpenBlock? && e.id == id)
    ensures id !in Step(s, e).live
  {
    hide Enforced, Folded, BundleBytes;
    if e.Print? || e.LineBreak? || e.EmitBlock? || e.PatchBlock? {
      StepKeys(s, e);
    }
  }

  lemma {:induction false} EvictedKeys(s: State, retained: nat)
    requires Shape(s) && Retained(s.blocks[s.cursor..]) <= retained
    ensures Evicted(s, retained).0.live.Keys <= s.live.Keys
    decreases |s.blocks| - s.cursor
  {
    hide Retained, RetainedBytes;
    if retained > MAX_RETAINED_OUTPUT_BYTES && s.cursor + 1 < |s.blocks| {
      RetainedFrom(s.blocks, s.cursor);
      var block := s.blocks[s.cursor];
      if block.elided {
        EvictedKeys(s.(cursor := s.cursor + 1), retained);
      } else {
        var next := ElideAt(s, s.cursor);
        assert next.blocks[s.cursor + 1..] == s.blocks[s.cursor + 1..];
        EvictedKeys(next, retained - RetainedBytes(block));
      }
    }
  }

  lemma NotedKeys(s: State, bytes: nat)
    requires Shape(s)
    ensures NoteGrowth(s, bytes).live.Keys <= s.live.Keys
  {
    hide Evicted, Retained, Trimmed, RetainedBytes;
    var reset := s.(since := 0);
    var retained := Retained(reset.blocks);
    RetainedSuffix(reset.blocks, reset.cursor);
    EvictedKeys(reset, retained);
  }

  /** An event that opens nothing adds no id. */
  lemma StepKeys(s: State, e: Event)
    requires Shape(s) && (e.Print? || e.LineBreak? || e.EmitBlock? || e.PatchBlock?)
    ensures Step(s, e).live.Keys <= s.live.Keys
  {
    hide NoteGrowth, Folded, BundleBytes;
    var output := Current(s.blocks).output;
    match e
    case Print(text) =>
      var block := Current(s.blocks).(command := Current(s.blocks).command + Taken(s, text));
      NotedKeys(s.(blocks := WithCurrent(s.blocks, block)), Bytes(Taken(s, text)));
      if s.activeLink.Some? {
        var linked := WithOutput(s, WithLink(output, text, s.activeLink.value));
        NotedKeys(linked, Bytes(s.activeLink.value));
        NotedKeys(NoteGrowth(linked, Bytes(s.activeLink.value)), Bytes(text));
      }
      NotedKeys(WithOutput(s, WithText(output, text)), Bytes(text));
      NotedKeys(s, Bytes(text));
    case LineBreak => NotedKeys(WithOutput(s, WithText(output, "\n")), 1);
    case EmitBlock(bundle, id, trust) =>
      NotedKeys(WithOutput(s, output + [Content(bundle, id, trust)]), BundleBytes(bundle));
    case PatchBlock(id, patch) =>
      if id in s.live && AnyLiveAt(s.blocks, s.live[id]) {
        var after := Folded(LiveAt(s.blocks, s.live[id]), patch);
        var before := LiveAt(s.blocks, s.live[id]);
        NotedKeys(s.(blocks := WithLive(s.blocks, s.live[id], after)),
                  if after.currentBytes < before.currentBytes then 0 else after.currentBytes - before.currentBytes);
      }
  }

  lemma {:induction false} AbsentForGood(s: State, events: seq<Event>, id: nat)
    requires Shape(s) && id !in s.live && forall e | e in events :: !(e.OpenBlock? && e.id == id)
    ensures id !in Run(s, events).live
    decreases |events|
  {
    hide Step;
    if events != [] {
      assert events[0] in events;
      AbsentStays(s, events[0], id);
      assert forall e | e in events[1..] :: e in events;
      AbsentForGood(Step(s, events[0]), events[1..], id);
    }
  }

  lemma {:induction false} KeptInTwo(s: State, a: seq<Event>, b: seq<Event>, at: LiveIndex)
    requires Shape(s)
    ensures Kept(s, a + b, at) <==> Kept(s, a, at) && Kept(Run(s, a), b, at)
    decreases |a|
  {
    hide Step, Goes;
    if a == [] {
      assert a + b == b;
    } else {
      assert (a + b)[1..] == a[1..] + b;
      KeptInTwo(Step(s, a[0]), a[1..], b, at);
    }
  }

  lemma KeptOne(s: State, e: Event, at: LiveIndex)
    requires Shape(s)
    ensures Kept(s, [e], at) <==> !Goes(s, e, at)
  {
    hide Step, Goes;
    assert [e][1..] == [];
  }

  /** The client's updates as the terminal folds them: each leaves the value it was given. */
  lemma UpdateLands(live: LiveBlock, id: nat, last: Value, v: Value)
    requires live.current == last
    ensures Next(live, id, PatchBlock(id, Array([Diff.AddOp("", v)]))).current == v
    ensures Next(live, id, PatchBlock(id, Array(Diff.UpdateOps(last, v)))).current == v
    ensures Diff.UpdateOps(last, v) == [] ==> v == last
  {
    hide Diff.UpdateOps, P.Patched, Diff.AddOp;
    LiveClient.WholeUpdateLands(LiveClient.Shown.Live(last, false), id, v);
    Diff.UpdateRoundTrip(last, v);
  }

  lemma TurnIsOne(id: nat, last: Value, turn: Turn)
    ensures match turn
      case Whole(v) => TurnEvents(id, last, turn) == [PatchBlock(id, Array([Diff.AddOp("", v)]))]
      case Minimal(v) => (
        TurnEvents(id, last, turn) ==
          if Diff.UpdateOps(last, v) == [] then [] else [PatchBlock(id, Array(Diff.UpdateOps(last, v)))]
      )
      case Other(e) => TurnEvents(id, last, turn) == [e]
  {
    hide Diff.UpdateOps, Diff.AddOp;
    if turn.Minimal? && Diff.UpdateOps(last, turn.v) != [] {
      var sent := LiveClient.Frame(Patch(id, Array(Diff.UpdateOps(last, turn.v))));
      assert [sent][1..] == [];
      assert AllArrived([sent]) == Arrived(sent.message) + AllArrived([]);
    }
  }

  lemma EventShows(s: State, e: Event, id: nat, at: LiveIndex, last: Value, v: Value)
    requires ShowsIfKept(s, id, at, last) && e != CloseBlock(id) && !(e.OpenBlock? && e.id == id)
    requires forall live: LiveBlock | live.current == last :: Next(live, id, e).current == v
    ensures ShowsIfKept(Step(s, e), id, at, v)
    ensures id in s.live ==> (id in Step(s, e).live <==> !Goes(s, e, at))
    ensures id !in s.live ==> id !in Step(s, e).live
  {
    hide Inv, Step, Next, Goes;
    InvShape(s);
    StepKeepsInv(s, e);
    if id in s.live {
      LeavesIff(s, e, id);
    } else {
      AbsentStays(s, e, id);
    }
  }

  lemma TurnShows(s: State, id: nat, at: LiveIndex, last: Value, turn: Turn)
    requires ShowsIfKept(s, id, at, last) && (turn.Other? ==> !Touches(turn.e, id))
    ensures Shape(s)
    ensures var t := Run(s, TurnEvents(id, last, turn));
      && ShowsIfKept(t, id, at, TurnValue(last, turn))
      && (id in s.live ==> (id in t.live <==> Kept(s, TurnEvents(id, last, turn), at)))
      && (id !in s.live ==> id !in t.live)
  {
    hide Inv, Step, Next, Goes, Run, Kept, Diff.UpdateOps, Diff.AddOp, TurnEvents;
    InvShape(s);
    TurnIsOne(id, last, turn);
    var events := TurnEvents(id, last, turn);
    if events == [] {
      UpdateLands(Opened(id, "", last), id, last, turn.v);
      RunOfNone(s);
      NothingLost(s, at);
    } else {
      var e := events[0];
      assert events == [e];
      forall live: LiveBlock | live.current == last ensures Next(live, id, e).current == TurnValue(last, turn) {
        if !turn.Other? {
          UpdateLands(live, id, last, turn.v);
        } else {
          NextUntouched(live, id, e);
        }
      }
      EventShows(s, e, id, at, last, TurnValue(last, turn));
      RunOfOne(s, e);
      KeptOne(s, e, at);
    }
  }

  lemma NothingLost(s: State, at: LiveIndex)
    requires Shape(s)
    ensures Kept(s, [], at)
  {
  }

  lemma NextUntouched(live: LiveBlock, id: nat, e: Event)
    requires !Touches(e, id)
    ensures Next(live, id, e) == live
  {
  }

  /** Over any run of updates, whatever else reaches the terminal between them, a terminal that still holds the block
      holds the client's last value; and it holds it exactly while no event sets off a check that finds too much. */
  lemma {:induction false} SessionShown(s: State, id: nat, at: LiveIndex, last: Value, turns: seq<Turn>)
    requires ShowsIfKept(s, id, at, last)
    requires forall t | t in turns :: t.Other? ==> !Touches(t.e, id)
    ensures Shape(s)
    ensures var t := Run(s, Session(id, last, turns));
      && ShowsIfKept(t, id, at, LastValue(last, turns))
      && (id in s.live ==> (id in t.live <==> Kept(s, Session(id, last, turns), at)))
      && (id !in s.live ==> id !in t.live)
    decreases |turns|
  {
    hide ShowsIfKept, Run, Kept, TurnEvents;
    ShowsShape(s, id, at, last);
    if turns == [] {
      RunOfNone(s);
      NothingLost(s, at);
    } else {
      var turn, rest := turns[0], turns[1..];
      assert turn in turns && forall t | t in rest :: t in turns;
      TurnShows(s, id, at, last, turn);
      var events := TurnEvents(id, last, turn);
      var next := Run(s, events);
      SessionShown(next, id, at, TurnValue(last, turn), rest);
      RunInTwo(s, events, Session(id, TurnValue(last, turn), rest));
      KeptInTwo(s, events, Session(id, TurnValue(last, turn), rest), at);
    }
  }

  lemma ShowsShape(s: State, id: nat, at: LiveIndex, v: Value)
    requires ShowsIfKept(s, id, at, v)
    ensures Shape(s)
  {
  }

  /** From a fresh terminal: after anything at all, a block opened under a free id while there is room, and then any
      session, the terminal shows the client's last value for as long as it holds the block. */
  lemma SessionInStep(before: seq<Event>, id: nat, mime: string, spec: Value, turns: seq<Turn>)
    requires id !in Run(INITIAL, before).live && |Run(INITIAL, before).live| < MAX_OPEN_LIVE_BLOCKS
    requires forall t | t in turns :: t.Other? ==> !Touches(t.e, id)
    ensures
      var s := Run(INITIAL, before);
      var at := LiveIndex(|s.blocks| - 1, |Current(s.blocks).output|);
      var t := Run(INITIAL, before + [OpenBlock(id, mime, spec)] + Session(id, spec, turns));
      && (id in t.live ==>
            t.live[id] == at && AnyLiveAt(t.blocks, at) && LiveAt(t.blocks, at).current == LastValue(spec, turns))
      && (id in t.live <==> Kept(Step(s, OpenBlock(id, mime, spec)), Session(id, spec, turns), at))
  {
    hide Run, Kept, Session, LastValue, Inv, Opened;
    InitialInv();
    RunKeepsInv(INITIAL, before);
    var s := Run(INITIAL, before);
    InvShape(s);
    OpenAt(s, id, mime, spec);
    OpenedShows(id, mime, spec);
    StepKeepsInv(s, OpenBlock(id, mime, spec));
    var begun := Step(s, OpenBlock(id, mime, spec));
    var at := LiveIndex(|s.blocks| - 1, |Current(s.blocks).output|);
    SessionShown(begun, id, at, spec, turns);
    RunInTwo(INITIAL, before, [OpenBlock(id, mime, spec)]);
    RunOfOne(s, OpenBlock(id, mime, spec));
    RunInTwo(INITIAL, before + [OpenBlock(id, mime, spec)], Session(id, spec, turns));
  }

  lemma OpenedShows(id: nat, mime: string, spec: Value)
    ensures Opened(id, mime, spec).current == spec
  {
  }

  // ------------------------------------------------------------------------
  // A block another program's output drives out
  // ------------------------------------------------------------------------

  /** Output printed after a live block in the only block there is drives it out exactly when it brings on a check that
      finds the budget passed. */
  lemma FloodForgetsIff(s: State, id: nat, text: string)
    requires Inv(s) && |s.blocks| == 1 && id in s.live && s.live[id] == LiveIndex(0, 0)
    requires Printing(s) && Printable(text)
    ensures id in Run(s, Keys(text)).live <==> Fits(s, |text|)
  {
    hide Inv, Step, Run, Keys, Fits, Full, WithPrinted, Printable;
    InvShape(s);
    if Fits(s, |text|) {
      StillThere(s, text);
    } else {
      var n := KeysFill(s, text);
      PrintableAround(text, n);
      StillThere(s, text[..n]);
      var full, key := Run(s, Keys(text[..n])), text[n..][..1];
      RunAround(s, text, n);
      OneBlockGoes(full, id, key);
      KeysOpenNothing(text[n + 1..], id);
      AbsentForGood(Step(full, Print(key)), Keys(text[n + 1..]), id);
    }
  }

  lemma PrintableAround(text: string, n: nat)
    requires Printable(text) && n < |text|
    ensures Printable(text[..n]) && text[n..][..1] != "" && Bytes(text[n..][..1]) == 1
  {
    var key := text[n..][..1];
    assert forall c | c in text[..n] || c in key :: c in text;
    PrintableBytes(key);
  }

  /** Text that fits leaves the index as it was. */
  lemma StillThere(s: State, text: string)
    requires Inv(s) && Printing(s) && Printable(text) && Fits(s, |text|)
    ensures var t := Run(s, Keys(text)); Inv(t) && Printing(t) && t.live == s.live && |t.blocks| == |s.blocks|
  {
    hide Inv, Step, Run, Keys, Fits;
    RunKeepsInv(s, Keys(text));
    KeysPrinted(s, text);
    InvShape(Run(s, Keys(text)));
  }

  lemma {:induction false} KeysOpenNothing(text: string, id: nat)
    ensures forall e | e in Keys(text) :: !(e.OpenBlock? && e.id == id)
  {
    if text != "" {
      KeysOpenNothing(text[1..], id);
    }
  }

  lemma OneBlockGoes(s: State, id: nat, key: string)
    requires Inv(s) && |s.blocks| == 1 && id in s.live && s.live[id] == LiveIndex(0, 0)
    requires Printing(s) && key != "" && Bytes(key) == 1 && Full(s)
    ensures id !in Step(s, Event.Print(key)).live
  {
    hide Inv, Step, Bytes, WithText, Retained, RetainedBytes, OutputBytes;
    var e, at := Event.Print(key), LiveIndex(0, 0);
    LeavesIff(s, e, id);
    IndexedIsLive(s, id);
    PrintedRetained(s, key);
    ChangedFollows(s, e, id, at, LiveAt(s.blocks, at));
    OneBlockLoses(Changed(s, e).(since := 0));
  }

  lemma OneBlockLoses(s: State)
    requires |s.blocks| == 1 && s.cursor == 0 && AnyLiveAt(s.blocks, LiveIndex(0, 0))
    requires Retained(s.blocks) > MAX_RETAINED_OUTPUT_BYTES
    ensures Loses(s, LiveIndex(0, 0))
  {
    assert s.blocks[1..] == [] && s.blocks[0..0] == [];
    assert Current(s.blocks).output[..0] == [];
  }

  /** A session that ends so: a block opened in a fresh terminal, and then another program's output. */
  lemma FirstBlockForgottenIff(id: nat, mime: string, spec: Value, text: string)
    requires Printable(text)
    ensures id in Run(INITIAL, [OpenBlock(id, mime, spec)]).live
    ensures id !in Run(INITIAL, [OpenBlock(id, mime, spec)] + Keys(text)).live
      <==> && |text| >= BUDGET_CHECK_INTERVAL_BYTES
           && 2 * JsonBytes(spec) + |text| / BUDGET_CHECK_INTERVAL_BYTES * BUDGET_CHECK_INTERVAL_BYTES
              > MAX_RETAINED_OUTPUT_BYTES
  {
    hide JsonBytes, Inv, Keys, Step, Run, Fits, Retained, Printable;
    InitialInv();
    var e := OpenBlock(id, mime, spec);
    StepKeepsInv(INITIAL, e);
    RunOfOne(INITIAL, e);
    RunInTwo(INITIAL, [e], Keys(text));
    FirstOpened(id, mime, spec);
    FitsFromNone(Step(INITIAL, e), |text|);
    FloodForgetsIff(Step(INITIAL, e), id, text);
  }

  lemma FitsFromNone(s: State, n: nat)
    requires s.since == 0
    ensures Fits(s, n)
      <==> || n < BUDGET_CHECK_INTERVAL_BYTES
           || Retained(s.blocks) + n / BUDGET_CHECK_INTERVAL_BYTES * BUDGET_CHECK_INTERVAL_BYTES
              <= MAX_RETAINED_OUTPUT_BYTES
  {
    hide Retained;
  }

  lemma FirstOpened(id: nat, mime: string, spec: Value)
    ensures var s := Step(INITIAL, OpenBlock(id, mime, spec));
      && Printing(s) && |s.blocks| == 1 && id in s.live && s.live[id] == LiveIndex(0, 0)
      && s.since == 0 && Retained(s.blocks) == 2 * JsonBytes(spec)
  {
    hide JsonBytes;
    var s, segment := Step(INITIAL, OpenBlock(id, mime, spec)), Live(Opened(id, mime, spec));
    assert s.blocks[0].output == [] + [segment] == [segment] && s.blocks[1..] == [];
    OneSegment(segment);
    NoBytes();
  }

  // ------------------------------------------------------------------------
  // Patches of any kind
  // ------------------------------------------------------------------------

  /** The patches a run brings for one block, in order. */
  function PatchesFor(id: nat, events: seq<Event>): seq<Value> {
    if events == [] then []
    else (if events[0].PatchBlock? && events[0].id == id then [events[0].patch] else []) + PatchesFor(id, events[1..])
  }

  /** A value with patches applied one after another. */
  function AllPatched(v: Value, patches: seq<Value>): Value
    decreases |patches|
  {
    if patches == [] then v else AllPatched(P.Patched(v, patches[0]), patches[1..])
  }

  /** A block not lost holds all the patches sent to it and no others, in the order they came, with one revision for
      each. */
  lemma {:induction false} KeptHoldsPatches(s: State, events: seq<Event>, id: nat)
    requires Inv(s) && id in s.live && CloseBlock(id) !in events && Kept(s, events, s.live[id])
    ensures AnyLiveAt(s.blocks, s.live[id])
    ensures var was, t, patches := LiveAt(s.blocks, s.live[id]), Run(s, events), PatchesFor(id, events);
      && id in t.live && t.live[id] == s.live[id] && AnyLiveAt(t.blocks, t.live[id])
      && var now := LiveAt(t.blocks, t.live[id]);
      && now.current == AllPatched(was.current, patches) && now.currentBytes == JsonBytes(now.current)
      && now.revision == was.revision + |patches|
      && now.(current := was.current, currentBytes := was.currentBytes, revision := was.revision) == was
    decreases |events|
  {
    hide Inv, Step, Goes, P.Patched, JsonBytes;
    InvShape(s);
    IndexedIsLive(s, id);
    SizeIsRight(s, id);
    if events != [] {
      var e, rest := events[0], events[1..];
      assert e in events && forall a | a in rest :: a in events;
      LeavesIff(s, e, id);
      StepKeepsInv(s, e);
      KeptHoldsPatches(Step(s, e), rest, id);
      NextIs(LiveAt(s.blocks, s.live[id]), id, e, rest);
    }
  }

  lemma NextIs(live: LiveBlock, id: nat, e: Event, rest: seq<Event>)
    ensures var next, patches := Next(live, id, e), PatchesFor(id, [e] + rest);
      && AllPatched(live.current, patches) == AllPatched(next.current, PatchesFor(id, rest))
      && next.revision + |PatchesFor(id, rest)| == live.revision + |patches|
      && next.(current := live.current, currentBytes := live.currentBytes, revision := live.revision) == live
  {
    hide P.Patched, JsonBytes;
    assert ([e] + rest)[1..] == rest;
    if e.PatchBlock? && e.id == id {
      PatchedFirst(live.current, e.patch, PatchesFor(id, rest));
      assert PatchesFor(id, [e] + rest) == [e.patch] + PatchesFor(id, rest);
      assert Next(live, id, e).current == P.Patched(live.current, e.patch);
    } else {
      assert PatchesFor(id, [e] + rest) == PatchesFor(id, rest);
    }
  }

  lemma PatchedFirst(v: Value, patch: Value, rest: seq<Value>)
    ensures AllPatched(v, [patch] + rest) == AllPatched(P.Patched(v, patch), rest)
  {
    hide P.Patched;
    assert ([patch] + rest)[1..] == rest;
  }
}

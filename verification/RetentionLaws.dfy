/** What every event keeps, and what holds over whole runs of the scrollback. */
module RetentionLaws {
  import opened Text
  import opened Json
  import opened Messages
  import opened Blocks
  import opened Retention

  // ------------------------------------------------------------------------
  // The invariant
  // ------------------------------------------------------------------------

  /** Whether a live segment that has not been closed is at `at`. */
  predicate Unclosed(blocks: seq<Block>, at: LiveIndex) {
    AnyLiveAt(blocks, at) && !LiveAt(blocks, at).closed
  }

  /** The index is exactly the unclosed live segments, each under its own id. */
  ghost predicate IndexExact(s: State) {
    && (forall id | id in s.live :: Unclosed(s.blocks, s.live[id]) && LiveAt(s.blocks, s.live[id]).id == id)
    && (forall at | Unclosed(s.blocks, at) ::
          LiveAt(s.blocks, at).id in s.live && s.live[LiveAt(s.blocks, at).id] == at)
  }

  /** Exactly the blocks before the cursor are elided, and those hold no output. */
  ghost predicate ElidedBehindCursor(s: State) {
    forall i | 0 <= i < |s.blocks| ::
      (s.blocks[i].elided <==> i < s.cursor) && (i < s.cursor ==> s.blocks[i].output == [])
  }

  /** Each block's command line within its cap, each live block's size counted right. */
  ghost predicate BlocksSound(blocks: seq<Block>) {
    && (forall i | 0 <= i < |blocks| :: Bytes(blocks[i].command) <= MAX_COMMAND_BYTES)
    && (forall at | AnyLiveAt(blocks, at) :: LiveAt(blocks, at).currentBytes == JsonBytes(LiveAt(blocks, at).current))
  }

  ghost predicate Inv(s: State) {
    && Shape(s)
    && |s.blocks| <= MAX_BLOCKS
    && |s.live| <= MAX_OPEN_LIVE_BLOCKS
    && s.since < BUDGET_CHECK_INTERVAL_BYTES
    && ElidedBehindCursor(s)
    && BlocksSound(s.blocks)
    && IndexExact(s)
  }

  // ------------------------------------------------------------------------
  // Changing one block
  // ------------------------------------------------------------------------

  lemma {:induction false} BlockReplaced(blocks: seq<Block>, at: nat, block: Block)
    requires at < |blocks|
    ensures TotalOutput(blocks[at := block]) + OutputBytes(blocks[at].output)
      == TotalOutput(blocks) + OutputBytes(block.output)
    ensures Retained(blocks[at := block]) + RetainedBytes(blocks[at]) == Retained(blocks) + RetainedBytes(block)
  {
    if at > 0 {
      BlockReplaced(blocks[1..], at - 1, block);
      assert blocks[at := block][1..] == blocks[1..][at - 1 := block];
    }
  }

  lemma {:induction false} TextConcat(a: seq<Block>, b: seq<Block>)
    ensures PlainText(a + b) == PlainText(a) + PlainText(b)
    ensures TotalOutput(a + b) == TotalOutput(a) + TotalOutput(b)
  {
    hide OutputText, OutputBytes;
    if a == [] {
      assert a + b == b;
    } else {
      TextConcat(a[1..], b);
      assert (a + b)[1..] == a[1..] + b;
      assert OutputText(a[0].output) + (PlainText(a[1..]) + PlainText(b)) == PlainText(a) + PlainText(b);
    }
  }

  lemma OneBlock(block: Block)
    ensures PlainText([block]) == OutputText(block.output)
    ensures TotalOutput([block]) == OutputBytes(block.output)
  {
    assert PlainText([block][1..]) == "";
  }

  lemma {:induction false} TextBeforeLast(blocks: seq<Block>)
    requires blocks != []
    ensures PlainText(blocks) == PlainText(blocks[..|blocks| - 1]) + OutputText(Current(blocks).output)
  {
    hide OutputText;
    if |blocks| > 1 {
      TextBeforeLast(blocks[1..]);
      assert blocks[..|blocks| - 1][1..] == blocks[1..][..|blocks| - 2];
      var first, middle := OutputText(blocks[0].output), PlainText(blocks[1..][..|blocks| - 2]);
      var last := OutputText(Current(blocks).output);
      assert first + (middle + last) == first + middle + last;
    }
  }

  /** The whole text is what comes before the current block and the current block's own. */
  lemma CurrentText(blocks: seq<Block>, block: Block)
    requires blocks != []
    ensures PlainText(blocks) == PlainText(blocks[..|blocks| - 1]) + OutputText(Current(blocks).output)
    ensures PlainText(WithCurrent(blocks, block)) == PlainText(blocks[..|blocks| - 1]) + OutputText(block.output)
  {
    hide PlainText, OutputText;
    TextBeforeLast(blocks);
    TextBeforeLast(WithCurrent(blocks, block));
    assert WithCurrent(blocks, block)[..|blocks| - 1] == blocks[..|blocks| - 1];
  }

  /** A change that leaves every unclosed live segment alone leaves the index exact. */
  ghost predicate SameLives(a: seq<Block>, b: seq<Block>) {
    forall at :: (AnyLiveAt(a, at) <==> AnyLiveAt(b, at)) && (AnyLiveAt(a, at) ==> LiveAt(a, at) == LiveAt(b, at))
  }

  ghost predicate SameLiveSegments(a: seq<Segment>, b: seq<Segment>) {
    forall i: nat :: (i < |a| && a[i].Live? <==> i < |b| && b[i].Live?) && (i < |a| && a[i].Live? ==> a[i] == b[i])
  }

  lemma SameLivesKeepIndex(s: State, t: State)
    requires IndexExact(s) && SameLives(s.blocks, t.blocks) && t.live == s.live
    ensures IndexExact(t)
  {
    assert forall at :: Unclosed(t.blocks, at) <==> Unclosed(s.blocks, at);
  }

  lemma CurrentRewritten(s: State, block: Block)
    requires Inv(s) && !block.elided && Bytes(block.command) <= MAX_COMMAND_BYTES
    requires SameLiveSegments(Current(s.blocks).output, block.output)
    ensures Inv(s.(blocks := WithCurrent(s.blocks, block)))
  {
    hide JsonBytes, OutputBytes, IndexExact;
    var t := s.(blocks := WithCurrent(s.blocks, block));
    var last := |s.blocks| - 1;
    forall at ensures (AnyLiveAt(s.blocks, at) <==> AnyLiveAt(t.blocks, at))
        && (AnyLiveAt(s.blocks, at) ==> LiveAt(s.blocks, at) == LiveAt(t.blocks, at)) {
      if at.block == last {
        assert SameLiveSegments(s.blocks[last].output, t.blocks[last].output);
      } else {
        assert at.block < |s.blocks| ==> t.blocks[at.block] == s.blocks[at.block];
      }
    }
    SameLivesKeepIndex(s, t);
    assert !Current(s.blocks).elided;
  }

  // ------------------------------------------------------------------------
  // Elision
  // ------------------------------------------------------------------------

  lemma ElideKeepsInv(s: State)
    requires Inv(s) && s.cursor + 1 < |s.blocks|
    ensures Inv(ElideAt(s, s.cursor))
  {
    hide JsonBytes, OutputBytes, IndexExact, BlocksSound;
    var t := ElideAt(s, s.cursor);
    forall at ensures AnyLiveAt(t.blocks, at) <==> AnyLiveAt(s.blocks, at) && at.block != s.cursor {
    }
    forall id | id in s.live ensures AnyLiveAt(s.blocks, s.live[id]) {
      IndexedIsAny(s, id);
    }
    FewerLives(s, t);
    Smaller(t.live.Keys, s.live.Keys);
    assert |t.live| == |t.live.Keys| && |s.live| == |s.live.Keys|;
  }

  lemma IndexedIsAny(s: State, id: nat)
    requires IndexExact(s) && id in s.live
    ensures AnyLiveAt(s.blocks, s.live[id])
  {
  }

  lemma {:induction false} Smaller<T>(a: set<T>, b: set<T>)
    requires a <= b
    ensures |a| <= |b|
  {
    assert b == a + (b - a);
    assert |b| == |a| + |b - a|;
  }

  /** What eviction does to each block: those the cursor passed are elided, the others as they were. */
  ghost predicate Aged(s: State, t: State) {
    && |t.blocks| == |s.blocks|
    && t == s.(blocks := t.blocks, live := t.live, cursor := t.cursor)
    && forall i | 0 <= i < |s.blocks| :: t.blocks[i] == if i < t.cursor then Elided(s.blocks[i]) else s.blocks[i]
  }

  lemma {:induction false} EvictedLaws(s: State, retained: nat)
    requires Inv(s) && Retained(s.blocks[s.cursor..]) <= retained
    ensures var (t, left) := Evicted(s, retained);
      && Inv(t) && Aged(s, t)
      && Retained(t.blocks[t.cursor..]) <= left
      && (left <= MAX_RETAINED_OUTPUT_BYTES || t.cursor == |t.blocks| - 1)
    decreases |s.blocks| - s.cursor
  {
    hide Retained, RetainedBytes, BlocksSound, IndexExact;
    if retained > MAX_RETAINED_OUTPUT_BYTES && s.cursor + 1 < |s.blocks| {
      var next := ElideAt(s, s.cursor);
      RetainedFrom(s.blocks, s.cursor);
      ElideKeepsInv(s);
      assert next.blocks[s.cursor + 1..] == s.blocks[s.cursor + 1..];
      EvictedLaws(next, retained - RetainedBytes(s.blocks[s.cursor]));
      assert !s.blocks[s.cursor].elided;
    } else {
      forall i | 0 <= i < s.cursor ensures Elided(s.blocks[i]) == s.blocks[i] {
      }
    }
  }

  lemma RetainedFrom(blocks: seq<Block>, at: nat)
    requires at < |blocks|
    ensures Retained(blocks[at..]) == RetainedBytes(blocks[at]) + Retained(blocks[at + 1..])
  {
    assert blocks[at..][1..] == blocks[at + 1..];
  }

  /** Blocks behind the cursor hold neither text nor bytes. */
  lemma {:induction false} NothingBehindCursor(s: State)
    requires Shape(s) && ElidedBehindCursor(s)
    ensures PlainText(s.blocks) == PlainText(s.blocks[s.cursor..])
    ensures TotalOutput(s.blocks) == TotalOutput(s.blocks[s.cursor..])
  {
    hide OutputText, OutputBytes;
    EmptyBlocks(s.blocks[..s.cursor]);
    assert s.blocks == s.blocks[..s.cursor] + s.blocks[s.cursor..];
    TextConcat(s.blocks[..s.cursor], s.blocks[s.cursor..]);
  }

  lemma {:induction false} EmptyBlocks(blocks: seq<Block>)
    requires forall b | b in blocks :: b.output == []
    ensures PlainText(blocks) == "" && TotalOutput(blocks) == 0
  {
    if blocks != [] {
      assert blocks[0] in blocks;
      EmptyBlocks(blocks[1..]);
    }
  }

  lemma {:induction false} OutputWithinRetained(blocks: seq<Block>)
    ensures TotalOutput(blocks) <= Retained(blocks)
  {
    if blocks != [] {
      OutputWithinRetained(blocks[1..]);
    }
  }

  /** Eviction loses text from the front only. */
  lemma AgedKeepsSuffix(s: State, t: State)
    requires Inv(s) && Inv(t) && Aged(s, t)
    ensures IsSuffix(PlainText(t.blocks), PlainText(s.blocks))
  {
    hide IndexExact, BlocksSound, OutputText, OutputBytes, TotalOutput, PlainText;
    NothingBehindCursor(t);
    var front, back := s.blocks[..t.cursor], s.blocks[t.cursor..];
    assert t.blocks[t.cursor..] == back;
    assert s.blocks == front + back;
    TextConcat(front, back);
  }

  // ------------------------------------------------------------------------
  // Trimming the current block
  // ------------------------------------------------------------------------

  lemma TrimCurrentKeepsInv(s: State)
    requires Inv(s)
    ensures Inv(TrimCurrent(s))
  {
    hide Trimmed, RetainedBytes, IndexExact, BlocksSound, JsonBytes;
    var t, last := TrimCurrent(s), |s.blocks| - 1;
    assert forall i | 0 <= i < last :: t.blocks[i] == s.blocks[i];
    forall at | AnyLiveAt(t.blocks, at)
      ensures AnyLiveAt(s.blocks, at) && LiveAt(t.blocks, at) == LiveAt(s.blocks, at) {
      TrimmedLiveAt(s, at);
    }
    FewerLives(s, t);
    Smaller(t.live.Keys, s.live.Keys);
    assert |t.live| == |t.live.Keys| && |s.live| == |s.live.Keys|;
    assert !Current(s.blocks).elided;
  }

  /** Where live segments only go, the index that drops those gone stays exact. */
  lemma FewerLives(s: State, t: State)
    requires IndexExact(s) && BlocksSound(s.blocks)
    requires |t.blocks| == |s.blocks| && forall b | 0 <= b < |s.blocks| :: t.blocks[b].command == s.blocks[b].command
    requires forall at | AnyLiveAt(t.blocks, at) ::
      AnyLiveAt(s.blocks, at) && LiveAt(t.blocks, at) == LiveAt(s.blocks, at)
    requires forall id :: id in t.live <==> id in s.live && AnyLiveAt(t.blocks, s.live[id])
    requires forall id | id in t.live :: t.live[id] == s.live[id]
    ensures IndexExact(t) && BlocksSound(t.blocks) && t.live.Keys <= s.live.Keys
  {
    hide AnyLiveAt, LiveAt, JsonBytes;
    forall at | Unclosed(t.blocks, at) ensures Unclosed(s.blocks, at) {
    }
  }

  lemma TrimmedLiveAt(s: State, at: LiveIndex)
    requires Shape(s) && AnyLiveAt(TrimCurrent(s).blocks, at)
    ensures AnyLiveAt(s.blocks, at) && LiveAt(TrimCurrent(s).blocks, at) == LiveAt(s.blocks, at)
  {
    if at.block == |s.blocks| - 1 {
      var bytes := RetainedBytes(Current(s.blocks));
      var excess := if bytes < CURRENT_BLOCK_TRIM_TARGET then 0 else bytes - CURRENT_BLOCK_TRIM_TARGET;
      TrimmedAt(Current(s.blocks).output, excess, at.segment);
    }
  }

  /** With every earlier block elided, the trim leaves a suffix of the text, within the target. */
  lemma TrimCurrentLaws(s: State)
    requires Inv(s) && s.cursor == |s.blocks| - 1
    ensures IsSuffix(PlainText(TrimCurrent(s).blocks), PlainText(s.blocks))
    ensures TotalOutput(TrimCurrent(s).blocks) <= CURRENT_BLOCK_TRIM_TARGET
  {
    hide BlocksSound, IndexExact, KeepLive, OutputText, OutputBytes, Trimmed, PlainText, TotalOutput;
    var current := Current(s.blocks);
    var bytes := RetainedBytes(current);
    var excess := if bytes < CURRENT_BLOCK_TRIM_TARGET then 0 else bytes - CURRENT_BLOCK_TRIM_TARGET;
    var cut := current.(output := Trimmed(current.output, excess));
    TrimFrees(current.output, excess);
    TrimKeepsSuffix(current.output, excess);
    OnlyBlock(s, current);
    OnlyBlock(s, cut);
    assert WithCurrent(s.blocks, current) == s.blocks;
  }

  /** What a cut of the current block has to free. */
  function Excess(s: State): nat
    requires s.blocks != []
  {
    var bytes := RetainedBytes(Current(s.blocks));
    if bytes < CURRENT_BLOCK_TRIM_TARGET then 0 else bytes - CURRENT_BLOCK_TRIM_TARGET
  }

  /** The cut empties segments from the front only while it has to, cuts one more by at most three bytes too many, and
      leaves the rest; of plain text it leaves the target less three bytes. */
  lemma TrimCurrentStops(s: State)
    requires s.blocks != []
    ensures Current(TrimCurrent(s).blocks).output == Trimmed(Current(s.blocks).output, Excess(s))
    ensures exists k: nat :: TrimmedUpTo(Current(s.blocks).output, Excess(s), k)
    ensures (forall i | 0 <= i < |Current(s.blocks).output| :: Current(s.blocks).output[i].Plain?)
      && RetainedBytes(Current(s.blocks)) >= CURRENT_BLOCK_TRIM_TARGET
      ==> RetainedBytes(Current(TrimCurrent(s).blocks)) + 3 >= CURRENT_BLOCK_TRIM_TARGET
  {
    hide Trimmed, TrimmedUpTo, OutputBytes, KeepLive, Bytes;
    var output := Current(s.blocks).output;
    TrimStops(output, Excess(s));
    if forall i | 0 <= i < |output| :: output[i].Plain? {
      PlainTrimIsTight(output, Excess(s));
    }
  }

  /** With every earlier block elided, the current one is all there is. */
  lemma OnlyBlock(s: State, block: Block)
    requires Shape(s) && ElidedBehindCursor(s) && s.cursor == |s.blocks| - 1
    ensures PlainText(WithCurrent(s.blocks, block)) == OutputText(block.output)
    ensures TotalOutput(WithCurrent(s.blocks, block)) == OutputBytes(block.output)
  {
    hide OutputText, OutputBytes;
    var front := s.blocks[..s.cursor];
    EmptyBlocks(front);
    assert WithCurrent(s.blocks, block) == front + [block];
    TextConcat(front, [block]);
    OneBlock(block);
  }

  // ------------------------------------------------------------------------
  // Enforcing the budget
  // ------------------------------------------------------------------------

  lemma EnforcedKeepsInv(s: State)
    requires Inv(s)
    ensures Inv(Enforced(s)) && Enforced(s).since == s.since
  {
    hide Retained, TrimCurrent, Inv, Evicted;
    var retained := Retained(s.blocks);
    InvShape(s);
    if retained > MAX_RETAINED_OUTPUT_BYTES {
      RetainedSuffix(s.blocks, s.cursor);
      EvictedLaws(s, retained);
      var (t, left) := Evicted(s, retained);
      TrimCurrentKeepsInv(t);
      InvShape(t);
    }
  }

  lemma InvShape(s: State)
    requires Inv(s)
    ensures Shape(s) && s.since < BUDGET_CHECK_INTERVAL_BYTES && TrimCurrent(s).since == s.since
  {
  }

  /** The three outcomes of enforcing: nothing to do, eviction was enough, or the current block is cut too. */
  lemma EnforcedCases(s: State)
    requires Inv(s)
    ensures || (Enforced(s) == s && Retained(s.blocks) <= MAX_RETAINED_OUTPUT_BYTES)
      || (Aged(s, Enforced(s)) && Retained(Enforced(s).blocks[Enforced(s).cursor..]) <= MAX_RETAINED_OUTPUT_BYTES)
      || (exists t :: Inv(t) && Aged(s, t) && t.cursor == |t.blocks| - 1 && Enforced(s) == TrimCurrent(t))
  {
    hide Retained, TrimCurrent, Inv, Evicted;
    var retained := Retained(s.blocks);
    InvShape(s);
    if retained > MAX_RETAINED_OUTPUT_BYTES {
      RetainedSuffix(s.blocks, s.cursor);
      EvictedLaws(s, retained);
      var (t, left) := Evicted(s, retained);
      InvShape(t);
    }
  }

  /** Right after enforcement the output of all blocks is within the budget, whatever the command lines take. */
  lemma EnforcedWithinBudget(s: State)
    requires Inv(s)
    ensures TotalOutput(Enforced(s).blocks) <= MAX_RETAINED_OUTPUT_BYTES
  {
    EnforcedKeepsInv(s);
    EnforcedCases(s);
    var e := Enforced(s);
    if e == s && Retained(s.blocks) <= MAX_RETAINED_OUTPUT_BYTES {
      OutputWithinRetained(s.blocks);
    } else if Aged(s, e) && Retained(e.blocks[e.cursor..]) <= MAX_RETAINED_OUTPUT_BYTES {
      NothingBehindCursor(e);
      OutputWithinRetained(e.blocks[e.cursor..]);
    } else {
      var t :| Inv(t) && Aged(s, t) && t.cursor == |t.blocks| - 1 && e == TrimCurrent(t);
      TrimCurrentLaws(t);
    }
  }

  lemma EnforcedKeepsSuffix(s: State)
    requires Inv(s)
    ensures IsSuffix(PlainText(Enforced(s).blocks), PlainText(s.blocks))
  {
    EnforcedKeepsInv(s);
    EnforcedCases(s);
    var e := Enforced(s);
    if Aged(s, e) {
      AgedKeepsSuffix(s, e);
    } else if e != s {
      var t :| Inv(t) && Aged(s, t) && t.cursor == |t.blocks| - 1 && e == TrimCurrent(t);
      AgedKeepsSuffix(s, t);
      TrimCurrentLaws(t);
      SuffixTransitive(PlainText(e.blocks), PlainText(t.blocks), PlainText(s.blocks));
    }
  }

  // ------------------------------------------------------------------------
  // Where eviction stops
  // ------------------------------------------------------------------------

  /** Eviction goes on exactly as long as what is retained is over the budget. */
  lemma {:induction false} EvictedExactly(s: State, retained: nat, i: nat)
    requires Inv(s) && Retained(s.blocks[s.cursor..]) <= retained && s.cursor <= i < |s.blocks| - 1
    ensures i < Evicted(s, retained).0.cursor
      <==> retained - Retained(s.blocks[s.cursor..i]) > MAX_RETAINED_OUTPUT_BYTES
    decreases |s.blocks| - s.cursor
  {
    hide RetainedBytes, BlocksSound, IndexExact, Retained;
    if retained > MAX_RETAINED_OUTPUT_BYTES {
      var next := ElideAt(s, s.cursor);
      RetainedFrom(s.blocks, s.cursor);
      ElideKeepsInv(s);
      assert next.blocks[s.cursor + 1..] == s.blocks[s.cursor + 1..];
      RetainedFromTo(s.blocks, s.cursor, i);
      if s.cursor < i {
        EvictedExactly(next, retained - RetainedBytes(s.blocks[s.cursor]), i);
        assert next.blocks[s.cursor + 1..i] == s.blocks[s.cursor + 1..i];
      }
    }
  }

  lemma RetainedFromTo(blocks: seq<Block>, at: nat, to: nat)
    requires at <= to <= |blocks|
    ensures Retained(blocks[at..to]) == if at == to then 0 else RetainedBytes(blocks[at]) + Retained(blocks[at + 1..to])
  {
    if at < to {
      assert blocks[at..to][1..] == blocks[at + 1..to];
    }
  }

  /** Enforcing elides a block exactly when all that is retained, less what the blocks elided before it held, is over
      the budget. */
  lemma EnforcedExactly(s: State, i: nat)
    requires Inv(s) && s.cursor <= i < |s.blocks| - 1
    ensures i < |Enforced(s).blocks|
    ensures Enforced(s).blocks[i].elided
      <==> Retained(s.blocks) - Retained(s.blocks[s.cursor..i]) > MAX_RETAINED_OUTPUT_BYTES
  {
    hide Retained, TrimCurrent, Evicted, IndexExact, BlocksSound;
    var retained := Retained(s.blocks);
    EnforcedKeepsInv(s);
    if retained > MAX_RETAINED_OUTPUT_BYTES {
      RetainedSuffix(s.blocks, s.cursor);
      EvictedExactly(s, retained, i);
      EvictedLaws(s, retained);
      TrimKeepsCursor(Evicted(s, retained).0);
    }
  }

  lemma TrimKeepsCursor(s: State)
    requires s.blocks != []
    ensures TrimCurrent(s).cursor == s.cursor
  {
  }

  function CommandBytes(blocks: seq<Block>): nat {
    if blocks == [] then 0 else Bytes(blocks[0].command) + CommandBytes(blocks[1..])
  }

  lemma {:induction false} RetainedIsBoth(blocks: seq<Block>)
    ensures Retained(blocks) == TotalOutput(blocks) + CommandBytes(blocks)
  {
    if blocks != [] {
      RetainedIsBoth(blocks[1..]);
    }
  }

  lemma {:induction false} RetainedConcat(a: seq<Block>, b: seq<Block>)
    ensures Retained(a + b) == Retained(a) + Retained(b)
  {
    hide RetainedBytes;
    if a == [] {
      assert a + b == b;
    } else {
      assert (a + b)[1..] == a[1..] + b;
      RetainedConcat(a[1..], b);
    }
  }

  lemma RetainedInThree(blocks: seq<Block>, a: nat, b: nat)
    requires a <= b <= |blocks|
    ensures Retained(blocks) == Retained(blocks[..a]) + Retained(blocks[a..b]) + Retained(blocks[b..])
  {
    hide Retained;
    RetainedConcat(blocks[..a], blocks[a..b]);
    RetainedConcat(blocks[..b], blocks[b..]);
    assert blocks[..a] + blocks[a..b] == blocks[..b] && blocks[..b] + blocks[b..] == blocks;
  }

  /** Command lines count too, those of elided blocks among them: a block is elided exactly when the output from it on
      and the command lines before the cursor and from it on are over the budget together. So it goes although the
      output from it on fits exactly when the command lines tip the sum. */
  lemma ElidedForCommandsIff(s: State, i: nat)
    requires Inv(s) && s.cursor <= i < |s.blocks| - 1
    ensures i < |Enforced(s).blocks|
    ensures
      var commands := CommandBytes(s.blocks[..s.cursor]) + CommandBytes(s.blocks[i..]);
      var output := TotalOutput(s.blocks[i..]);
      && (Enforced(s).blocks[i].elided <==> output + commands > MAX_RETAINED_OUTPUT_BYTES)
      && ((Enforced(s).blocks[i].elided && output <= MAX_RETAINED_OUTPUT_BYTES) <==>
            output <= MAX_RETAINED_OUTPUT_BYTES < output + commands)
  {
    hide Retained, TotalOutput, CommandBytes, Enforced, IndexExact, BlocksSound;
    EnforcedExactly(s, i);
    RetainedInThree(s.blocks, s.cursor, i);
    RetainedIsBoth(s.blocks[..s.cursor]);
    RetainedIsBoth(s.blocks[i..]);
    EmptyBlocks(s.blocks[..s.cursor]);
  }

  lemma BehindIsElided(s: State)
    requires Inv(s)
    ensures forall i | 0 <= i < s.cursor :: Elided(s.blocks[i]) == s.blocks[i]
  {
  }

  /** Blocks are elided oldest first and keep their command lines, and the current one is cut only once every
      earlier one is elided. */
  lemma EnforcedOldestFirst(s: State)
    requires Inv(s)
    ensures var e := Enforced(s);
      && |e.blocks| == |s.blocks| && e == s.(blocks := e.blocks, live := e.live, cursor := e.cursor)
      && (forall i | 0 <= i < |s.blocks| - 1 ::
            e.blocks[i] == if i < e.cursor then Elided(s.blocks[i]) else s.blocks[i])
      && (Current(e.blocks) != Current(s.blocks) ==> e.cursor == |s.blocks| - 1)
      && Current(e.blocks) == Current(s.blocks).(output := Current(e.blocks).output)
      && |Current(e.blocks).output| == |Current(s.blocks).output|
  {
    hide Inv, Enforced, Trimmed, Retained, KeepLive, RetainedBytes;
    InvShape(s);
    EnforcedCases(s);
    var e := Enforced(s);
    if e == s {
      BehindIsElided(s);
    } else if !Aged(s, e) {
      var t :| Inv(t) && Aged(s, t) && t.cursor == |t.blocks| - 1 && e == TrimCurrent(t);
      assert t.blocks[|t.blocks| - 1] == s.blocks[|t.blocks| - 1];
    }
  }

  // ------------------------------------------------------------------------
  // Which live segments a check loses
  // ------------------------------------------------------------------------

  /** Eviction counts down exactly what the blocks it elides held. */
  lemma {:induction false} EvictedLeft(s: State, retained: nat)
    requires Inv(s) && Retained(s.blocks[s.cursor..]) <= retained
    ensures var (t, left) := Evicted(s, retained);
      s.cursor <= t.cursor <= |s.blocks| && left == retained - Retained(s.blocks[s.cursor..t.cursor])
    decreases |s.blocks| - s.cursor
  {
    hide Retained, RetainedBytes, BlocksSound, IndexExact;
    RetainedFromTo(s.blocks, s.cursor, s.cursor);
    if retained > MAX_RETAINED_OUTPUT_BYTES && s.cursor + 1 < |s.blocks| {
      var next := ElideAt(s, s.cursor);
      RetainedFrom(s.blocks, s.cursor);
      ElideKeepsInv(s);
      assert next.blocks[s.cursor + 1..] == s.blocks[s.cursor + 1..];
      EvictedLeft(next, retained - RetainedBytes(s.blocks[s.cursor]));
      var to := Evicted(s, retained).0.cursor;
      RetainedFromTo(s.blocks, s.cursor, to);
      assert next.blocks[s.cursor + 1..to] == s.blocks[s.cursor + 1..to];
    }
  }

  lemma RetainedGrows(blocks: seq<Block>, at: nat, a: nat, b: nat)
    requires at <= a <= b <= |blocks|
    ensures Retained(blocks[at..a]) <= Retained(blocks[at..b])
  {
    hide Retained;
    RetainedInThree(blocks[at..b], a - at, b - at);
    assert blocks[at..b][..a - at] == blocks[at..a];
  }

  /** Whether a check of the budget would lose the live segment at `at`: all that is retained, less what the blocks
      elided before its own held, is over the budget; and in the block being written, the segments before it hold less
      than a cut has to free. */
  predicate Loses(s: State, at: LiveIndex)
    requires Shape(s)
  {
    && AnyLiveAt(s.blocks, at)
    && s.cursor <= at.block
    && Retained(s.blocks) - Retained(s.blocks[s.cursor..at.block]) > MAX_RETAINED_OUTPUT_BYTES
    && (at.block == |s.blocks| - 1 ==> OutputBytes(Current(s.blocks).output[..at.segment]) < Excess(s))
  }

  lemma LivesPastCursor(s: State, at: LiveIndex)
    requires Inv(s) && AnyLiveAt(s.blocks, at)
    ensures s.cursor <= at.block < |s.blocks|
  {
  }

  /** A check loses a live segment exactly when that can be read off the state before it. */
  lemma EnforcedLosesIff(s: State, at: LiveIndex)
    requires Inv(s) && AnyLiveAt(s.blocks, at)
    ensures !AnyLiveAt(Enforced(s).blocks, at) <==> Loses(s, at)
  {
    hide Inv, Enforced, Retained, Excess, OutputBytes;
    InvShape(s);
    LivesPastCursor(s, at);
    if at.block < |s.blocks| - 1 {
      EnforcedExactly(s, at.block);
      EnforcedOldestFirst(s);
      EnforcedKeepsInv(s);
      ElidedHasNoLive(Enforced(s), at);
    } else {
      CurrentLosesIff(s, at);
    }
  }

  lemma ElidedHasNoLive(s: State, at: LiveIndex)
    requires Inv(s) && at.block < |s.blocks|
    ensures s.blocks[at.block].elided ==> !AnyLiveAt(s.blocks, at)
    ensures s.blocks[at.block].elided <==> at.block < s.cursor
  {
  }

  lemma CurrentLosesIff(s: State, at: LiveIndex)
    requires Inv(s) && AnyLiveAt(s.blocks, at) && at.block == |s.blocks| - 1
    ensures !AnyLiveAt(Enforced(s).blocks, at) <==> Loses(s, at)
  {
    hide Inv, Retained, Excess, OutputBytes, Evicted, TrimCurrent;
    InvShape(s);
    var retained := Retained(s.blocks);
    if retained > MAX_RETAINED_OUTPUT_BYTES {
      RetainedSuffix(s.blocks, s.cursor);
      EvictedLaws(s, retained);
      EvictedLeft(s, retained);
      var (t, left) := Evicted(s, retained);
      RetainedGrows(s.blocks, s.cursor, t.cursor, at.block);
      assert t.blocks[at.block] == s.blocks[at.block];
      if left > MAX_RETAINED_OUTPUT_BYTES {
        TrimLosesIff(t, at);
        ExcessOfCurrent(s, t);
      }
    }
  }

  lemma ExcessOfCurrent(s: State, t: State)
    requires s.blocks != [] && t.blocks != [] && Current(s.blocks) == Current(t.blocks)
    ensures Excess(s) == Excess(t)
  {
  }

  lemma TrimLosesIff(s: State, at: LiveIndex)
    requires AnyLiveAt(s.blocks, at) && at.block == |s.blocks| - 1
    ensures !AnyLiveAt(TrimCurrent(s).blocks, at)
      <==> OutputBytes(Current(s.blocks).output[..at.segment]) < Excess(s)
  {
    hide Trimmed, OutputBytes, RetainedBytes, KeepLive;
    TrimmedLiveIff(Current(s.blocks).output, Excess(s), at.segment);
  }

  /** A check brings no live segment back. */
  lemma EnforcedAddsNoLive(s: State, at: LiveIndex)
    requires Inv(s) && AnyLiveAt(Enforced(s).blocks, at)
    ensures AnyLiveAt(s.blocks, at)
  {
    hide Inv, Enforced, TrimCurrent;
    InvShape(s);
    EnforcedCases(s);
    var e := Enforced(s);
    if e != s && !Aged(s, e) {
      var t :| Inv(t) && Aged(s, t) && t.cursor == |t.blocks| - 1 && e == TrimCurrent(t);
      InvShape(t);
      TrimmedLiveAt(t, at);
    }
  }
}

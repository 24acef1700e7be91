/** A session whose output fits the budget and is elided all the same: long command lines count against it too. */
module CommandFlood {
  import opened Text
  import opened Json
  import opened Messages
  import opened Blocks
  import opened Retention
  import opened RetentionLaws
  import opened RetentionRuns
  import opened Characters

  /** One command typed, and one character it prints. */
  function Turn(command: string): seq<Event> {
    [PromptStart, CommandStart] + (Keys(command) + ([OutputStart] + Keys("x")))
  }

  function Turns(n: nat, command: string): seq<Event> {
    if n == 0 then [] else Turns(n - 1, command) + Turn(command)
  }

  /** After `n` commands: a block for each, all of them whole, and every byte counted. */
  ghost predicate Typed(s: State, n: nat, command: string) {
    && Inv(s) && s.cursor == 0 && s.phase == Output && s.activeLink == None
    && |s.blocks| == n && (forall i | 0 <= i < n :: IsTyped(s.blocks[i], command))
    && s.since == Retained(s.blocks) % BUDGET_CHECK_INTERVAL_BYTES
  }

  predicate IsTyped(block: Block, command: string) {
    block.command == command && block.output == [Plain("x")]
  }

  lemma OneByte()
    ensures Bytes("x") == 1 && Bytes("") == 0 && Printable("x")
  {
    assert Bytes("x"[1..]) == 0;
  }

  lemma {:induction false} TypedSums(blocks: seq<Block>, command: string)
    requires Printable(command) && forall i | 0 <= i < |blocks| :: IsTyped(blocks[i], command)
    ensures TotalOutput(blocks) == |blocks|
    ensures Retained(blocks) == |blocks| * (|command| + 1)
  {
    if blocks != [] {
      TypedSums(blocks[1..], command);
      OneByte();
      PrintableBytes(command);
      OneSegment(Plain("x"));
      assert |blocks| * (|command| + 1) == (|blocks| - 1) * (|command| + 1) + (|command| + 1);
    }
  }

  /** Where every byte retained was counted, printed text fits until the check after the one that finds the budget
      met. */
  lemma FitsCounted(s: State, n: nat)
    requires s.since == Retained(s.blocks) % BUDGET_CHECK_INTERVAL_BYTES
    requires Retained(s.blocks) < MAX_RETAINED_OUTPUT_BYTES + BUDGET_CHECK_INTERVAL_BYTES
    ensures Fits(s, n) <==> Retained(s.blocks) + n < MAX_RETAINED_OUTPUT_BYTES + BUDGET_CHECK_INTERVAL_BYTES
  {
    hide Retained;
  }

  lemma StillCounted(since: nat, retained: nat, n: nat)
    requires since == retained % BUDGET_CHECK_INTERVAL_BYTES
    ensures (since + n) % BUDGET_CHECK_INTERVAL_BYTES == (retained + n) % BUDGET_CHECK_INTERVAL_BYTES
  {
  }

  // ------------------------------------------------------------------------
  // One command
  // ------------------------------------------------------------------------

  /** The block a prompt leaves to type into, after those before it. */
  predicate AtPrompt(s: State, before: seq<Block>) {
    && s.cursor == 0 && s.activeLink == None && s.phase == Input
    && |s.blocks| == |before| + 1 && s.blocks[..|before|] == before
    && Current(s.blocks).command == "" && Current(s.blocks).output == []
  }

  /** The blocks before the one being typed: none while the first is still empty. */
  function Before(s: State): seq<Block> {
    if s.blocks == [] || IsEmpty(s.blocks[|s.blocks| - 1]) then [] else s.blocks
  }

  lemma PromptReached(s: State, n: nat, command: string)
    requires n < MAX_BLOCKS && ((Typed(s, n, command) && n > 0) || (n == 0 && s == INITIAL))
    ensures var t := Step(Step(s, PromptStart), CommandStart); AtPrompt(t, Before(s)) && t.since == s.since
    ensures n == |Before(s)| && forall i | 0 <= i < n :: IsTyped(Before(s)[i], command)
    ensures s.since == Retained(Before(s)) % BUDGET_CHECK_INTERVAL_BYTES
  {
    hide Inv;
    if n > 0 {
      InvShape(s);
      assert IsTyped(s.blocks[n - 1], command);
    }
  }

  lemma PromptRetained(s: State, before: seq<Block>)
    requires AtPrompt(s, before)
    ensures Retained(s.blocks) == Retained(before)
  {
    hide Retained;
    RetainedInThree(s.blocks, |before|, |before|);
    assert s.blocks[|before|..] == [Current(s.blocks)] && s.blocks[|before|..|before|] == [];
    EmptyRetained(Current(s.blocks));
  }

  lemma EmptyRetained(block: Block)
    requires block.command == "" && block.output == []
    ensures Retained([block]) == 0 && Retained([]) == 0
  {
    assert [block][1..] == [];
  }

  lemma TurnRuns(s: State, command: string)
    requires Shape(s)
    ensures Run(s, Turn(command))
      == Run(Step(Run(Step(Step(s, PromptStart), CommandStart), Keys(command)), OutputStart), Keys("x"))
  {
    hide Step, Run, Keys;
    var output := [OutputStart] + Keys("x");
    RunInTwo(s, [PromptStart, CommandStart], Keys(command) + output);
    assert [PromptStart, CommandStart] == [PromptStart] + [CommandStart];
    RunInTwo(s, [PromptStart], [CommandStart]);
    RunOfOne(s, PromptStart);
    var prompted := Step(s, PromptStart);
    RunOfOne(prompted, CommandStart);
    RunInTwo(Step(prompted, CommandStart), Keys(command), output);
    RunFirst(Run(Step(prompted, CommandStart), Keys(command)), OutputStart, Keys("x"));
  }

  /** The command and its character, from the block a prompt leaves. */
  lemma CommandDone(s: State, before: seq<Block>, command: string)
    requires AtPrompt(s, before) && Printable(command) && |command| <= MAX_COMMAND_BYTES
    requires s.since == Retained(before) % BUDGET_CHECK_INTERVAL_BYTES
    requires Retained(before) + |command| + 1 < MAX_RETAINED_OUTPUT_BYTES + BUDGET_CHECK_INTERVAL_BYTES
    ensures var t := Run(Step(Run(s, Keys(command)), OutputStart), Keys("x"));
      && t.cursor == 0 && t.phase == Output && t.activeLink == None
      && |t.blocks| == |before| + 1 && t.blocks[..|before|] == before && IsTyped(t.blocks[|before|], command)
      && t.since == Retained(t.blocks) % BUDGET_CHECK_INTERVAL_BYTES
  {
    hide Run, Retained, Fits, Keys, Bytes, WithText;
    OneByte();
    PromptRetained(s, before);
    FitsCounted(s, |command|);
    KeysTyped(s, command);
    var typed := Step(Run(s, Keys(command)), OutputStart);
    StillCounted(s.since, Retained(before), |command|);
    FitsCounted(typed, 1);
    KeysPrinted(typed, "x");
    StillCounted(typed.since, Retained(typed.blocks), 1);
    assert "" + command == command;
    TextedEmpty();
  }

  lemma TextedEmpty()
    ensures Texted([], "x") == [Plain("x")]
  {
  }

  lemma TurnTyped(s: State, n: nat, command: string)
    requires Printable(command) && |command| <= MAX_COMMAND_BYTES && n < MAX_BLOCKS
    requires (n + 1) * (|command| + 1) < MAX_RETAINED_OUTPUT_BYTES + BUDGET_CHECK_INTERVAL_BYTES
    requires (Typed(s, n, command) && n > 0) || (n == 0 && s == INITIAL)
    ensures Shape(s) && Typed(Run(s, Turn(command)), n + 1, command)
  {
    hide Inv, Step, Run, Before, IsTyped, Turn, Retained, AtPrompt, Typed;
    StartsSound(s, n, command);
    InvShape(s);
    TurnRuns(s, command);
    PromptReached(s, n, command);
    TypedSums(Before(s), command);
    assert n * (|command| + 1) + |command| + 1 == (n + 1) * (|command| + 1);
    CommandDone(Step(Step(s, PromptStart), CommandStart), Before(s), command);
    RunKeepsInv(s, Turn(command));
    TypedNext(Run(s, Turn(command)), Before(s), command);
  }

  lemma StartsSound(s: State, n: nat, command: string)
    requires Typed(s, n, command) || s == INITIAL
    ensures Inv(s)
  {
    hide Inv;
    InitialInv();
  }

  lemma TypedNext(t: State, before: seq<Block>, command: string)
    requires Inv(t) && t.cursor == 0 && t.phase == Output && t.activeLink == None
    requires |t.blocks| == |before| + 1 && t.blocks[..|before|] == before && IsTyped(t.blocks[|before|], command)
    requires forall i | 0 <= i < |before| :: IsTyped(before[i], command)
    requires t.since == Retained(t.blocks) % BUDGET_CHECK_INTERVAL_BYTES
    ensures Typed(t, |before| + 1, command)
  {
    hide Inv, Retained, IsTyped;
    assert forall i | 0 <= i < |before| :: before[i] == t.blocks[i];
  }

  lemma {:induction false} TurnsTyped(n: nat, command: string)
    requires Printable(command) && |command| <= MAX_COMMAND_BYTES && 0 < n <= MAX_BLOCKS
    requires n * (|command| + 1) < MAX_RETAINED_OUTPUT_BYTES + BUDGET_CHECK_INTERVAL_BYTES
    ensures Typed(Run(INITIAL, Turns(n, command)), n, command)
  {
    hide Typed, Run, Step, Turn;
    RunInTwo(INITIAL, Turns(n - 1, command), Turn(command));
    if n == 1 {
      RunOfNone(INITIAL);
      TurnTyped(INITIAL, 0, command);
    } else {
      assert (n - 1) * (|command| + 1) <= n * (|command| + 1);
      TurnsTyped(n - 1, command);
      TurnTyped(Run(INITIAL, Turns(n - 1, command)), n - 1, command);
    }
  }

  // ------------------------------------------------------------------------
  // The session
  // ------------------------------------------------------------------------

  /** After any number of commands, printed text elides the oldest output exactly when it brings the commands and all
      output together to the first check past the budget. */
  lemma FloodElidesIff(n: nat, command: string, text: string)
    requires Printable(command) && |command| <= MAX_COMMAND_BYTES && Printable(text) && 2 <= n <= MAX_BLOCKS
    requires n * (|command| + 1) < MAX_RETAINED_OUTPUT_BYTES + BUDGET_CHECK_INTERVAL_BYTES
    ensures
      var before := Run(INITIAL, Turns(n, command));
      var after := Run(INITIAL, Turns(n, command) + Keys(text));
      && |before.blocks| == n && before.blocks[0].output == [Plain("x")] && !before.blocks[0].elided
      && TotalOutput(before.blocks) == n
      && (after.blocks[0].elided
          <==> n * (|command| + 1) + |text| >= MAX_RETAINED_OUTPUT_BYTES + BUDGET_CHECK_INTERVAL_BYTES)
  {
    hide Run, Retained, TotalOutput, Inv, Turns, Keys, Fits;
    TurnsTyped(n, command);
    var before := Run(INITIAL, Turns(n, command));
    InvShape(before);
    TypedSums(before.blocks, command);
    assert IsTyped(before.blocks[0], command);
    ElidedBehind(before);
    FitsCounted(before, |text|);
    PrintedElidesIff(before, text);
    RunInTwo(INITIAL, Turns(n, command), Keys(text));
  }

  const COMMANDS := 1900
  const FLOOD := 1_652_884

  /** Of 1900 commands of 4096 bytes that print a character each, and then one command's output: the first 1.6 MiB of
      it elide the oldest output, though all of the output together is a fifth of the budget. */
  lemma OutputThatFitsIsElided(command: string, text: string)
    requires Printable(command) && |command| == MAX_COMMAND_BYTES && Printable(text)
    ensures
      var before := Run(INITIAL, Turns(COMMANDS, command));
      var after := Run(INITIAL, Turns(COMMANDS, command) + Keys(text));
      && before.blocks[0].output == [Plain("x")] && !before.blocks[0].elided
      && (TotalOutput(before.blocks) + FLOOD) * 5 < MAX_RETAINED_OUTPUT_BYTES
      && (after.blocks[0].elided <==> |text| >= FLOOD)
  {
    hide Run, TotalOutput, Turns, Keys;
    FloodElidesIff(COMMANDS, command, text);
  }
}

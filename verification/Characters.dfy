/** Text in the scrollback as the parser hands it over: a character at a time. */
module Characters {
  import opened Text
  import opened Json
  import opened Messages
  import opened Blocks
  import opened Retention
  import opened RetentionLaws
  import opened RetentionRuns

  /** The events of some text: one print for each character. */
  function Keys(text: string): seq<Event> {
    if text == "" then [] else [Print(text[..1])] + Keys(text[1..])
  }

  /** Text the parser prints character for character, each of one byte. */
  predicate Printable(text: string) {
    forall c | c in text :: ' ' <= c <= '~'
  }

  lemma {:induction false} PrintableBytes(text: string)
    requires Printable(text)
    ensures Bytes(text) == |text|
  {
    if text != "" {
      assert text[0] in text && forall c | c in text[1..] :: c in text;
      PrintableBytes(text[1..]);
    }
  }

  lemma {:induction false} KeysInTwo(a: string, b: string)
    ensures Keys(a + b) == Keys(a) + Keys(b)
  {
    if a == "" {
      assert a + b == b;
    } else {
      assert (a + b)[1..] == a[1..] + b && (a + b)[..1] == a[..1];
      KeysInTwo(a[1..], b);
    }
  }

  lemma RunOfKeys(s: State, text: string)
    requires Shape(s)
    ensures Run(s, Keys(text)) == if text == "" then s else Run(Step(s, Print(text[..1])), Keys(text[1..]))
  {
    hide Step;
    if text != "" {
      RunFirst(s, Print(text[..1]), Keys(text[1..]));
    }
  }

  lemma FirstKey(text: string)
    requires text != "" && Printable(text)
    ensures Printable(text[..1]) && Printable(text[1..]) && Bytes(text[..1]) == 1 && text == text[..1] + text[1..]
  {
    assert text[..1] == [text[0]] && text[0] in text && forall c | c in text[1..] :: c in text;
    PrintableBytes(text[..1]);
  }

  // ------------------------------------------------------------------------
  // When a check finds too much
  // ------------------------------------------------------------------------

  /** Whether no check that falls due in the next `n` bytes, counted one by one, finds the budget passed: the last of
      them finds the most. */
  predicate Fits(s: State, n: nat) {
    var checked := (s.since + n) / BUDGET_CHECK_INTERVAL_BYTES * BUDGET_CHECK_INTERVAL_BYTES;
    checked == 0 || Retained(s.blocks) + checked <= MAX_RETAINED_OUTPUT_BYTES + s.since
  }

  /** The state after one byte more, written to the block list and counted, if no check finds too much. */
  function Noted(s: State, blocks: seq<Block>): State {
    s.(blocks := blocks, since := (s.since + 1) % BUDGET_CHECK_INTERVAL_BYTES)
  }

  /** Whether the next byte sets off a check that finds the budget passed. */
  predicate Full(s: State) {
    s.since + 1 >= BUDGET_CHECK_INTERVAL_BYTES && Retained(s.blocks) + 1 > MAX_RETAINED_OUTPUT_BYTES
  }

  lemma NextByte(s: State, blocks: seq<Block>)
    requires s.blocks != [] && s.cursor < |blocks| && s.since < BUDGET_CHECK_INTERVAL_BYTES
    requires Retained(blocks) == Retained(s.blocks) + 1 && !Full(s)
    ensures NoteGrowth(s.(blocks := blocks), 1) == Noted(s, blocks)
  {
    hide Retained, Evicted, TrimCurrent;
  }

  /** What fits byte by byte. */
  lemma FitsNext(s: State, blocks: seq<Block>, n: nat)
    requires s.since < BUDGET_CHECK_INTERVAL_BYTES && Retained(blocks) == Retained(s.blocks) + 1 && n > 0
    ensures Fits(s, n) <==> !Full(s) && Fits(Noted(s, blocks), n - 1)
  {
    hide Retained;
    NextRound(s.since, n);
  }

  /** What is counted up to the last check due, one byte on. */
  lemma NextRound(since: nat, n: nat)
    requires since < BUDGET_CHECK_INTERVAL_BYTES && n > 0
    ensures since + 1 < BUDGET_CHECK_INTERVAL_BYTES
      ==> (since + 1) % BUDGET_CHECK_INTERVAL_BYTES == since + 1
    ensures since + 1 == BUDGET_CHECK_INTERVAL_BYTES
      ==> && (since + 1) % BUDGET_CHECK_INTERVAL_BYTES == 0
          && (since + n) / BUDGET_CHECK_INTERVAL_BYTES == (n - 1) / BUDGET_CHECK_INTERVAL_BYTES + 1
  {
  }

  lemma FitsNone(s: State)
    requires s.since < BUDGET_CHECK_INTERVAL_BYTES
    ensures Fits(s, 0)
  {
    hide Retained;
  }

  // ------------------------------------------------------------------------
  // Output a character at a time
  // ------------------------------------------------------------------------

  /** The output with printed text at its end. */
  function Texted(output: seq<Segment>, text: string): seq<Segment> {
    if text == "" then output else WithText(output, text)
  }

  lemma TextedInTwo(output: seq<Segment>, a: string, b: string)
    ensures Texted(Texted(output, a), b) == Texted(output, a + b)
  {
    if a == "" {
      assert a + b == b;
    } else if b == "" {
      assert a + b == a;
    } else if output != [] && output[|output| - 1].Plain? {
      Assoc(output[|output| - 1].text, a, b);
    }
  }

  /** A state in which printed characters become output. */
  predicate Printing(s: State) {
    Shape(s) && s.since < BUDGET_CHECK_INTERVAL_BYTES && s.phase == Output && s.activeLink == None
  }

  /** The block list once text is printed to it. */
  function WithPrinted(s: State, text: string): seq<Block>
    requires Shape(s)
  {
    WithCurrent(s.blocks, Current(s.blocks).(output := Texted(Current(s.blocks).output, text)))
  }

  lemma PrintedInTwo(s: State, t: State, a: string, b: string)
    requires Shape(s) && Shape(t) && t.blocks == WithPrinted(s, a)
    ensures WithPrinted(t, b) == WithPrinted(s, a + b)
  {
    TextedInTwo(Current(s.blocks).output, a, b);
  }

  lemma PrintedRetained(s: State, key: string)
    requires Shape(s)
    ensures Retained(WithPrinted(s, key)) == Retained(s.blocks) + Bytes(key)
  {
    hide Retained, Bytes, OutputBytes, WithText;
    var current := Current(s.blocks);
    WithTextAppends(current.output, key);
    BlockReplaced(s.blocks, |s.blocks| - 1, current.(output := Texted(current.output, key)));
    if key == "" {
      assert Bytes("") == 0 by { NoBytes(); }
    }
  }

  lemma NoBytes()
    ensures Bytes("") == 0
  {
  }

  lemma KeyPrinted(s: State, key: string)
    requires Printing(s) && key != "" && Bytes(key) == 1 && !Full(s)
    ensures Step(s, Print(key)) == Noted(s, WithPrinted(s, key))
  {
    hide Retained, NoteGrowth, Bytes, WithText;
    PrintedRetained(s, key);
    NextByte(s, WithPrinted(s, key));
  }

  /** Output that fits is appended whole, and the count goes round with it. */
  lemma {:induction false} KeysPrinted(s: State, text: string)
    requires Printing(s) && Printable(text) && Fits(s, |text|)
    ensures var t := Run(s, Keys(text));
      && t == s.(blocks := WithPrinted(s, text), since := (s.since + |text|) % BUDGET_CHECK_INTERVAL_BYTES)
      && Retained(t.blocks) == Retained(s.blocks) + |text|
    decreases |text|
  {
    hide Step, Retained, Run, Keys, Bytes, Fits, Full, WithText;
    RunOfKeys(s, text);
    if text == "" {
      assert WithPrinted(s, text) == s.blocks;
    } else {
      var key, rest := text[..1], text[1..];
      FirstKey(text);
      PrintedRetained(s, key);
      FitsNext(s, WithPrinted(s, key), |text|);
      KeyPrinted(s, key);
      var t := Step(s, Print(key));
      KeysPrinted(t, rest);
      PrintedInTwo(s, t, key, rest);
      Rounds(s.since, |rest|);
    }
  }

  lemma Rounds(since: nat, n: nat)
    ensures ((since + 1) % BUDGET_CHECK_INTERVAL_BYTES + n) % BUDGET_CHECK_INTERVAL_BYTES
      == (since + (n + 1)) % BUDGET_CHECK_INTERVAL_BYTES
  {
  }

  /** Output that does not fit is appended up to a character whose check finds the budget passed. */
  lemma {:induction false} KeysFill(s: State, text: string) returns (n: nat)
    requires Printing(s) && Printable(text) && !Fits(s, |text|)
    ensures n < |text| && Fits(s, n) && Full(Run(s, Keys(text[..n])))
    decreases |text|
  {
    hide Step, Retained, Run, Keys, Bytes, Fits, Full, WithText;
    FitsNone(s);
    var key, rest := text[..1], text[1..];
    FirstKey(text);
    PrintedRetained(s, key);
    FitsNext(s, WithPrinted(s, key), |text|);
    if Full(s) {
      n := 0;
      RunOfKeys(s, text[..0]);
    } else {
      KeyPrinted(s, key);
      var t := Step(s, Print(key));
      var m := KeysFill(t, rest);
      n := m + 1;
      FitsNext(s, WithPrinted(s, key), n);
      RunOfKeys(s, text[..n]);
      assert text[..n][..1] == key && text[..n][1..] == rest[..m];
    }
  }

  /** Text up to a character, the character, and what comes after it. */
  lemma RunAround(s: State, text: string, n: nat)
    requires Shape(s) && n < |text|
    ensures Run(s, Keys(text)) == Run(Step(Run(s, Keys(text[..n])), Print(text[n..][..1])), Keys(text[n + 1..]))
  {
    hide Step, Run, Keys;
    KeysInTwo(text[..n], text[n..]);
    assert text == text[..n] + text[n..];
    RunInTwo(s, Keys(text[..n]), Keys(text[n..]));
    RunOfKeys(Run(s, Keys(text[..n])), text[n..]);
    assert text[n..][1..] == text[n + 1..];
  }

  // ------------------------------------------------------------------------
  // A link a character at a time
  // ------------------------------------------------------------------------

  /** Output whose last segment is one link to `url`, holding `text` after what was in it, where the last was a link to
      the same place, and otherwise `text` alone; all else is as it was. */
  predicate InOneLink(output: seq<Segment>, after: seq<Segment>, text: string, url: string) {
    if EndsInLink(output, url)
    then after == output[..|output| - 1] + [Link(output[|output| - 1].text + text, url)]
    else after == output + [Link(text, url)]
  }

  /** A state in which printed characters become the text of a link. */
  predicate Linking(s: State, url: string) {
    Shape(s) && s.phase == Output && s.activeLink == Some(url)
  }

  /** What linked text takes: its url only where it starts a link. */
  function LinkCost(s: State, text: string, url: string): nat
    requires Shape(s)
  {
    Bytes(text) + if EndsInLink(Current(s.blocks).output, url) then 0 else Bytes(url)
  }

  /** While all that is retained fits, a check changes nothing. */
  lemma QuietGrowth(s: State, bytes: nat)
    requires Shape(s) && Retained(s.blocks) <= MAX_RETAINED_OUTPUT_BYTES
    ensures NoteGrowth(s, bytes) == s.(since := NoteGrowth(s, bytes).since)
  {
  }

  lemma LinkRetained(s: State, key: string, url: string)
    requires Shape(s)
    ensures Retained(WithOutput(s, WithLink(Current(s.blocks).output, key, url)).blocks)
      == Retained(s.blocks) + LinkCost(s, key, url)
  {
    hide Retained, Bytes, OutputBytes, WithLink, EndsInLink;
    var current := Current(s.blocks);
    WithLinkAppends(current.output, key, url);
    BlockReplaced(s.blocks, |s.blocks| - 1, current.(output := WithLink(current.output, key, url)));
  }

  lemma LinkJoins(output: seq<Segment>, text: string, url: string)
    ensures InOneLink(output, WithLink(output, text, url), text, url)
    ensures EndsInLink(WithLink(output, text, url), url)
  {
    if EndsInLink(output, url) {
      assert output[|output| - 1 := Link(output[|output| - 1].text + text, url)]
        == output[..|output| - 1] + [Link(output[|output| - 1].text + text, url)];
    }
  }

  lemma KeyLinked(s: State, key: string, url: string)
    requires Linking(s, url) && Retained(s.blocks) + LinkCost(s, key, url) <= MAX_RETAINED_OUTPUT_BYTES
    ensures var t := Step(s, Print(key));
      && t == WithOutput(s, WithLink(Current(s.blocks).output, key, url)).(since := t.since)
      && Retained(t.blocks) == Retained(s.blocks) + LinkCost(s, key, url)
  {
    hide Retained, NoteGrowth, Bytes, WithLink, LinkCost;
    LinkRetained(s, key, url);
    var linked := WithOutput(s, WithLink(Current(s.blocks).output, key, url));
    QuietGrowth(linked, Bytes(url));
    QuietGrowth(NoteGrowth(linked, Bytes(url)), Bytes(key));
  }

  lemma LinkGrows(output: seq<Segment>, once: seq<Segment>, after: seq<Segment>, a: string, b: string, url: string)
    requires InOneLink(output, once, a, url) && InOneLink(once, after, b, url)
    ensures InOneLink(output, after, a + b, url)
  {
    if EndsInLink(output, url) {
      Assoc(output[|output| - 1].text, a, b);
    }
  }

  /** Whatever is printed inside a hyperlink, a character at a time, becomes one link holding all of it in order, as
      long as all that is retained fits the budget. */
  lemma {:induction false} KeysLinked(s: State, text: string, url: string)
    requires Linking(s, url) && text != ""
    requires Retained(s.blocks) + LinkCost(s, text, url) <= MAX_RETAINED_OUTPUT_BYTES
    ensures var t := Run(s, Keys(text));
      && t == s.(blocks := t.blocks, since := t.since)
      && t.blocks == WithCurrent(s.blocks, Current(s.blocks).(output := Current(t.blocks).output))
      && InOneLink(Current(s.blocks).output, Current(t.blocks).output, text, url)
    decreases |text|
  {
    hide Step, Retained, Run, Keys, WithLink, InOneLink, Bytes, EndsInLink;
    RunOfKeys(s, text);
    var key, rest := text[..1], text[1..];
    BytesOfConcat(key, rest);
    assert text == key + rest;
    LinkJoins(Current(s.blocks).output, key, url);
    KeyLinked(s, key, url);
    var once := Step(s, Print(key));
    if rest == "" {
      RunOfKeys(once, rest);
      assert key + rest == key;
    } else {
      KeysLinked(once, rest, url);
      LinkGrows(Current(s.blocks).output, Current(once.blocks).output, Current(Run(once, Keys(rest)).blocks).output,
                key, rest, url);
    }
  }

  // ------------------------------------------------------------------------
  // A command line a character at a time
  // ------------------------------------------------------------------------

  /** A state in which printed characters become the command line. */
  predicate Typing(s: State) {
    Shape(s) && s.since < BUDGET_CHECK_INTERVAL_BYTES && s.phase == Input
  }

  /** The block list once text is typed to it. */
  function WithTyped(s: State, text: string): seq<Block>
    requires Shape(s)
  {
    WithCurrent(s.blocks, Current(s.blocks).(command := Current(s.blocks).command + text))
  }

  lemma TypedCommand(s: State, key: string)
    requires Shape(s)
    ensures var blocks := WithTyped(s, key);
      blocks != [] && Bytes(Current(blocks).command) == Bytes(Current(s.blocks).command) + Bytes(key)
  {
    hide Bytes;
    BytesOfConcat(Current(s.blocks).command, key);
  }

  lemma NothingTyped(s: State)
    requires Shape(s)
    ensures WithTyped(s, "") == s.blocks
  {
    assert Current(s.blocks).command + "" == Current(s.blocks).command;
  }

  lemma TypedInTwo(s: State, t: State, a: string, b: string)
    requires Shape(s) && Shape(t) && t.blocks == WithTyped(s, a)
    ensures WithTyped(t, b) == WithTyped(s, a + b)
  {
    Assoc(Current(s.blocks).command, a, b);
  }

  lemma TypedRetained(s: State, key: string)
    requires Shape(s)
    ensures Retained(WithTyped(s, key)) == Retained(s.blocks) + Bytes(key)
  {
    hide Retained, Bytes, OutputBytes;
    var current := Current(s.blocks);
    BytesOfConcat(current.command, key);
    BlockReplaced(s.blocks, |s.blocks| - 1, current.(command := current.command + key));
  }

  /** Text that fits is taken whole. */
  lemma {:induction false} HeadIsAll(text: string, room: nat)
    requires Bytes(text) <= room
    ensures Head(text, room) == text
  {
    if text != "" {
      HeadIsAll(text[1..], room - CharBytes(text[0]));
    }
  }

  lemma KeyTyped(s: State, key: string)
    requires Typing(s) && Bytes(key) == 1 && Bytes(Current(s.blocks).command) < MAX_COMMAND_BYTES && !Full(s)
    ensures Step(s, Print(key)) == Noted(s, WithTyped(s, key))
  {
    hide Retained, NoteGrowth, Bytes, Head;
    HeadIsAll(key, MAX_COMMAND_BYTES - Bytes(Current(s.blocks).command));
    TypedRetained(s, key);
    NextByte(s, WithTyped(s, key));
  }

  /** A command line within its cap is kept whole, and the count goes round with it. */
  lemma {:induction false} KeysTyped(s: State, text: string)
    requires Typing(s) && Printable(text) && Fits(s, |text|)
    requires Bytes(Current(s.blocks).command) + |text| <= MAX_COMMAND_BYTES
    ensures var t := Run(s, Keys(text));
      && t == s.(blocks := WithTyped(s, text), since := (s.since + |text|) % BUDGET_CHECK_INTERVAL_BYTES)
      && Retained(t.blocks) == Retained(s.blocks) + |text|
    decreases |text|
  {
    hide Step, Retained, Run, Keys, Bytes, Fits, Full, WithTyped, Current;
    RunOfKeys(s, text);
    if text == "" {
      NothingTyped(s);
    } else {
      var key, rest := text[..1], text[1..];
      FirstKey(text);
      TypedCommand(s, key);
      TypedRetained(s, key);
      FitsNext(s, WithTyped(s, key), |text|);
      KeyTyped(s, key);
      var t := Step(s, Print(key));
      KeysTyped(t, rest);
      TypedInTwo(s, t, key, rest);
      Rounds(s.since, |rest|);
    }
  }

  // ------------------------------------------------------------------------
  // One command, from its prompt to its end
  // ------------------------------------------------------------------------

  /** A prompt, a command typed at it, what it prints, and the code it ends with. */
  function CommandRun(command: string, text: string, code: Option<int>): seq<Event> {
    [PromptStart, CommandStart] + (Keys(command) + ([OutputStart] + (Keys(text) + [CommandEnd(code)])))
  }

  /** The blocks a prompt leaves behind: all but a current one that nothing was typed or printed in. */
  function Behind(s: State): seq<Block>
    requires Shape(s)
  {
    if IsEmpty(Current(s.blocks)) then s.blocks[..|s.blocks| - 1] else s.blocks
  }

  lemma RoomFits(s: State, n: nat)
    requires Retained(s.blocks) + n <= MAX_RETAINED_OUTPUT_BYTES
    ensures Fits(s, n)
  {
    hide Retained;
  }

  lemma CommandRunSteps(s: State, command: string, text: string, code: Option<int>)
    requires Shape(s)
    ensures var prompted := Step(Step(s, PromptStart), CommandStart);
      Run(s, CommandRun(command, text, code))
        == Step(Run(Step(Run(prompted, Keys(command)), OutputStart), Keys(text)), CommandEnd(code))
  {
    hide Step, Run, Keys;
    var last := Keys(text) + [CommandEnd(code)];
    RunInTwo(s, [PromptStart, CommandStart], Keys(command) + ([OutputStart] + last));
    assert [PromptStart, CommandStart] == [PromptStart] + [CommandStart];
    RunFirst(s, PromptStart, [CommandStart]);
    RunOfOne(Step(s, PromptStart), CommandStart);
    var prompted := Step(Step(s, PromptStart), CommandStart);
    RunInTwo(prompted, Keys(command), [OutputStart] + last);
    var typed := Run(prompted, Keys(command));
    RunFirst(typed, OutputStart, last);
    RunInTwo(Step(typed, OutputStart), Keys(text), [CommandEnd(code)]);
    RunOfOne(Run(Step(typed, OutputStart), Keys(text)), CommandEnd(code));
  }

  /** The state a prompt leaves to type into. */
  lemma PromptedTo(s: State)
    requires Inv(s) && |Behind(s)| < MAX_BLOCKS
    ensures var t := Step(Step(s, PromptStart), CommandStart);
      && Typing(t) && t.since == s.since && t.activeLink == None && t.live == s.live && t.cwd == s.cwd
      && |t.blocks| == |Behind(s)| + 1 && t.blocks[..|Behind(s)|] == Behind(s)
      && Current(t.blocks) == EMPTY_BLOCK.(cwd := s.cwd, exitCode := Current(t.blocks).exitCode)
      && Retained(t.blocks) == Retained(s.blocks)
  {
    hide Retained, IndexExact, BlocksSound;
    CurrentNotElided(s);
    var t := Step(Step(s, PromptStart), CommandStart);
    RetainedConcat(Behind(s), [Current(t.blocks)]);
    assert t.blocks == Behind(s) + [Current(t.blocks)];
    NothingIn(Current(t.blocks));
    if IsEmpty(Current(s.blocks)) {
      RetainedConcat(Behind(s), [Current(s.blocks)]);
      NothingIn(Current(s.blocks));
      assert s.blocks == Behind(s) + [Current(s.blocks)];
    }
  }

  lemma NothingIn(block: Block)
    requires IsEmpty(block)
    ensures Retained([block]) == 0
  {
    assert [block][1..] == [];
  }

  /** While it all fits the budget, a command is kept as a block of its own after those there were: the line typed, the
      directory of the session, all it printed in order, and the code it ended with. */
  lemma CommandRecorded(s: State, command: string, text: string, code: Option<int>)
    requires Inv(s) && |Behind(s)| < MAX_BLOCKS && Printable(command) && Printable(text)
    requires |command| <= MAX_COMMAND_BYTES
    requires Retained(s.blocks) + |command| + |text| <= MAX_RETAINED_OUTPUT_BYTES
    ensures var t := Run(s, CommandRun(command, text, code));
      && t.blocks == Behind(s) + [Block(command, s.cwd, code, false, if text == "" then [] else [Plain(text)])]
      && t.live == s.live && t.cwd == s.cwd && t.phase == Output && t.activeLink == None
  {
    hide Inv, Run, Keys, Retained, Fits, WithText, IsEmpty, Bytes, Behind;
    InvShape(s);
    CommandRunSteps(s, command, text, code);
    PromptedTo(s);
    var prompted := Step(Step(s, PromptStart), CommandStart);
    hide Step;
    NoBytes();
    RoomFits(prompted, |command|);
    KeysTyped(prompted, command);
    var typed := Run(prompted, Keys(command));
    OutputBegun(typed);
    var begun := Step(typed, OutputStart);
    RoomFits(begun, |text|);
    KeysPrinted(begun, text);
    var printed := Run(begun, Keys(text));
    CommandEnded(printed, code);
    assert "" + command == command;
    TextedFromNone(text);
    var n := |Behind(s)|;
    assert Current(prompted.blocks) == prompted.blocks[n];
  }

  lemma OutputBegun(s: State)
    requires Shape(s)
    ensures Step(s, OutputStart) == s.(sawMarks := true, phase := Output)
  {
  }

  lemma CommandEnded(s: State, code: Option<int>)
    requires Shape(s)
    ensures Step(s, CommandEnd(code))
      == s.(sawMarks := true, phase := Output, blocks := WithCurrent(s.blocks, Current(s.blocks).(exitCode := code)))
  {
  }

  lemma TextedFromNone(text: string)
    ensures Texted([], text) == if text == "" then [] else [Plain(text)]
  {
    assert [] + [Plain(text)] == [Plain(text)];
  }

  // ------------------------------------------------------------------------
  // Output that elides
  // ------------------------------------------------------------------------

  /** A character whose check finds the budget passed elides the oldest block not yet elided. */
  lemma FullElides(s: State, key: string)
    requires Inv(s) && Printing(s) && s.cursor < |s.blocks| - 1 && key != "" && Bytes(key) == 1 && Full(s)
    ensures s.cursor < Step(s, Print(key)).cursor
  {
    hide Retained, Enforced, Bytes, IndexExact, BlocksSound, WithText;
    var current := Current(s.blocks);
    TextKeepsLives(current.output, key);
    CurrentNotElided(s);
    var noted := s.(blocks := WithPrinted(s, key));
    CurrentRewritten(s, current.(output := Texted(current.output, key)));
    PrintedRetained(s, key);
    var reset := noted.(since := 0);
    SameLivesKeepIndex(noted, reset);
    EnforcedExactly(reset, reset.cursor);
    EnforcedKeepsInv(reset);
    assert reset.blocks[reset.cursor..reset.cursor] == [];
    NothingRetained();
  }

  lemma NothingRetained()
    ensures Retained([]) == 0
  {
  }

  /** Printed output elides the oldest block not yet elided exactly when it brings on a check that finds the budget
      passed, command lines and all. */
  lemma PrintedElidesIff(s: State, text: string)
    requires Inv(s) && Printing(s) && Printable(text) && s.cursor < |s.blocks| - 1
    ensures Run(s, Keys(text)).blocks[s.cursor].elided <==> !Fits(s, |text|)
  {
    hide Inv, Step, Run, Keys, Fits, Full, WithText, Retained, Bytes;
    var t := Run(s, Keys(text));
    RunKeepsInv(s, Keys(text));
    if Fits(s, |text|) {
      KeysPrinted(s, text);
      ElidedBehind(s);
    } else {
      var n := KeysFill(s, text);
      var front := text[..n];
      assert forall c | c in front :: c in text;
      KeysPrinted(s, front);
      RunKeepsInv(s, Keys(front));
      RunAround(s, text, n);
      var full, key := Run(s, Keys(front)), text[n..][..1];
      assert key == [text[n]] && text[n] in text;
      PrintableBytes(key);
      FullElides(full, key);
      StepKeepsInv(full, Print(key));
      RunKeepsElided(Step(full, Print(key)), Keys(text[n + 1..]), s.cursor);
    }
  }

  lemma ElidedBehind(s: State)
    requires Inv(s)
    ensures Shape(s) && !s.blocks[s.cursor].elided
  {
  }

  lemma RunKeepsElided(s: State, events: seq<Event>, i: nat)
    requires Inv(s) && i < s.cursor
    ensures Run(s, events).blocks[i].elided
  {
    hide Inv, Step, Run;
    InvShape(s);
    ElidedForGood(s, events, i);
  }
}

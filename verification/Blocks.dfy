/** The block list's parts: one command's output as a run of segments. */
module Blocks {
  import opened Text
  import opened Json
  import opened Messages
  import P = Patch

  // ------------------------------------------------------------------------
  // Segments
  // ------------------------------------------------------------------------

  /** A live block: its opening spec, the state patches have brought it to, and that state's size. */
  datatype LiveBlock = LiveBlock(
    closed: bool, id: nat, mime: string, initial: Value, current: Value, currentBytes: nat, revision: nat)

  datatype Segment =
    | Content(bundle: Bundle, id: nat, trust: Tier)
    | Link(text: string, url: string)
    | Live(live: LiveBlock)
    | Plain(text: string)

  function Opened(id: nat, mime: string, spec: Value): LiveBlock {
    LiveBlock(false, id, mime, spec, spec, JsonBytes(spec), 0)
  }

  /** The live block with one more patch folded in. */
  function Folded(live: LiveBlock, patch: Value): LiveBlock {
    var current := P.Patched(live.current, patch);
    live.(current := current, currentBytes := JsonBytes(current), revision := live.revision + 1)
  }

  method Fold(live: LiveBlock, patch: Value) returns (folded: LiveBlock, grew: nat)
    ensures folded == Folded(live, patch)
    ensures live.currentBytes + grew >= folded.currentBytes
    ensures grew > 0 ==> live.currentBytes + grew == folded.currentBytes
  {
    var document := new P.Document(live.current);
    document.Apply(patch);
    var bytes := JsonBytes(document.value);
    folded := live.(current := document.value, currentBytes := bytes, revision := live.revision + 1);
    grew := if bytes < live.currentBytes then 0 else bytes - live.currentBytes;
  }

  function BundleBytes(bundle: Bundle): nat {
    SumMap(map m | m in bundle.mime :: Bytes(m) + JsonBytes(bundle.mime[m]))
  }

  /** Bytes of payload one segment holds. */
  function SegmentBytes(segment: Segment): nat {
    match segment
    case Content(bundle, _, _) => BundleBytes(bundle)
    case Link(text, url) => Bytes(text) + Bytes(url)
    case Live(live) => JsonBytes(live.initial) + live.currentBytes
    case Plain(text) => Bytes(text)
  }

  // ------------------------------------------------------------------------
  // Output
  // ------------------------------------------------------------------------

  function OutputBytes(output: seq<Segment>): nat {
    if output == [] then 0 else SegmentBytes(output[0]) + OutputBytes(output[1..])
  }

  /** The plain text of the output; links and rich blocks are skipped. */
  function OutputText(output: seq<Segment>): string {
    if output == [] then ""
    else (if output[0].Plain? then output[0].text else "") + OutputText(output[1..])
  }

  lemma {:induction false} OutputConcat(a: seq<Segment>, b: seq<Segment>)
    ensures OutputBytes(a + b) == OutputBytes(a) + OutputBytes(b)
    ensures OutputText(a + b) == OutputText(a) + OutputText(b)
  {
    hide SegmentBytes;
    if a == [] {
      assert a + b == b;
    } else {
      assert (a + b)[1..] == a[1..] + b;
      OutputConcat(a[1..], b);
      var first := if a[0].Plain? then a[0].text else "";
      assert first + (OutputText(a[1..]) + OutputText(b)) == OutputText(a) + OutputText(b);
    }
  }

  lemma OneSegment(segment: Segment)
    ensures OutputBytes([segment]) == SegmentBytes(segment)
    ensures OutputText([segment]) == if segment.Plain? then segment.text else ""
  {
    assert OutputBytes([segment][1..]) == 0;
  }

  function WithText(output: seq<Segment>, text: string): seq<Segment> {
    if output != [] && output[|output| - 1].Plain?
    then output[|output| - 1 := Plain(output[|output| - 1].text + text)]
    else output + [Plain(text)]
  }

  function WithLink(output: seq<Segment>, text: string, url: string): seq<Segment> {
    if output != [] && output[|output| - 1].Link? && output[|output| - 1].url == url
    then output[|output| - 1 := Link(output[|output| - 1].text + text, url)]
    else output + [Link(text, url)]
  }

  lemma LastSegment(front: seq<Segment>, last: Segment)
    ensures OutputBytes(front + [last]) == OutputBytes(front) + SegmentBytes(last)
    ensures OutputText(front + [last]) == OutputText(front) + if last.Plain? then last.text else ""
  {
    OutputConcat(front, [last]);
    OneSegment(last);
  }

  lemma LongerLast(front: seq<Segment>, last: string, text: string)
    ensures OutputBytes(front + [Plain(last + text)]) == OutputBytes(front + [Plain(last)]) + Bytes(text)
    ensures OutputText(front + [Plain(last + text)]) == OutputText(front + [Plain(last)]) + text
  {
    hide OutputBytes, OutputText, Bytes;
    LastSegment(front, Plain(last));
    LastSegment(front, Plain(last + text));
    BytesOfConcat(last, text);
    assert OutputText(front) + (last + text) == OutputText(front) + last + text;
  }

  /** Coalesced or not, appended text adds its own bytes and reads after what was there. */
  lemma WithTextAppends(output: seq<Segment>, text: string)
    ensures OutputBytes(WithText(output, text)) == OutputBytes(output) + Bytes(text)
    ensures OutputText(WithText(output, text)) == OutputText(output) + text
  {
    if output != [] && output[|output| - 1].Plain? {
      var front, last := output[..|output| - 1], output[|output| - 1];
      LongerLast(front, last.text, text);
      assert output == front + [last];
      assert WithText(output, text) == front + [Plain(last.text + text)];
    } else {
      LastSegment(output, Plain(text));
    }
  }

  /** Whether more text linked to `url` joins the last segment. */
  predicate EndsInLink(output: seq<Segment>, url: string) {
    output != [] && output[|output| - 1].Link? && output[|output| - 1].url == url
  }

  /** Linked text adds its own bytes, and its url's where it starts a link, and no plain text. */
  lemma WithLinkAppends(output: seq<Segment>, text: string, url: string)
    ensures OutputBytes(WithLink(output, text, url))
      == OutputBytes(output) + Bytes(text) + if EndsInLink(output, url) then 0 else Bytes(url)
    ensures OutputText(WithLink(output, text, url)) == OutputText(output)
  {
    if output != [] && output[|output| - 1].Link? && output[|output| - 1].url == url {
      var front, last := output[..|output| - 1], output[|output| - 1];
      assert output == front + [last] && WithLink(output, text, url) == front + [Link(last.text + text, url)];
      LastSegment(front, last);
      LastSegment(front, Link(last.text + text, url));
      BytesOfConcat(last.text, text);
    } else {
      LastSegment(output, Link(text, url));
    }
  }

  // ------------------------------------------------------------------------
  // Trimming
  // ------------------------------------------------------------------------

  /** One segment with about `toFree` bytes cut from its front: text is cut, a rich block goes whole. */
  function TrimSegment(segment: Segment, toFree: nat): Segment {
    match segment
    case Plain(text) => Plain(Tail(text, toFree))
    case Link(text, url) => var rest := Tail(text, toFree); Link(rest, if rest == "" then "" else url)
    case _ => Plain("")
  }

  lemma TrimSegmentFrees(segment: Segment, toFree: nat)
    ensures var left := SegmentBytes(TrimSegment(segment, toFree));
      && left <= SegmentBytes(segment)
      && (toFree <= SegmentBytes(segment) - left || left == 0)
  {
    match segment
    case Plain(text) => TailDropsEnough(text, toFree);
    case Link(text, _) => TailDropsEnough(text, toFree);
    case _ =>
  }

  /** The output with at least `toFree` bytes cut from its front, every segment kept in its place. */
  function Trimmed(output: seq<Segment>, toFree: nat): (trimmed: seq<Segment>)
    ensures |trimmed| == |output|
    decreases |output|
  {
    if output == [] || toFree == 0 then output
    else
      var first := TrimSegment(output[0], toFree);
      TrimSegmentFrees(output[0], toFree);
      var freed := SegmentBytes(output[0]) - SegmentBytes(first);
      [first] + Trimmed(output[1..], Left(toFree, freed))
  }

  /** Trimming frees what it is asked to, or everything. */
  lemma {:induction false} TrimFrees(output: seq<Segment>, toFree: nat)
    ensures var left := OutputBytes(Trimmed(output, toFree));
      && left <= OutputBytes(output)
      && (toFree <= OutputBytes(output) - left || left == 0)
  {
    if output != [] && toFree != 0 {
      TrimSegmentFrees(output[0], toFree);
      var freed := SegmentBytes(output[0]) - SegmentBytes(TrimSegment(output[0], toFree));
      TrimFrees(output[1..], Left(toFree, freed));
    }
  }

  ghost predicate IsSuffix(a: string, b: string) {
    |a| <= |b| && b[|b| - |a|..] == a
  }

  lemma SuffixOfConcat(a: string, b: string, c: string)
    requires IsSuffix(a, b)
    ensures IsSuffix(a + c, b + c)
  {
    assert (b + c)[|b| - |a|..] == b[|b| - |a|..] + c;
  }

  lemma SuffixBefore(a: string, b: string, c: string)
    requires IsSuffix(a, b)
    ensures IsSuffix("" + a, c + b)
  {
    assert (c + b)[|c + b| - |a|..] == b[|b| - |a|..];
  }

  lemma SuffixTransitive(a: string, b: string, c: string)
    requires IsSuffix(a, b) && IsSuffix(b, c)
    ensures IsSuffix(a, c)
  {
  }

  lemma TrimSegmentKeepsSuffix(segment: Segment, toFree: nat)
    ensures IsSuffix(OutputText([TrimSegment(segment, toFree)]), OutputText([segment]))
  {
    OneSegment(segment);
    OneSegment(TrimSegment(segment, toFree));
  }

  lemma NoBytesNoText(segment: Segment)
    requires SegmentBytes(segment) == 0
    ensures OutputText([segment]) == ""
  {
    OneSegment(segment);
  }

  /** What trimming leaves of the plain text is its end: nothing is lost from the middle. */
  lemma {:induction false} TrimKeepsSuffix(output: seq<Segment>, toFree: nat)
    ensures IsSuffix(OutputText(Trimmed(output, toFree)), OutputText(output))
  {
    hide Trimmed, TrimSegment, SegmentBytes, OutputText;
    TrimOfNothing(output);
    if output != [] && toFree != 0 {
      var rest := output[1..];
      TrimOfNothing(rest);
      TrimStep(output, toFree);
      var freed := SegmentBytes(output[0]) - SegmentBytes(TrimSegment(output[0], toFree));
      var trimmed := Trimmed(rest, Left(toFree, freed));
      TrimKeepsSuffix(rest, Left(toFree, freed));
      TrimSegmentFrees(output[0], toFree);
      assert Left(toFree, freed) == 0 ==> trimmed == rest;
      SuffixStep(output[0], rest, toFree, trimmed);
      assert output == [output[0]] + rest;
    }
  }

  lemma SuffixStep(segment: Segment, rest: seq<Segment>, toFree: nat, trimmed: seq<Segment>)
    requires IsSuffix(OutputText(trimmed), OutputText(rest))
    requires SegmentBytes(TrimSegment(segment, toFree)) == 0 || trimmed == rest
    ensures IsSuffix(OutputText([TrimSegment(segment, toFree)] + trimmed), OutputText([segment] + rest))
  {
    hide TrimSegment, SegmentBytes, OutputText, OutputBytes, IsSuffix;
    var first := TrimSegment(segment, toFree);
    OutputConcat([segment], rest);
    OutputConcat([first], trimmed);
    if SegmentBytes(first) == 0 {
      NoBytesNoText(first);
      SuffixBefore(OutputText(trimmed), OutputText(rest), OutputText([segment]));
    } else {
      TrimSegmentKeepsSuffix(segment, toFree);
      SuffixOfConcat(OutputText([first]), OutputText([segment]), OutputText(rest));
    }
  }

  /** Text, linked or not, is cut to the longest end of it that leaves enough bytes cut away, and a link keeps its url
      as long as any of its text. */
  lemma TrimSegmentKeeps(segment: Segment, toFree: nat)
    ensures segment.Plain? ==> TrimSegment(segment, toFree).Plain?
    ensures segment.Link? ==> var left := TrimSegment(segment, toFree);
      left.Link? && left.url == if left.text == "" then "" else segment.url
    ensures segment.Plain? || segment.Link? ==> var left := TrimSegment(segment, toFree).text;
      && IsSuffix(left, segment.text)
      && (left == "" || toFree <= Bytes(segment.text[..|segment.text| - |left|]))
      && forall n | 0 <= n < |segment.text| - |left| :: Bytes(segment.text[..n]) < toFree
  {
    if segment.Plain? || segment.Link? {
      var text := segment.text;
      TailDropsEnough(text, toFree);
      forall n | 0 <= n < CutChars(text, toFree) ensures Bytes(text[..n]) < toFree {
        var most := text[..CutChars(text, toFree) - 1];
        assert most[..n] + most[n..] == most && most[..n] == text[..n];
        BytesOfConcat(text[..n], most[n..]);
      }
    }
  }

  /** A cut that leaves something of a segment takes at most three bytes more than it was asked to, and so does any cut
      of plain text. */
  lemma CutOvershoots(segment: Segment, toFree: nat)
    ensures var left := SegmentBytes(TrimSegment(segment, toFree));
      left > 0 || segment.Plain? ==> SegmentBytes(segment) - left <= toFree + 3
  {
    match segment
    case Plain(text) => TailOvershoots(text, toFree);
    case Link(text, _) => TailOvershoots(text, toFree);
    case _ =>
  }

  lemma TailOvershoots(text: string, toFree: nat)
    ensures Bytes(text) <= Bytes(Tail(text, toFree)) + toFree + 3
  {
    TailDropsEnough(text, toFree);
    var n := CutChars(text, toFree);
    if n > 0 {
      assert text[..n] == text[..n - 1] + [text[n - 1]];
      BytesOfConcat(text[..n - 1], [text[n - 1]]);
      assert [text[n - 1]][1..] == [];
    }
  }

  /** A trim that empties the first `k` segments, each of them needed, cuts at most the one after them, and that by no
      more than three bytes too many, and leaves every segment past it alone. */
  ghost predicate TrimmedUpTo(output: seq<Segment>, toFree: nat, k: nat) {
    var trimmed := Trimmed(output, toFree);
    && k <= |output|
    && (forall i | 0 <= i < k :: SegmentBytes(trimmed[i]) == 0)
    && (k > 0 ==> OutputBytes(output[..k - 1]) < toFree)
    && (forall i | k < i < |output| :: trimmed[i] == output[i])
    && (k < |output| ==>
          trimmed[k] == output[k] || OutputBytes(output) - OutputBytes(trimmed) <= toFree + 3)
  }

  /** Trimming goes no further than it has to. */
  lemma {:induction false} TrimStops(output: seq<Segment>, toFree: nat)
    ensures exists k: nat :: TrimmedUpTo(output, toFree, k)
  {
    hide TrimSegment, SegmentBytes, Trimmed, OutputBytes;
    TrimOfNothing(output);
    if output == [] || toFree == 0 {
      assert TrimmedUpTo(output, toFree, 0);
    } else {
      var rest := output[1..];
      TrimStep(output, toFree);
      TrimSegmentFrees(output[0], toFree);
      CutOvershoots(output[0], toFree);
      var left := SegmentBytes(TrimSegment(output[0], toFree));
      var freed := SegmentBytes(output[0]) - left;
      TrimOfNothing(rest);
      TrimmedBytes(output, toFree);
      if left > 0 {
        assert TrimmedUpTo(output, toFree, 0);
      } else {
        TrimStops(rest, Left(toFree, freed));
        var k: nat :| TrimmedUpTo(rest, Left(toFree, freed), k);
        NeededToo(output, k);
        assert TrimmedUpTo(output, toFree, k + 1);
      }
    }
  }

  lemma TrimmedBytes(output: seq<Segment>, toFree: nat)
    requires output != [] && toFree > 0
    ensures var first := TrimSegment(output[0], toFree);
      SegmentBytes(first) <= SegmentBytes(output[0]) &&
      var rest := Trimmed(output[1..], Left(toFree, SegmentBytes(output[0]) - SegmentBytes(first)));
      && OutputBytes(output) == SegmentBytes(output[0]) + OutputBytes(output[1..])
      && OutputBytes(Trimmed(output, toFree)) == SegmentBytes(first) + OutputBytes(rest)
  {
    hide TrimSegment, SegmentBytes;
    TrimSegmentFrees(output[0], toFree);
  }

  lemma NeededToo(output: seq<Segment>, k: nat)
    requires output != [] && k < |output|
    ensures OutputBytes([]) == 0
    ensures OutputBytes(output[..k + 1 - 1]) ==
      if k == 0 then 0 else SegmentBytes(output[0]) + OutputBytes(output[1..][..k - 1])
  {
    if k > 0 {
      BytesBefore(output, k);
    }
  }

  /** Plain text is trimmed to within three bytes of what was asked. */
  lemma {:induction false} PlainTrimIsTight(output: seq<Segment>, toFree: nat)
    requires forall i | 0 <= i < |output| :: output[i].Plain?
    ensures OutputBytes(output) <= OutputBytes(Trimmed(output, toFree)) + toFree + 3
  {
    hide TrimSegment, SegmentBytes, Trimmed, OutputBytes;
    TrimOfNothing(output);
    if output != [] && toFree > 0 {
      TrimmedBytes(output, toFree);
      CutOvershoots(output[0], toFree);
      TrimSegmentFrees(output[0], toFree);
      var freed := SegmentBytes(output[0]) - SegmentBytes(TrimSegment(output[0], toFree));
      if freed < toFree {
        PlainTrimIsTight(output[1..], Left(toFree, freed));
      } else {
        TrimOfNothing(output[1..]);
      }
    }
  }

  /** Only rich segments are turned into something else, and into empty text. */
  lemma {:induction false} TrimmedAt(output: seq<Segment>, toFree: nat, at: nat)
    requires at < |output|
    ensures Trimmed(output, toFree)[at].Live? ==> Trimmed(output, toFree)[at] == output[at]
  {
    hide TrimSegment, SegmentBytes, Trimmed;
    if toFree == 0 {
      TrimOfNothing(output);
    } else {
      TrimStep(output, toFree);
      TrimSegmentIsText(output[0], toFree);
      if at > 0 {
        var freed := SegmentBytes(output[0]) - SegmentBytes(TrimSegment(output[0], toFree));
        TrimmedAt(output[1..], Left(toFree, freed), at - 1);
      }
    }
  }

  /** A live segment outlives a trim exactly when the segments before it hold all that has to go. */
  lemma {:induction false} TrimmedLiveIff(output: seq<Segment>, toFree: nat, at: nat)
    requires at < |output| && output[at].Live?
    ensures Trimmed(output, toFree)[at].Live? <==> toFree <= OutputBytes(output[..at])
  {
    hide TrimSegment, SegmentBytes, Trimmed, OutputBytes;
    if toFree == 0 {
      TrimOfNothing(output);
    } else {
      TrimStep(output, toFree);
      TrimSegmentIsText(output[0], toFree);
      NeededToo(output, at);
      if at > 0 {
        TrimSegmentFrees(output[0], toFree);
        var freed := SegmentBytes(output[0]) - SegmentBytes(TrimSegment(output[0], toFree));
        TrimmedLiveIff(output[1..], Left(toFree, freed), at - 1);
        BytesBefore(output, at);
      }
    }
  }

  lemma BytesBefore(output: seq<Segment>, at: nat)
    requires 0 < at <= |output|
    ensures OutputBytes(output[..at]) == SegmentBytes(output[0]) + OutputBytes(output[1..][..at - 1])
  {
    assert output[..at][1..] == output[1..][..at - 1];
  }

  lemma TrimOfNothing(output: seq<Segment>)
    ensures Trimmed(output, 0) == output
    ensures forall toFree: nat :: output == [] ==> Trimmed(output, toFree) == output
  {
  }

  lemma TrimSegmentIsText(segment: Segment, toFree: nat)
    ensures !TrimSegment(segment, toFree).Live?
  {
  }

  /** Remove at least `bytes` from the front of `text`, cutting between characters. */
  method CutFront(text: string, bytes: nat) returns (rest: string, removed: nat)
    ensures rest == Tail(text, bytes)
    ensures removed + Bytes(rest) == Bytes(text)
  {
    TailDropsEnough(text, bytes);
    if bytes >= Bytes(text) {
      return "", Bytes(text);
    }
    var cut := bytes;
    while !IsCharBoundary(text, cut)
      invariant cut <= Bytes(text)
      invariant CutChars(text, cut) == CutChars(text, bytes)
      decreases Bytes(text) - cut
    {
      EndIsBoundary(text);
      TailOffBoundary(text, cut);
      cut := cut + 1;
    }
    BoundaryHead(text, cut);
    rest, removed := text[CharsBefore(text, cut)..], cut;
  }

  // ------------------------------------------------------------------------
  // Command blocks
  // ------------------------------------------------------------------------

  /** What a command block holds. */
  datatype Block = Block(
    command: string, cwd: Option<string>, exitCode: Option<int>, elided: bool, output: seq<Segment>)

  const EMPTY_BLOCK := Block("", None, None, false, [])

  function RetainedBytes(block: Block): nat {
    Bytes(block.command) + OutputBytes(block.output)
  }

  function Elided(block: Block): Block {
    block.(elided := true, output := [])
  }

  class CommandBlock {
    var command: string
    var cwd: Option<string>
    var exitCode: Option<int>
    var elided: bool
    var output: seq<Segment>

    function Model(): Block
      reads this
    {
      Block(command, cwd, exitCode, elided, output)
    }

    constructor ()
      ensures Model() == EMPTY_BLOCK
    {
      command, cwd, exitCode, elided, output := "", None, None, false, [];
    }

    predicate IsEmpty()
      reads this
    {
      command == "" && output == []
    }

    method AppendText(text: string)
      modifies this`output
      ensures output == WithText(old(output), text)
    {
      if output != [] && output[|output| - 1].Plain? {
        output := output[|output| - 1 := Plain(output[|output| - 1].text + text)];
      } else {
        output := output + [Plain(text)];
      }
    }

    method AppendLink(text: string, url: string)
      modifies this`output
      ensures output == WithLink(old(output), text, url)
    {
      if output != [] && output[|output| - 1].Link? && output[|output| - 1].url == url {
        output := output[|output| - 1 := Link(output[|output| - 1].text + text, url)];
      } else {
        output := output + [Link(text, url)];
      }
    }

    method Elide()
      modifies this
      ensures Model() == Elided(old(Model()))
    {
      elided := true;
      output := [];
    }

    /** Free about `toFree` bytes of the oldest output, and say how many were freed. */
    method TrimFront(toFree: nat) returns (freed: nat)
      modifies this`output
      ensures output == Trimmed(old(output), toFree)
      ensures freed + OutputBytes(output) == OutputBytes(old(output))
    {
      output, freed := TrimSegments(output, toFree);
    }
  }

  method TrimSegments(before: seq<Segment>, toFree: nat) returns (output: seq<Segment>, freed: nat)
    ensures output == Trimmed(before, toFree)
    ensures freed + OutputBytes(output) == OutputBytes(before)
  {
    hide Trimmed, TrimSegment, SegmentBytes, OutputBytes, TrimInProgress;
    output, freed := before, 0;
    var at := 0;
    TrimStarts(before, toFree);
    while at < |output| && freed < toFree
      invariant TrimInProgress(before, output, at, toFree, freed) && at <= |output|
    {
      var segment, bytes := TrimOne(output[at], toFree - freed);
      TrimAdvances(before, output, at, toFree, freed, segment, bytes);
      output, freed, at := output[at := segment], freed + bytes, at + 1;
    }
    TrimDone(before, output, at, toFree, freed);
  }

  /** The first `at` segments trimmed, `freed` bytes gone, the rest still to come. */
  ghost predicate TrimInProgress(before: seq<Segment>, output: seq<Segment>, at: nat, toFree: nat, freed: nat) {
    && at <= |output| == |before|
    && output[at..] == before[at..]
    && output[..at] + Trimmed(before[at..], Left(toFree, freed)) == Trimmed(before, toFree)
    && freed + OutputBytes(output) == OutputBytes(before)
  }

  function Left(toFree: nat, freed: nat): nat {
    if freed < toFree then toFree - freed else 0
  }

  lemma TrimStarts(before: seq<Segment>, toFree: nat)
    ensures TrimInProgress(before, before, 0, toFree, 0)
  {
  }

  lemma TrimDone(before: seq<Segment>, output: seq<Segment>, at: nat, toFree: nat, freed: nat)
    requires TrimInProgress(before, output, at, toFree, freed) && (at == |output| || freed >= toFree)
    ensures output == Trimmed(before, toFree)
    ensures freed + OutputBytes(output) == OutputBytes(before)
  {
    var rest := before[at..];
    assert Trimmed(rest, Left(toFree, freed)) == rest;
    assert output[..at] + output[at..] == output;
  }

  lemma TrimAdvances(
    before: seq<Segment>, output: seq<Segment>, at: nat, toFree: nat, freed: nat, segment: Segment, bytes: nat)
    requires TrimInProgress(before, output, at, toFree, freed) && at < |output| && freed < toFree
    requires segment == TrimSegment(output[at], toFree - freed)
    requires bytes + SegmentBytes(segment) == SegmentBytes(output[at])
    ensures TrimInProgress(before, output[at := segment], at + 1, toFree, freed + bytes)
  {
    hide Trimmed, TrimSegment, SegmentBytes, OutputBytes;
    var rest, next, front := before[at..], before[at + 1..], output[..at];
    assert rest[0] == output[at] && rest[1..] == next by {
      assert rest[0] == output[at..][0];
    }
    TrimStep(rest, toFree - freed);
    assert Left(toFree - freed, bytes) == Left(toFree, freed + bytes);
    var tail := Trimmed(next, Left(toFree, freed + bytes));
    var output' := output[at := segment];
    assert output'[..at + 1] + tail == front + ([segment] + tail);
    assert output'[at + 1..] == next by {
      assert output[at + 1..] == output[at..][1..];
    }
    SegmentReplaced(output, at, segment);
  }

  lemma TrimStep(output: seq<Segment>, toFree: nat)
    requires output != [] && toFree > 0
    ensures var left := SegmentBytes(TrimSegment(output[0], toFree));
      left <= SegmentBytes(output[0]) &&
      var freed := SegmentBytes(output[0]) - left;
      Trimmed(output, toFree)
        == [TrimSegment(output[0], toFree)] + Trimmed(output[1..], Left(toFree, freed))
  {
    TrimSegmentFrees(output[0], toFree);
  }

  /** One segment's share of a trim, and how many bytes it freed. */
  method TrimOne(segment: Segment, remaining: nat) returns (trimmed: Segment, bytes: nat)
    ensures trimmed == TrimSegment(segment, remaining)
    ensures bytes + SegmentBytes(trimmed) == SegmentBytes(segment)
  {
    match segment {
      case Plain(text) =>
        var rest, cut := CutFront(text, remaining);
        return Plain(rest), cut;
      case Link(text, url) =>
        var rest, cut := CutFront(text, remaining);
        if rest == "" {
          return Link("", ""), cut + Bytes(url);
        }
        return Link(rest, url), cut;
      case _ =>
        return Plain(""), SegmentBytes(segment);
    }
  }

  lemma SegmentReplaced(output: seq<Segment>, at: nat, segment: Segment)
    requires at < |output|
    ensures OutputBytes(output[at := segment]) + SegmentBytes(output[at])
      == OutputBytes(output) + SegmentBytes(segment)
    ensures !segment.Plain? && !output[at].Plain? ==> OutputText(output[at := segment]) == OutputText(output)
  {
    var front, back := output[..at], output[at + 1..];
    assert output == front + ([output[at]] + back);
    assert output[at := segment] == front + ([segment] + back);
    OutputConcat(front, [output[at]] + back);
    OutputConcat(front, [segment] + back);
  }
}

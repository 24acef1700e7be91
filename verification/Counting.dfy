/** An event in two steps: what it writes, and then the bytes it counts towards the next check. */
module Counting {
  import opened Text
  import opened Json
  import opened Messages
  import opened Blocks
  import opened Retention
  import opened RetentionLaws
  import opened RetentionRuns
  import P = Patch

  /** The events whose bytes count towards the next check. */
  predicate Grows(e: Event) {
    e.Print? || e.LineBreak? || e.EmitBlock? || e.PatchBlock?
  }

  /** Text printed inside a hyperlink, which is counted in two parts: its url and itself. */
  predicate Linked(s: State, e: Event) {
    e.Print? && s.phase == Output && s.activeLink.Some?
  }

  /** The block being written, as an event leaves it. */
  function Written(s: State, e: Event): Block
    requires Shape(s)
  {
    var current := Current(s.blocks);
    match e
    case Print(text) => (
      match s.phase
      case Input => current.(command := current.command + Taken(s, text))
      case Output =>
        current.(output := if s.activeLink.Some? then WithLink(current.output, text, s.activeLink.value)
                           else WithText(current.output, text))
      case Prompt => current
    )
    case LineBreak => if s.phase == Output then current.(output := WithText(current.output, "\n")) else current
    case EmitBlock(bundle, id, trust) => current.(output := current.output + [Content(bundle, id, trust)])
    case _ => current
  }

  /** The state in which an event's bytes are counted. */
  function Changed(s: State, e: Event): State
    requires Shape(s)
  {
    if e.PatchBlock? && e.id in s.live && Unclosed(s.blocks, s.live[e.id]) then
      var at := s.live[e.id];
      s.(blocks := WithLive(s.blocks, at, Folded(LiveAt(s.blocks, at), e.patch)))
    else s.(blocks := WithCurrent(s.blocks, Written(s, e)))
  }

  lemma ResetSound(s: State)
    requires Inv(s)
    ensures Inv(s.(since := 0))
  {
    SameLivesKeepIndex(s, s.(since := 0));
  }

  lemma SizeIsRight(s: State, id: nat)
    requires Inv(s) && id in s.live
    ensures AnyLiveAt(s.blocks, s.live[id])
    ensures LiveAt(s.blocks, s.live[id]).currentBytes == JsonBytes(LiveAt(s.blocks, s.live[id]).current)
  {
  }

  lemma WrittenSound(s: State, e: Event)
    requires Inv(s)
    ensures Shape(s)
    ensures var block := Written(s, e);
      && SameLiveSegments(Current(s.blocks).output, block.output)
      && !block.elided && Bytes(block.command) <= MAX_COMMAND_BYTES
  {
    hide Inv, Bytes, SameLiveSegments;
    InvShape(s);
    CurrentNotElided(s);
    var current := Current(s.blocks);
    SameLivesReflexive(current.output);
    match e
    case Print(text) =>
      BytesOfConcat(current.command, Taken(s, text));
      TextKeepsLives(current.output, text);
      if s.activeLink.Some? {
        LinkKeepsLives(current.output, text, s.activeLink.value);
      }
    case LineBreak => TextKeepsLives(current.output, "\n");
    case EmitBlock(bundle, id, trust) => ContentKeepsLives(current.output, Content(bundle, id, trust));
    case _ =>
  }

  lemma ChangedInv(s: State, e: Event)
    requires Inv(s)
    ensures Shape(s) && Inv(Changed(s, e)) && Changed(s, e).since == s.since
  {
    hide Inv, SameLiveSegments, Written, P.Patched;
    InvShape(s);
    WrittenSound(s, e);
    if e.PatchBlock? && e.id in s.live {
      IndexedIsLive(s, e.id);
      PatchKeepsInv(s, e.id, Folded(LiveAt(s.blocks, s.live[e.id]), e.patch));
    } else {
      CurrentRewritten(s, Written(s, e));
    }
  }

  /** An event that counts writes first and counts then. */
  lemma StepNotes(s: State, e: Event)
    requires Inv(s) && Grows(e)
    ensures Shape(s)
    ensures var noted := NoteGrowth(Changed(s, e), if Linked(s, e) then Bytes(s.activeLink.value) else Counted(s, e));
      Step(s, e) == if Linked(s, e) then NoteGrowth(noted, Bytes(e.text)) else noted
  {
    hide Inv, BundleBytes, Enforced, P.Patched, JsonBytes;
    InvShape(s);
    assert WithCurrent(s.blocks, Current(s.blocks)) == s.blocks;
  }
}

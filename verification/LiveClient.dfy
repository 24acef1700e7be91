/** The client's handle to an open live block, and the state its frames leave a terminal in. */
module LiveClient {
  import opened Text
  import opened Json
  import opened Messages
  import P = Patch
  import Diff

  /** What the handle writes: a frame, or the plain fallback outside Winter. */
  datatype Sent = Frame(message: Message) | Plain(text: string)

  // ------------------------------------------------------------------------
  // The terminal
  // ------------------------------------------------------------------------

  /** What a terminal with room for everything holds for one id. */
  datatype Shown = Nothing | Live(current: Value, closed: bool)

  function Receive(shown: Shown, id: nat, sent: Sent): Shown {
    match (shown, sent)
    case (Nothing, Frame(Open(at, _, spec))) => if at == id then Live(spec, false) else shown
    case (Live(current, false), Frame(Patch(at, patch))) =>
      if at == id then Live(P.Patched(current, patch), false) else shown
    case (Live(current, false), Frame(Close(at))) => if at == id then Live(current, true) else shown
    case _ => shown
  }

  function Watch(stream: seq<Sent>, id: nat): Shown {
    if stream == [] then Nothing else Receive(Watch(stream[..|stream| - 1], id), id, stream[|stream| - 1])
  }

  lemma WatchNext(stream: seq<Sent>, id: nat, sent: Sent)
    ensures Watch(stream + [sent], id) == Receive(Watch(stream, id), id, sent)
  {
    assert (stream + [sent])[..|stream|] == stream;
  }

  // ------------------------------------------------------------------------
  // The handle
  // ------------------------------------------------------------------------

  class LiveBlock {
    const id: nat
    const mime: string
    var live: bool
    var stream: seq<Sent>

    /** A handle whose frames the terminal is following. */
    ghost predicate Follows(v: Value)
      reads this
    {
      live ==> Watch(stream, id) == Live(v, false)
    }

    /** Open a block showing `spec`, or outside Winter print the fallback and stay silent. */
    constructor (supported: bool, nextId: nat, mime: string, spec: Value, text: string)
      ensures live == supported && this.mime == mime && id == (if supported then nextId else 0)
      ensures stream == [if supported then Frame(Open(nextId, mime, spec)) else Plain(text)]
      ensures Follows(spec)
    {
      this.id := if supported then nextId else 0;
      this.mime := mime;
      live := supported;
      stream := [if supported then Frame(Open(nextId, mime, spec)) else Plain(text)];
    }

    method PatchOps(ops: seq<Value>)
      modifies this`stream
      ensures stream == if live then old(stream) + [Frame(Patch(id, Array(ops)))] else old(stream)
    {
      if !live {
        return;
      }
      stream := stream + [Frame(Patch(id, Array(ops)))];
    }

    /** Replace the whole spec: the terminal shows `spec` whatever it showed before. */
    method Update(spec: Value)
      modifies this`stream
      ensures stream == if live then old(stream) + [Frame(WholeUpdate(id, spec))] else old(stream)
      ensures forall v | old(Follows(v)) :: Follows(spec)
    {
      ghost var before := stream;
      PatchOps([Diff.AddOp("", spec)]);
      if live {
        WatchNext(before, id, Frame(WholeUpdate(id, spec)));
        if Watch(before, id).Live? && !Watch(before, id).closed {
          WholeUpdateLands(Watch(before, id), id, spec);
        }
      }
    }

    /** Send what turns `from` into `target`: a terminal showing `from` shows `target`. */
    method UpdateFrom(from: Value, target: Value)
      modifies this`stream
      ensures stream == if live then old(stream) + MinimalUpdate(id, from, target) else old(stream)
      ensures old(Follows(from)) ==> Follows(target)
    {
      ghost var before := stream;
      var ops := Diff.Diff(from, target, "");
      Diff.UpdateRoundTrip(from, target);
      if ops == [] {
        assert stream + [] == stream;
        return;
      }
      if |ops| > P.MAX_PATCH_OPS {
        ops := [Diff.ReplaceOp("", target)];
      }
      PatchOps(ops);
      WatchNext(before, id, Frame(Patch(id, Array(ops))));
    }

    /** End the block; the terminal freezes its last state, and nothing more is sent. */
    method Close()
      modifies this
      ensures !live
      ensures stream == if old(live) then old(stream) + [Frame(Message.Close(id))] else old(stream)
      ensures forall v | old(live) && old(Follows(v)) :: Watch(stream, id) == Live(v, true)
    {
      if !live {
        return;
      }
      WatchNext(stream, id, Frame(Message.Close(id)));
      stream := stream + [Frame(Message.Close(id))];
      live := false;
    }
  }

  function WholeUpdate(id: nat, spec: Value): Message {
    Patch(id, Array([Diff.AddOp("", spec)]))
  }

  function MinimalUpdate(id: nat, from: Value, target: Value): seq<Sent> {
    var ops := Diff.UpdateOps(from, target);
    if ops == [] then [] else [Frame(Patch(id, Array(ops)))]
  }

  lemma WholeUpdateLands(shown: Shown, id: nat, spec: Value)
    requires shown.Live? && !shown.closed
    ensures Receive(shown, id, Frame(WholeUpdate(id, spec))) == Live(spec, false)
  {
    var op := Diff.AddOp("", spec);
    assert Diff.OpReads(op, "add", []);
    Diff.AddApplies(shown.current, op, [], spec);
    Diff.OneOp(shown.current, op);
  }
}

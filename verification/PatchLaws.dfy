/** What a patch's tests decide, and what its writes leave alone. */
module PatchLaws {
  import opened Text
  import opened Json
  import opened Pointer
  import opened Patch
  import opened Diff

  function TestOp(path: string, v: Value): Value {
    Object(map["op" := String("test"), "path" := String(path), "value" := v])
  }

  function CopyOp(from: string, path: string): Value {
    Object(map["op" := String("copy"), "from" := String(from), "path" := String(path)])
  }

  // ------------------------------------------------------------------------
  // Tests
  // ------------------------------------------------------------------------

  /** Whether an operation is a `test` that can be read and whose operand is not what is found. */
  predicate FailsTest(doc: Value, op: Value) {
    && TextField(op, "op") == Some("test") && PointerField(op, "path").Some? && Field(op, "value").Some?
    && Navigate(doc, PointerField(op, "path").value) != Field(op, "value")
  }

  /** Whether no `test` among the operations fails where it is reached. */
  predicate RunsThrough(doc: Value, ops: seq<Value>)
    decreases |ops|
  {
    ops == [] || (!FailsTest(doc, ops[0]) && RunsThrough(OpApplied(doc, ops[0]).0, ops[1..]))
  }

  /** Only a failed `test` stops a patch, and it changes nothing. */
  lemma StopsIffTestFails(doc: Value, op: Value)
    ensures OpApplied(doc, op).1 <==> !FailsTest(doc, op)
    ensures TextField(op, "op") == Some("test") ==> OpApplied(doc, op).0 == doc
  {
    hide Added, Taken, Replaced, NodeCount, Navigate, Field, TextField, PointerField;
  }

  /** What comes after a failed `test` is not applied, and what comes after operations that run through is. */
  lemma {:induction false} AppliedInTwo(doc: Value, a: seq<Value>, b: seq<Value>)
    ensures OpsApplied(doc, a + b)
      == if RunsThrough(doc, a) then OpsApplied(OpsApplied(doc, a), b) else OpsApplied(doc, a)
    decreases |a|
  {
    hide OpApplied, FailsTest;
    if a == [] {
      assert a + b == b;
    } else {
      assert (a + b)[1..] == a[1..] + b;
      StopsIffTestFails(doc, a[0]);
      AppliedInTwo(OpApplied(doc, a[0]).0, a[1..], b);
    }
  }

  lemma TestReads(doc: Value, tokens: seq<string>, v: Value)
    ensures FailsTest(doc, TestOp(PathOf(tokens), v)) <==> Navigate(doc, tokens) != Some(v)
    ensures OpApplied(doc, TestOp(PathOf(tokens), v)).0 == doc
  {
    hide PathOf, Tokens, OpApplied, Navigate;
    PathReadsBack(tokens);
    var op := TestOp(PathOf(tokens), v);
    assert TextField(op, "op") == Some("test") && PointerField(op, "path") == Some(tokens);
    assert Field(op, "value") == Some(v);
    StopsIffTestFails(doc, op);
  }

  /** A `test` first: the rest of the patch alone where the value found equals the operand, and otherwise nothing. */
  lemma TestDecides(doc: Value, tokens: seq<string>, v: Value, rest: seq<Value>)
    ensures OpsApplied(doc, [TestOp(PathOf(tokens), v)] + rest)
      == if Navigate(doc, tokens) == Some(v) then OpsApplied(doc, rest) else doc
  {
    hide OpApplied, FailsTest, Navigate, PathOf, TestOp;
    var op := TestOp(PathOf(tokens), v);
    TestReads(doc, tokens, v);
    StopsIffTestFails(doc, op);
    assert ([op] + rest)[1..] == rest;
  }

  /** A `test` anywhere: what the operations before it leave is all there is unless they run through and it passes. */
  lemma LaterTestDecides(doc: Value, before: seq<Value>, tokens: seq<string>, v: Value, rest: seq<Value>)
    ensures
      var middle := OpsApplied(doc, before);
      OpsApplied(doc, before + ([TestOp(PathOf(tokens), v)] + rest))
        == if RunsThrough(doc, before) && Navigate(middle, tokens) == Some(v) then OpsApplied(middle, rest) else middle
  {
    hide OpApplied, OpsApplied, RunsThrough, Navigate, PathOf, TestOp;
    AppliedInTwo(doc, before, [TestOp(PathOf(tokens), v)] + rest);
    TestDecides(OpsApplied(doc, before), tokens, v, rest);
  }

  /** The operations of a patch within the cap. */
  function Capped(ops: seq<Value>, cap: nat): seq<Value> {
    if |ops| <= cap then ops else ops[..cap]
  }

  /** The same of a whole patch, of which no more than the cap is read: the `test` itself is one of those read. */
  lemma PatchGuarded(doc: Value, tokens: seq<string>, v: Value, rest: seq<Value>)
    ensures Patched(doc, Array([TestOp(PathOf(tokens), v)] + rest))
      == if Navigate(doc, tokens) == Some(v) then Patched(doc, Array(Capped(rest, MAX_PATCH_OPS - 1))) else doc
  {
    hide OpsApplied, Navigate, PathOf, TestOp;
    var test := TestOp(PathOf(tokens), v);
    TestDecides(doc, tokens, v, Capped(rest, MAX_PATCH_OPS - 1));
    assert Capped([test] + rest, MAX_PATCH_OPS) == [test] + Capped(rest, MAX_PATCH_OPS - 1);
  }

  // ------------------------------------------------------------------------
  // Operations that say nothing
  // ------------------------------------------------------------------------

  /** Whether an operation has all that its kind is read by. */
  predicate Understood(op: Value) {
    && PointerField(op, "path").Some?
    && match TextField(op, "op")
       case Some("add") => Field(op, "value").Some?
       case Some("replace") => Field(op, "value").Some?
       case Some("test") => Field(op, "value").Some?
       case Some("move") => PointerField(op, "from").Some?
       case Some("copy") => PointerField(op, "from").Some?
       case Some("remove") => true
       case _ => false
  }

  /** Of any other kind, or with a field missing or of the wrong type, an operation is passed over. */
  lemma PassedOver(doc: Value, op: Value, rest: seq<Value>)
    requires !Understood(op)
    ensures OpsApplied(doc, [op] + rest) == OpsApplied(doc, rest)
  {
    hide Added, Taken, Replaced, NodeCount, Navigate;
    assert ([op] + rest)[1..] == rest;
    assert OpApplied(doc, op) == (doc, true);
  }

  // ------------------------------------------------------------------------
  // What a write leaves alone
  // ------------------------------------------------------------------------

  /** Whether two tokens name the same child. */
  predicate SameChild(v: Value, a: string, b: string) {
    match v
    case Object(fields) => a == b && a in fields
    case Array(_) => Child(v, a).Some? && ParseUnsigned(a, USIZE_LIMIT) == ParseUnsigned(b, USIZE_LIMIT)
    case _ => false
  }

  lemma ChildOfPut(v: Value, token: string, child: Value, other: string)
    requires Child(v, token).Some?
    ensures Child(PutChild(v, token, child), other)
      == if SameChild(v, token, other) then Some(child) else Child(v, other)
    ensures SameChild(v, token, other) ==> Child(v, other) == Child(v, token)
  {
  }

  /** Whether overwriting what is at `to` touches neither what is at `other` nor anything it is in or holds. */
  predicate PutApart(doc: Value, to: seq<string>, other: seq<string>)
    decreases |to|
  {
    && to != [] && other != []
    && (SameChild(doc, to[0], other[0]) ==> PutApart(Child(doc, to[0]).value, to[1..], other[1..]))
  }

  lemma {:induction false} PutElsewhere(doc: Value, to: seq<string>, v: Value, other: seq<string>)
    requires Navigate(doc, to).Some? && PutApart(doc, to, other)
    ensures Navigate(Put(doc, to, v), other) == Navigate(doc, other)
    decreases |to|
  {
    hide PutChild, Child, SameChild;
    var child := Child(doc, to[0]).value;
    ChildOfPut(doc, to[0], Put(child, to[1..], v), other[0]);
    if SameChild(doc, to[0], other[0]) {
      PutElsewhere(child, to[1..], v, other[1..]);
    }
  }

  /** `replace` overwrites what is there and nothing else, node for node, and does nothing where nothing is there. */
  lemma ReplaceOverwrites(doc: Value, tokens: seq<string>, v: Value, other: seq<string>)
    ensures var (after, goOn) := OpApplied(doc, ReplaceOp(PathOf(tokens), v));
      && goOn
      && (Navigate(doc, tokens).None? ==> after == doc)
      && (Navigate(doc, tokens).Some? ==>
            && Navigate(after, tokens) == Some(v)
            && NodeCount(after) + NodeCount(Navigate(doc, tokens).value) == NodeCount(doc) + NodeCount(v)
            && (PutApart(doc, tokens, other) ==> Navigate(after, other) == Navigate(doc, other)))
  {
    hide PathOf, Tokens, Navigate, Put, PutApart, NodeCount;
    PathReadsBack(tokens);
    var op := ReplaceOp(PathOf(tokens), v);
    assert OpReads(op, "replace", tokens) && Field(op, "value") == Some(v);
    if Navigate(doc, tokens).Some? {
      PutThenNavigate(doc, tokens, v);
      NodesOfPut(doc, tokens, v);
      if PutApart(doc, tokens, other) {
        PutElsewhere(doc, tokens, v, other);
      }
    }
  }

  /** Whether adding at `to` leaves what is at `other` alone: not in it, not over it, and not shifting it. */
  predicate AddApart(doc: Value, to: seq<string>, other: seq<string>)
    decreases |to|
  {
    && to != [] && other != []
    && if |to| == 1 then
         match doc
         case Object(_) => other[0] != to[0]
         case Array(items) =>
           var at := if to[0] == "-" then Some(|items|) else ParseUnsigned(to[0], USIZE_LIMIT);
           var index := ParseUnsigned(other[0], USIZE_LIMIT);
           at.Some? && index.Some? ==> index.value < at.value || at.value > |items|
         case _ => true
       else SameChild(doc, to[0], other[0]) ==> AddApart(Child(doc, to[0]).value, to[1..], other[1..])
  }

  lemma PutChildBack(v: Value, token: string)
    requires Child(v, token).Some?
    ensures PutChild(v, token, Child(v, token).value) == v
  {
  }

  /** Adding further down is adding in the child. */
  lemma AddedDeeper(doc: Value, to: seq<string>, v: Value)
    requires |to| > 1
    ensures Added(doc, to, v) ==
      if Child(doc, to[0]).None? then doc
      else PutChild(doc, to[0], Added(Child(doc, to[0]).value, to[1..], v))
  {
    hide Child, PutChild;
    var parents, last := to[..|to| - 1], to[|to| - 1];
    assert to[1..][..|to| - 2] == parents[1..] && to[1..][|to| - 2] == last;
    if Child(doc, to[0]).Some? {
      PutChildBack(doc, to[0]);
    }
  }

  lemma {:induction false} AddElsewhere(doc: Value, to: seq<string>, v: Value, other: seq<string>)
    requires AddApart(doc, to, other)
    ensures Navigate(Added(doc, to, v), other) == Navigate(doc, other)
    decreases |to|
  {
    if |to| == 1 {
      AddedHere(doc, to[0], v, other[0]);
      assert to == [to[0]];
    } else {
      hide Added, PutChild, Child, SameChild;
      AddedDeeper(doc, to, v);
      if Child(doc, to[0]).Some? {
        var child := Child(doc, to[0]).value;
        ChildOfPut(doc, to[0], Added(child, to[1..], v), other[0]);
        if SameChild(doc, to[0], other[0]) {
          AddElsewhere(child, to[1..], v, other[1..]);
        }
      }
    }
  }

  lemma AddedHere(doc: Value, token: string, v: Value, other: string)
    requires AddApart(doc, [token], [other])
    ensures Child(Added(doc, [token], v), other) == Child(doc, other)
  {
    assert [token][..0] == [];
  }

  /** `copy` puts the value it finds at its target, and leaves it where it was unless the target is above it, at it or
      shifts it; with no source, no place for it, or no room in the document it does nothing. */
  lemma CopyLands(doc: Value, from: seq<string>, to: seq<string>)
    ensures var (after, goOn) := OpApplied(doc, CopyOp(PathOf(from), PathOf(to)));
      && goOn
      && (Navigate(doc, from).None? ==> after == doc)
      && (Navigate(doc, from).Some? ==>
            var v := Navigate(doc, from).value;
            if NodeCount(v) + NodeCount(doc) > MAX_DOCUMENT_NODES || !Resolves(doc, to) then after == doc
            else
              && (AddApart(doc, to, from) ==> Navigate(after, from) == Some(v))
              && (|| Navigate(after, to) == Some(v)
                  || (to != [] && to[|to| - 1] == "-"
                      && var list := Navigate(after, to[..|to| - 1]);
                      list.Some? && list.value.Array? && list.value.items != []
                      && list.value.items[|list.value.items| - 1] == v)))
  {
    hide PathOf, Tokens, Navigate, Added, AddApart, NodeCount, Resolves;
    CopyReads(doc, from, to);
    if Navigate(doc, from).Some? {
      var v := Navigate(doc, from).value;
      AddedIsFound(doc, to, v);
      if AddApart(doc, to, from) {
        AddElsewhere(doc, to, v, from);
      }
    }
  }

  lemma CopyReads(doc: Value, from: seq<string>, to: seq<string>)
    ensures OpApplied(doc, CopyOp(PathOf(from), PathOf(to))) ==
      match Navigate(doc, from)
      case Some(v) =>
        (if NodeCount(v) + NodeCount(doc) > MAX_DOCUMENT_NODES then doc else Added(doc, to, v), true)
      case None => (doc, true)
  {
    hide PathOf, Tokens, Navigate, Added, NodeCount;
    PathReadsBack(from);
    PathReadsBack(to);
    var op := CopyOp(PathOf(from), PathOf(to));
    assert TextField(op, "op") == Some("copy") && PointerField(op, "path") == Some(to);
    assert PointerField(op, "from") == Some(from);
  }
}

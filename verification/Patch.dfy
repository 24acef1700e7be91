/** JSON Patch (RFC 6902) as the terminal folds it into a live block: best effort, no rollback. */
module Patch {
  import opened Text
  import opened Json
  import Pointer

  /** The most operations applied from one patch. */
  const MAX_PATCH_OPS := 256

  /** The most values a document may grow to through `copy`. */
  const MAX_DOCUMENT_NODES := 100_000

  /** One past the largest array index a pointer can spell. */
  const USIZE_LIMIT := 0x1_0000_0000_0000_0000

  // ------------------------------------------------------------------------
  // Navigation
  // ------------------------------------------------------------------------

  function Child(v: Value, token: string): Option<Value> {
    match v
    case Object(fields) => if token in fields then Some(fields[token]) else None
    case Array(items) => (
      match ParseUnsigned(token, USIZE_LIMIT)
      case Some(index) => if index < |items| then Some(items[index]) else None
      case None => None
    )
    case _ => None
  }

  /** An array index as section 4 of RFC 6901 spells it: digits, with no needless `0` in front. */
  predicate IsArrayIndex(token: string) {
    token != "" && (forall c | c in token :: IsDigit(c)) && (|token| > 1 ==> token[0] != '0')
  }

  /** A token that finds an item is outside the grammar exactly when it starts with `+` or with a needless `0`, that is,
      when it is not the index printed. */
  lemma IndexOutsideGrammarIff(items: seq<Value>, token: string)
    requires Child(Array(items), token).Some?
    ensures ParseUnsigned(token, USIZE_LIMIT).Some?
    ensures !IsArrayIndex(token) <==> token[0] == '+' || (|token| > 1 && token[0] == '0')
    ensures IsArrayIndex(token) <==> token == Decimal(ParseUnsigned(token, USIZE_LIMIT).value)
  {
    assert token[0] in token;
    if token[0] != '+' {
      DigitsAreDigits(token);
      if |token| > 1 ==> token[0] != '0' {
        DecimalOfDigits(token);
      }
    }
  }

  /** Every token of the grammar that spells an index in range finds its item. */
  lemma IndexInsideGrammar(items: seq<Value>, token: string)
    requires IsArrayIndex(token)
    ensures Digits(token).Some?
    ensures Digits(token).value < |items| && Digits(token).value < USIZE_LIMIT ==>
      Child(Array(items), token) == Some(items[Digits(token).value])
  {
    DigitsOfDigits(token);
    assert token[0] in token;
  }

  lemma SignedIndexRead(a: Value, b: Value)
    ensures Navigate(Array([a, b]), ["+1"]) == Some(b) && !IsArrayIndex("+1")
    ensures Navigate(Array([a, b]), ["01"]) == Some(b) && !IsArrayIndex("01")
  {
    assert Digits("1"[..0]) == Some(0) && Digits("1") == Some(1);
    assert "+1"[1..] == "1" && "01"[..1] == "0" && "0"[..0] == "" && Digits("0") == Some(0) && Digits("01") == Some(1);
    assert "+1"[0] in "+1";
    assert ["+1"][1..] == [] && ["01"][1..] == [];
  }

  /** The value at `tokens` from the root. */
  function Navigate(doc: Value, tokens: seq<string>): Option<Value> {
    if tokens == [] then Some(doc)
    else match Child(doc, tokens[0])
      case Some(child) => Navigate(child, tokens[1..])
      case None => None
  }

  method Locate(doc: Value, tokens: seq<string>) returns (found: Option<Value>)
    ensures found == Navigate(doc, tokens)
  {
    var current := doc;
    for at := 0 to |tokens|
      invariant Navigate(doc, tokens) == Navigate(current, tokens[at..])
    {
      assert tokens[at..][1..] == tokens[at + 1..];
      match Child(current, tokens[at]) {
        case None => return None;
        case Some(child) => current := child;
      }
    }
    return Some(current);
  }

  function PutChild(v: Value, token: string, child: Value): Value
    requires Child(v, token).Some?
  {
    match v
    case Object(fields) => Object(fields[token := child])
    case Array(items) => Array(items[ParseUnsigned(token, USIZE_LIMIT).value := child])
  }

  /** The document with the value at `tokens` overwritten, the way a write through the reference does. */
  function Put(doc: Value, tokens: seq<string>, v: Value): Value
    requires Navigate(doc, tokens).Some?
  {
    if tokens == [] then v
    else PutChild(doc, tokens[0], Put(Child(doc, tokens[0]).value, tokens[1..], v))
  }

  lemma {:induction false} PutThenNavigate(doc: Value, tokens: seq<string>, v: Value)
    requires Navigate(doc, tokens).Some?
    ensures Navigate(Put(doc, tokens, v), tokens) == Some(v)
  {
    if tokens != [] {
      PutThenNavigate(Child(doc, tokens[0]).value, tokens[1..], v);
    }
  }

  lemma {:induction false} PutTwice(doc: Value, tokens: seq<string>, v: Value, w: Value)
    requires Navigate(doc, tokens).Some?
    ensures Navigate(Put(doc, tokens, v), tokens) == Some(v)
    ensures Put(Put(doc, tokens, v), tokens, w) == Put(doc, tokens, w)
  {
    PutThenNavigate(doc, tokens, v);
    if tokens != [] {
      PutTwice(Child(doc, tokens[0]).value, tokens[1..], v, w);
    }
  }

  lemma {:induction false} PutBack(doc: Value, tokens: seq<string>)
    requires Navigate(doc, tokens).Some?
    ensures Put(doc, tokens, Navigate(doc, tokens).value) == doc
  {
    if tokens != [] {
      PutBack(Child(doc, tokens[0]).value, tokens[1..]);
    }
  }

  lemma {:induction false} NavigateFurther(doc: Value, tokens: seq<string>, key: string)
    requires Navigate(doc, tokens).Some?
    ensures Navigate(doc, tokens + [key]) == Child(Navigate(doc, tokens).value, key)
  {
    if tokens == [] {
      assert tokens + [key] == [key];
    } else {
      assert (tokens + [key])[1..] == tokens[1..] + [key];
      NavigateFurther(Child(doc, tokens[0]).value, tokens[1..], key);
    }
  }

  lemma {:induction false} PutFurther(doc: Value, tokens: seq<string>, key: string, v: Value)
    requires Navigate(doc, tokens).Some? && Child(Navigate(doc, tokens).value, key).Some?
    ensures Navigate(doc, tokens + [key]).Some?
    ensures Put(doc, tokens + [key], v) == Put(doc, tokens, PutChild(Navigate(doc, tokens).value, key, v))
  {
    NavigateFurther(doc, tokens, key);
    if tokens == [] {
      assert tokens + [key] == [key];
    } else {
      assert (tokens + [key])[1..] == tokens[1..] + [key];
      PutFurther(Child(doc, tokens[0]).value, tokens[1..], key, v);
    }
  }

  // ------------------------------------------------------------------------
  // Operations
  // ------------------------------------------------------------------------

  /** Insert at an object key, an array slot (`-` for the end), or over the whole document. */
  function Added(doc: Value, tokens: seq<string>, v: Value): Value {
    if tokens == [] then v else
      var parents, last := tokens[..|tokens| - 1], tokens[|tokens| - 1];
      match Navigate(doc, parents)
      case Some(Object(fields)) => Put(doc, parents, Object(fields[last := v]))
      case Some(Array(items)) =>
        if last == "-" then Put(doc, parents, Array(items + [v]))
        else (
          match ParseUnsigned(last, USIZE_LIMIT)
          case Some(index) =>
            if index <= |items| then Put(doc, parents, Array(items[..index] + [v] + items[index..])) else doc
          case None => doc
        )
      case _ => doc
  }

  /** The document without the value at `tokens`, and that value where there was one. */
  function Taken(doc: Value, tokens: seq<string>): (Value, Option<Value>) {
    if tokens == [] then (doc, None) else
      var parents, last := tokens[..|tokens| - 1], tokens[|tokens| - 1];
      match Navigate(doc, parents)
      case Some(Object(fields)) =>
        if last in fields then (Put(doc, parents, Object(fields - {last})), Some(fields[last])) else (doc, None)
      case Some(Array(items)) => (
        match ParseUnsigned(last, USIZE_LIMIT)
        case Some(index) =>
          if index < |items| then (Put(doc, parents, Array(items[..index] + items[index + 1..])), Some(items[index]))
          else (doc, None)
        case None => (doc, None)
      )
      case _ => (doc, None)
  }

  function Replaced(doc: Value, tokens: seq<string>, v: Value): Value {
    if Navigate(doc, tokens).Some? then Put(doc, tokens, v) else doc
  }

  function Field(op: Value, name: string): Option<Value> {
    if op.Object? && name in op.fields then Some(op.fields[name]) else None
  }

  function TextField(op: Value, name: string): Option<string> {
    match Field(op, name)
    case Some(String(s)) => Some(s)
    case _ => None
  }

  function PointerField(op: Value, name: string): Option<seq<string>> {
    match TextField(op, name)
    case Some(path) => Pointer.Tokens(path)
    case None => None
  }

  /** The document after one operation, and whether the ones after it still apply. */
  function OpApplied(doc: Value, op: Value): (Value, bool) {
    match (TextField(op, "op"), PointerField(op, "path"))
    case (Some(name), Some(tokens)) =>
      if name == "add" && Field(op, "value").Some? then (Added(doc, tokens, Field(op, "value").value), true)
      else if name == "remove" then (Taken(doc, tokens).0, true)
      else if name == "replace" && Field(op, "value").Some? then (Replaced(doc, tokens, Field(op, "value").value), true)
      else if name == "move" && PointerField(op, "from").Some? then
        var (left, moved) := Taken(doc, PointerField(op, "from").value);
        (if moved.Some? then Added(left, tokens, moved.value) else left, true)
      else if name == "copy" && PointerField(op, "from").Some? then (
        match Navigate(doc, PointerField(op, "from").value)
        case Some(source) =>
          (if NodeCount(source) + NodeCount(doc) > MAX_DOCUMENT_NODES then doc else Added(doc, tokens, source), true)
        case None => (doc, true)
      )
      else if name == "test" && Field(op, "value").Some? then (doc, Navigate(doc, tokens) == Field(op, "value"))
      else (doc, true)
    case _ => (doc, true)
  }

  /** The document after the operations in turn, up to the first failed `test`. */
  function OpsApplied(doc: Value, ops: seq<Value>): Value
    decreases |ops|
  {
    if ops == [] then doc else
      var (next, goOn) := OpApplied(doc, ops[0]);
      if goOn then OpsApplied(next, ops[1..]) else next
  }

  /** The document after a whole patch: nothing for one that is no array, no more than the cap of one that is. */
  function Patched(doc: Value, patch: Value): Value {
    match patch
    case Array(ops) => OpsApplied(doc, if |ops| <= MAX_PATCH_OPS then ops else ops[..MAX_PATCH_OPS])
    case _ => doc
  }

  /** The document a patch is folded into, changed in place. */
  class Document {
    var value: Value

    constructor (v: Value)
      ensures value == v
    {
      value := v;
    }

    method Apply(patch: Value)
      modifies this
      ensures value == Patched(old(value), patch)
    {
      match patch {
        case Array(items) =>
          var ops := if |items| <= MAX_PATCH_OPS then items else items[..MAX_PATCH_OPS];
          for at := 0 to |ops|
            invariant OpsApplied(old(value), ops) == OpsApplied(value, ops[at..])
          {
            assert ops[at..][1..] == ops[at + 1..];
            var goOn := ApplyOp(ops[at]);
            if !goOn {
              return;
            }
          }
        case _ =>
      }
    }

    method ApplyOp(op: Value) returns (goOn: bool)
      modifies this
      ensures (value, goOn) == OpApplied(old(value), op)
    {
      goOn := true;
      var name, tokens := TextField(op, "op"), PointerField(op, "path");
      if name.None? || tokens.None? {
        return;
      }
      var operand, from := Field(op, "value"), PointerField(op, "from");
      match name.value {
        case "add" =>
          if operand.Some? {
            AddAt(tokens.value, operand.value);
          }
        case "remove" =>
          var _ := TakeAt(tokens.value);
        case "replace" =>
          if operand.Some? {
            ReplaceAt(tokens.value, operand.value);
          }
        case "move" =>
          if from.Some? {
            var moved := TakeAt(from.value);
            if moved.Some? {
              AddAt(tokens.value, moved.value);
            }
          }
        case "copy" =>
          if from.Some? {
            var source := Locate(value, from.value);
            if source.Some? && NodeCount(source.value) + NodeCount(value) <= MAX_DOCUMENT_NODES {
              AddAt(tokens.value, source.value);
            }
          }
        case "test" =>
          if operand.Some? {
            var current := Locate(value, tokens.value);
            goOn := current == operand;
          }
        case _ =>
      }
    }

    method AddAt(tokens: seq<string>, v: Value)
      modifies this
      ensures value == Added(old(value), tokens, v)
    {
      if tokens == [] {
        value := v;
        return;
      }
      var parents, last := tokens[..|tokens| - 1], tokens[|tokens| - 1];
      var parent := Locate(value, parents);
      match parent {
        case Some(Object(fields)) =>
          value := Put(value, parents, Object(fields[last := v]));
        case Some(Array(items)) =>
          if last == "-" {
            value := Put(value, parents, Array(items + [v]));
          } else {
            var index := ParseUnsigned(last, USIZE_LIMIT);
            if index.Some? && index.value <= |items| {
              value := Put(value, parents, Array(items[..index.value] + [v] + items[index.value..]));
            }
          }
        case _ =>
      }
    }

    method TakeAt(tokens: seq<string>) returns (taken: Option<Value>)
      modifies this
      ensures (value, taken) == Taken(old(value), tokens)
    {
      taken := None;
      if tokens == [] {
        return;
      }
      var parents, last := tokens[..|tokens| - 1], tokens[|tokens| - 1];
      var parent := Locate(value, parents);
      match parent {
        case Some(Object(fields)) =>
          if last in fields {
            value, taken := Put(value, parents, Object(fields - {last})), Some(fields[last]);
          }
        case Some(Array(items)) =>
          var index := ParseUnsigned(last, USIZE_LIMIT);
          if index.Some? && index.value < |items| {
            var at := index.value;
            value, taken := Put(value, parents, Array(items[..at] + items[at + 1..])), Some(items[at]);
          }
        case _ =>
      }
    }

    method ReplaceAt(tokens: seq<string>, v: Value)
      modifies this
      ensures value == Replaced(old(value), tokens, v)
    {
      var slot := Locate(value, tokens);
      if slot.Some? {
        value := Put(value, tokens, v);
      }
    }
  }

  // ------------------------------------------------------------------------
  // What lands, and what is lost
  // ------------------------------------------------------------------------

  /** Whether an `add` at `tokens` finds somewhere to put its value. */
  predicate Resolves(doc: Value, tokens: seq<string>) {
    if tokens == [] then true else
      var parents, last := tokens[..|tokens| - 1], tokens[|tokens| - 1];
      match Navigate(doc, parents)
      case Some(Object(_)) => true
      case Some(Array(items)) =>
        last == "-" || (ParseUnsigned(last, USIZE_LIMIT).Some? && ParseUnsigned(last, USIZE_LIMIT).value <= |items|)
      case _ => false
  }

  /** A value added where the pointer resolves is found there, or at the end of the array for `-`; elsewhere nothing
      changes. */
  lemma AddedIsFound(doc: Value, tokens: seq<string>, v: Value)
    ensures !Resolves(doc, tokens) ==> Added(doc, tokens, v) == doc
    ensures Resolves(doc, tokens) ==>
      var parents := if tokens == [] then [] else tokens[..|tokens| - 1];
      || Navigate(Added(doc, tokens, v), tokens) == Some(v)
      || (tokens != [] && tokens[|tokens| - 1] == "-"
          && Navigate(doc, parents).Some? && Navigate(doc, parents).value.Array?
          && Navigate(Added(doc, tokens, v), parents) == Some(Array(Navigate(doc, parents).value.items + [v])))
  {
    hide Navigate, Put;
    NavigateNowhere(v);
    if tokens != [] && Resolves(doc, tokens) {
      var parents, last := tokens[..|tokens| - 1], tokens[|tokens| - 1];
      assert tokens == parents + [last];
      match Navigate(doc, parents)
      case Some(Object(fields)) =>
        FoundInside(doc, parents, last, Object(fields[last := v]), v);
      case Some(Array(items)) =>
        if last == "-" {
          PutThenNavigate(doc, parents, Array(items + [v]));
        } else {
          var index := ParseUnsigned(last, USIZE_LIMIT).value;
          FoundInside(doc, parents, last, Array(items[..index] + [v] + items[index..]), v);
        }
    }
  }

  lemma NavigateNowhere(doc: Value)
    ensures Navigate(doc, []) == Some(doc)
  {
  }

  lemma FoundInside(doc: Value, parents: seq<string>, last: string, container: Value, v: Value)
    requires Navigate(doc, parents).Some? && Child(container, last) == Some(v)
    ensures Navigate(Put(doc, parents, container), parents + [last]) == Some(v)
  {
    PutThenNavigate(doc, parents, container);
    NavigateFurther(Put(doc, parents, container), parents, last);
  }

  /** Taking a value out and adding it back at the same place changes nothing. */
  lemma TakenAddsBack(doc: Value, tokens: seq<string>)
    requires Taken(doc, tokens).1.Some?
    ensures Added(Taken(doc, tokens).0, tokens, Taken(doc, tokens).1.value) == doc
  {
    var parents, last := tokens[..|tokens| - 1], tokens[|tokens| - 1];
    PutBack(doc, parents);
    match Navigate(doc, parents)
    case Some(Object(fields)) =>
      PutTwice(doc, parents, Object(fields - {last}), Object(fields));
      assert (fields - {last})[last := fields[last]] == fields;
    case Some(Array(items)) =>
      var at := ParseUnsigned(last, USIZE_LIMIT).value;
      var rest := items[..at] + items[at + 1..];
      PutTwice(doc, parents, Array(rest), Array(items));
      assert rest[..at] + [items[at]] + rest[at..] == items;
  }

  function MoveOp(from: string, path: string): Value {
    Object(map["op" := String("move"), "from" := String(from), "path" := String(path)])
  }

  lemma MoveReads(doc: Value, from: string, path: string)
    ensures OpApplied(doc, MoveOp(from, path)).0 ==
      match (Pointer.Tokens(from), Pointer.Tokens(path))
      case (Some(source), Some(tokens)) =>
        var (left, moved) := Taken(doc, source);
        if moved.Some? then Added(left, tokens, moved.value) else left
      case _ => doc
  {
    var op := MoveOp(from, path);
    assert TextField(op, "op") == Some("move");
    assert TextField(op, "path") == Some(path) && TextField(op, "from") == Some(from);
  }

  /** A move whose source is there removes it even when its target does not resolve, and only then is the value lost. */
  lemma MoveLosesIff(doc: Value, from: string, path: string)
    requires Pointer.Tokens(from).Some? && Pointer.Tokens(path).Some?
    requires Taken(doc, Pointer.Tokens(from).value).1.Some?
    ensures var (left, moved) := Taken(doc, Pointer.Tokens(from).value);
      var tokens, after := Pointer.Tokens(path).value, OpApplied(doc, MoveOp(from, path)).0;
      && NodeCount(left) + NodeCount(moved.value) == NodeCount(doc) && left != doc
      && (!Resolves(left, tokens) ==> after == left)
      && (Resolves(left, tokens) ==>
            || Navigate(after, tokens) == Some(moved.value)
            || (tokens != [] && tokens[|tokens| - 1] == "-"
                && var list := Navigate(after, tokens[..|tokens| - 1]);
                list.Some? && list.value.Array? && list.value.items != []
                && list.value.items[|list.value.items| - 1] == moved.value))
  {
    hide Added, Taken, Resolves, NodeCount;
    MoveReads(doc, from, path);
    NodesOfTaken(doc, Pointer.Tokens(from).value);
    var (left, moved) := Taken(doc, Pointer.Tokens(from).value);
    AddedIsFound(left, Pointer.Tokens(path).value, moved.value);
  }

  /** A move into a field of nothing: the value is gone. */
  lemma MoveIntoNothing()
    ensures OpApplied(Object(map["a" := Null]), MoveOp("/a", "/b/c")).0 == Object(map[])
  {
    hide Pointer.PathOf, Pointer.Tokens, Taken, Added, OpApplied, MoveOp;
    var doc := Object(map["a" := Null]);
    Pointer.PathReadsBack(["a"]);
    Pointer.PathReadsBack(["b", "c"]);
    SimplePaths();
    MoveReads(doc, "/a", "/b/c");
    NothingThere();
  }

  lemma NothingThere()
    ensures Taken(Object(map["a" := Null]), ["a"]) == (Object(map[]), Some(Null))
    ensures Added(Object(map[]), ["b", "c"], Null) == Object(map[])
  {
    assert ["a"][..0] == [] && map["a" := Null] - {"a"} == map[];
    assert ["b", "c"][..1] == ["b"];
    assert Navigate(Object(map[]), ["b"]) == None;
  }

  lemma SimplePaths()
    ensures Pointer.PathOf(["a"]) == "/a" && Pointer.PathOf(["b", "c"]) == "/b/c"
  {
    assert ["a"][..0] == [] && ["b", "c"][..1] == ["b"] && ["b"][..0] == [];
    Pointer.PathOfChild([], "a");
    Pointer.PathOfChild([], "b");
    Pointer.PathOfChild(["b"], "c");
    assert [] + ["a"] == ["a"] && [] + ["b"] == ["b"] && ["b"] + ["c"] == ["b", "c"];
    assert Pointer.Escape("a") == "a" && Pointer.Escape("b") == "b" && Pointer.Escape("c") == "c";
  }

  // ------------------------------------------------------------------------
  // How far a patch can grow a document
  // ------------------------------------------------------------------------

  lemma {:induction false} NodesOfPutChild(v: Value, token: string, child: Value)
    requires Child(v, token).Some?
    ensures NodeCount(PutChild(v, token, child)) + NodeCount(Child(v, token).value) == NodeCount(v) + NodeCount(child)
  {
    match v
    case Object(fields) => NodesOfField(fields, token, child);
    case Array(items) => NodesOfItem(items, ParseUnsigned(token, USIZE_LIMIT).value, child);
  }

  /** Overwriting a value changes the count by exactly the difference. */
  lemma {:induction false} NodesOfPut(doc: Value, tokens: seq<string>, v: Value)
    requires Navigate(doc, tokens).Some?
    ensures NodeCount(Put(doc, tokens, v)) + NodeCount(Navigate(doc, tokens).value) == NodeCount(doc) + NodeCount(v)
  {
    if tokens != [] {
      var child := Child(doc, tokens[0]).value;
      NodesOfPut(child, tokens[1..], v);
      NodesOfPutChild(doc, tokens[0], Put(child, tokens[1..], v));
    }
  }

  lemma {:induction false} NodesOfAdded(doc: Value, tokens: seq<string>, v: Value)
    ensures NodeCount(Added(doc, tokens, v)) <= NodeCount(doc) + NodeCount(v)
  {
    if tokens != [] {
      var parents, last := tokens[..|tokens| - 1], tokens[|tokens| - 1];
      match Navigate(doc, parents)
      case Some(Object(fields)) =>
        NodesOfField(fields, last, v);
        NodesOfPut(doc, parents, Object(fields[last := v]));
      case Some(Array(items)) =>
        var index := ParseUnsigned(last, USIZE_LIMIT);
        if last == "-" {
          assert items[..|items|] + [v] + items[|items|..] == items + [v];
          NodesOfInsertedItem(items, |items|, v);
          NodesOfPut(doc, parents, Array(items + [v]));
        } else if index.Some? && index.value <= |items| {
          NodesOfInsertedItem(items, index.value, v);
          NodesOfPut(doc, parents, Array(items[..index.value] + [v] + items[index.value..]));
        }
      case _ =>
    }
  }

  lemma {:induction false} NodesOfInsertedItem(items: seq<Value>, at: nat, v: Value)
    requires at <= |items|
    ensures NodeCount(Array(items[..at] + [v] + items[at..])) == NodeCount(Array(items)) + NodeCount(v)
  {
    var longer := items[..at] + [v] + items[at..];
    NodeCountUnfolds(Array(items));
    NodeCountUnfolds(Array(longer));
    var before, after := ItemNodes(items), ItemNodes(longer);
    SumSeqSplit(after, at);
    assert after[..at] == before[..at] && after[at + 1..] == before[at..];
    assert before == before[..at] + before[at..];
    SumSeqConcat(before[..at], before[at..]);
  }

  /** Taking a value out removes its nodes and no others. */
  lemma {:induction false} NodesOfTaken(doc: Value, tokens: seq<string>)
    ensures var (left, taken) := Taken(doc, tokens);
      if taken.Some? then NodeCount(left) + NodeCount(taken.value) == NodeCount(doc) else left == doc
  {
    if tokens != [] {
      var parents, last := tokens[..|tokens| - 1], tokens[|tokens| - 1];
      match Navigate(doc, parents)
      case Some(Object(fields)) =>
        if last in fields {
          var rest := fields - {last};
          NodesOfField(rest, last, fields[last]);
          assert rest[last := fields[last]] == fields;
          NodesOfPut(doc, parents, Object(rest));
        }
      case Some(Array(items)) =>
        var index := ParseUnsigned(last, USIZE_LIMIT);
        if index.Some? && index.value < |items| {
          var rest := items[..index.value] + items[index.value + 1..];
          NodesOfInsertedItem(rest, index.value, items[index.value]);
          assert rest[..index.value] + [items[index.value]] + rest[index.value..] == items;
          NodesOfPut(doc, parents, Array(rest));
        }
      case _ =>
    }
  }

  /** The nodes the operation itself brings: those of the value an `add` or a `replace` carries. */
  function Carried(op: Value): nat {
    if TextField(op, "op") in {Some("add"), Some("replace")} && Field(op, "value").Some?
    then NodeCount(Field(op, "value").value) else 0
  }

  function CarriedByAll(ops: seq<Value>): nat {
    if ops == [] then 0 else Carried(ops[0]) + CarriedByAll(ops[1..])
  }

  lemma NodesOfReplaced(doc: Value, tokens: seq<string>, v: Value)
    ensures NodeCount(Replaced(doc, tokens, v)) <= NodeCount(doc) + NodeCount(v)
  {
    if Navigate(doc, tokens).Some? {
      NodesOfPut(doc, tokens, v);
    }
  }

  lemma NodesOfMove(doc: Value, from: seq<string>, tokens: seq<string>)
    ensures NodeCount(Taken(doc, from).0) <= NodeCount(doc)
    ensures Taken(doc, from).1.Some? ==>
      NodeCount(Added(Taken(doc, from).0, tokens, Taken(doc, from).1.value)) <= NodeCount(doc)
  {
    NodesOfTaken(doc, from);
    if Taken(doc, from).1.Some? {
      NodesOfAdded(Taken(doc, from).0, tokens, Taken(doc, from).1.value);
    }
  }

  /** One operation grows the document by what it carries, or leaves it within the cap. */
  lemma OpGrowth(doc: Value, op: Value)
    ensures var after := NodeCount(OpApplied(doc, op).0);
      after <= NodeCount(doc) + Carried(op) || after <= MAX_DOCUMENT_NODES
  {
    var name, path, from, v := TextField(op, "op"), PointerField(op, "path"), PointerField(op, "from"),
      Field(op, "value");
    if name.Some? && path.Some? {
      match name.value {
        case "add" => if v.Some? { NodesOfAdded(doc, path.value, v.value); }
        case "remove" => NodesOfTaken(doc, path.value);
        case "replace" => if v.Some? { NodesOfReplaced(doc, path.value, v.value); }
        case "move" => if from.Some? { NodesOfMove(doc, from.value, path.value); }
        case "copy" =>
          if from.Some? && Navigate(doc, from.value).Some? {
            NodesOfAdded(doc, path.value, Navigate(doc, from.value).value);
          }
        case _ =>
      }
    }
  }

  /** Whatever mix of operations it holds, a patch grows a document past the cap by no more than it carries. */
  lemma {:induction false} OpsGrowth(doc: Value, ops: seq<Value>, bound: nat)
    requires NodeCount(doc) <= bound && MAX_DOCUMENT_NODES <= bound
    ensures NodeCount(OpsApplied(doc, ops)) <= bound + CarriedByAll(ops)
    decreases |ops|
  {
    if ops != [] {
      OpGrowth(doc, ops[0]);
      var (next, goOn) := OpApplied(doc, ops[0]);
      if goOn {
        OpsGrowth(next, ops[1..], bound + Carried(ops[0]));
      }
    }
  }

  lemma PatchGrowth(doc: Value, ops: seq<Value>)
    ensures var bound := if NodeCount(doc) < MAX_DOCUMENT_NODES then MAX_DOCUMENT_NODES else NodeCount(doc);
      NodeCount(Patched(doc, Array(ops))) <= bound + CarriedByAll(ops)
  {
    var bound := if NodeCount(doc) < MAX_DOCUMENT_NODES then MAX_DOCUMENT_NODES else NodeCount(doc);
    var applied := if |ops| <= MAX_PATCH_OPS then ops else ops[..MAX_PATCH_OPS];
    OpsGrowth(doc, applied, bound);
    CarriedByPrefix(ops, |applied|);
    assert ops[..|applied|] == applied;
  }

  lemma {:induction false} CarriedByPrefix(ops: seq<Value>, n: nat)
    requires n <= |ops|
    ensures CarriedByAll(ops[..n]) <= CarriedByAll(ops)
  {
    if n > 0 {
      CarriedByPrefix(ops[1..], n - 1);
      assert ops[..n][1..] == ops[1..][..n - 1];
    }
  }
}

/** The client's side of a live block's updates: the operations that turn one value into another. */
module Diff {
  import opened Text
  import opened Json
  import opened Pointer
  import opened Patch

  // ------------------------------------------------------------------------
  // The operations
  // ------------------------------------------------------------------------

  function AddOp(path: string, v: Value): Value {
    Object(map["op" := String("add"), "path" := String(path), "value" := v])
  }

  function RemoveOp(path: string): Value {
    Object(map["op" := String("remove"), "path" := String(path)])
  }

  function ReplaceOp(path: string, v: Value): Value {
    Object(map["op" := String("replace"), "path" := String(path), "value" := v])
  }

  /** The operations that turn `from` into `new`, both found at `path`. */
  function Ops(from: Value, target: Value, path: string): seq<Value>
    decreases target, 1, 0
  {
    if from == target then []
    else match (from, target)
      case (Object(had), Object(now)) =>
        RemoveOps(Ascending(had.Keys), now, path) + FieldOps(Ascending(now.Keys), from, target, path)
      case (Array(had), Array(now)) =>
        if |had| <= |now| && now[..|had|] == had then AppendOps(now[|had|..], path) else [ReplaceOp(path, target)]
      case _ => [ReplaceOp(path, target)]
  }

  /** One `remove` for each of `keys` that is gone. */
  function RemoveOps(keys: seq<string>, now: map<string, Value>, path: string): seq<Value> {
    if keys == [] then []
    else (if keys[0] in now then [] else [RemoveOp(path + "/" + Escape(keys[0]))]) + RemoveOps(keys[1..], now, path)
  }

  /** What brings each of `keys` to its new value. */
  function FieldOps(keys: seq<string>, from: Value, target: Value, path: string): seq<Value>
    requires from.Object? && target.Object?
    requires forall k | k in keys :: k in target.fields
    decreases target, 0, |keys|
  {
    if keys == [] then []
    else FieldOp(keys[0], from, target, path) + FieldOps(keys[1..], from, target, path)
  }

  function FieldOp(key: string, from: Value, target: Value, path: string): seq<Value>
    requires from.Object? && target.Object? && key in target.fields
    decreases target, 0, 0
  {
    var keyPath := path + "/" + Escape(key);
    if key in from.fields then Ops(from.fields[key], target.fields[key], keyPath)
    else [AddOp(keyPath, target.fields[key])]
  }

  function AppendOps(items: seq<Value>, path: string): seq<Value> {
    if items == [] then [] else [AddOp(path + "/-", items[0])] + AppendOps(items[1..], path)
  }

  // ------------------------------------------------------------------------
  // Collecting them
  // ------------------------------------------------------------------------

  lemma RemoveOpsStep(keys: seq<string>, now: map<string, Value>, path: string)
    requires keys != []
    ensures RemoveOps(keys, now, path) ==
      if keys[0] in now then RemoveOps(keys[1..], now, path)
      else [RemoveOp(path + "/" + Escape(keys[0]))] + RemoveOps(keys[1..], now, path)
  {
  }

  /** Where one key's operations go among the rest. */
  lemma FieldOpsStep(keys: seq<string>, at: nat, from: Value, target: Value, path: string, before: seq<Value>)
    requires from.Object? && target.Object? && at < |keys|
    requires forall k | k in keys :: k in target.fields
    ensures before + FieldOps(keys[at..], from, target, path)
      == before + FieldOp(keys[at], from, target, path) + FieldOps(keys[at + 1..], from, target, path)
    ensures keys[at] in from.fields && from.fields[keys[at]] == target.fields[keys[at]]
      ==> before + FieldOp(keys[at], from, target, path) == before
  {
    assert keys[at..][1..] == keys[at + 1..];
  }

  method Diff(from: Value, target: Value, path: string) returns (ops: seq<Value>)
    ensures ops == Ops(from, target, path)
    decreases target
  {
    hide Escape, AddOp, RemoveOp, ReplaceOp;
    if from == target {
      return [];
    }
    if from.Object? && target.Object? {
      var gone := Ascending(from.fields.Keys);
      ops := [];
      for at := 0 to |gone|
        invariant ops + RemoveOps(gone[at..], target.fields, path) == RemoveOps(gone, target.fields, path)
      {
        RemoveOpsStep(gone[at..], target.fields, path);
        assert gone[at..][1..] == gone[at + 1..];
        if gone[at] !in target.fields {
          ops := ops + [RemoveOp(path + "/" + Escape(gone[at]))];
        }
      }
      assert ops == RemoveOps(gone, target.fields, path);
      ghost var removals := ops;
      var keys := Ascending(target.fields.Keys);
      assert keys[0..] == keys;
      for at := 0 to |keys|
        invariant ops + FieldOps(keys[at..], from, target, path) == removals + FieldOps(keys, from, target, path)
      {
        FieldOpsStep(keys, at, from, target, path, ops);
        var key := keys[at];
        var keyPath := path + "/" + Escape(key);
        if key !in from.fields {
          ops := ops + [AddOp(keyPath, target.fields[key])];
        } else if from.fields[key] != target.fields[key] {
          var nested := Diff(from.fields[key], target.fields[key], keyPath);
          ops := ops + nested;
        }
      }
      OpsOfObjects(from, target, path);
      return;
    }
    if from.Array? && target.Array? {
      if |target.items| >= |from.items| && target.items[..|from.items|] == from.items {
        return AppendOps(target.items[|from.items|..], path);
      }
    }
    return [ReplaceOp(path, target)];
  }

  // ------------------------------------------------------------------------
  // What each operation does to a document
  // ------------------------------------------------------------------------

  ghost predicate NoTests(ops: seq<Value>) {
    forall op | op in ops :: TextField(op, "op") != Some("test")
  }

  lemma {:induction false} OpsInTurn(doc: Value, a: seq<Value>, b: seq<Value>)
    requires NoTests(a)
    ensures OpsApplied(doc, a + b) == OpsApplied(OpsApplied(doc, a), b)
    decreases |a|
  {
    if a == [] {
      assert a + b == b;
    } else {
      assert (a + b)[1..] == a[1..] + b;
      assert a[0] in a;
      OpsInTurn(OpApplied(doc, a[0]).0, a[1..], b);
    }
  }

  lemma OneOp(doc: Value, op: Value)
    ensures OpsApplied(doc, [op]) == OpApplied(doc, op).0
  {
    assert OpsApplied(OpApplied(doc, op).0, []) == OpApplied(doc, op).0;
  }

  lemma ReplaceLands(doc: Value, tokens: seq<string>, v: Value)
    requires Navigate(doc, tokens).Some?
    ensures OpApplied(doc, ReplaceOp(PathOf(tokens), v)) == (Put(doc, tokens, v), true)
  {
    hide PathOf, Tokens, Put;
    PathReadsBack(tokens);
    assert OpReads(ReplaceOp(PathOf(tokens), v), "replace", tokens);
  }

  ghost predicate OpReads(op: Value, name: string, tokens: seq<string>) {
    TextField(op, "op") == Some(name) && PointerField(op, "path") == Some(tokens)
  }

  lemma AddReads(tokens: seq<string>, key: string, v: Value)
    ensures var op := AddOp(PathOf(tokens) + "/" + Escape(key), v);
      OpReads(op, "add", tokens + [key]) && Field(op, "value") == Some(v)
  {
    hide PathOf, Tokens, Escape;
    PathOfChild(tokens, key);
    PathReadsBack(tokens + [key]);
  }

  lemma AddApplies(doc: Value, op: Value, tokens: seq<string>, v: Value)
    requires OpReads(op, "add", tokens) && Field(op, "value") == Some(v)
    ensures OpApplied(doc, op) == (Added(doc, tokens, v), true)
  {
  }

  lemma AddLands(doc: Value, tokens: seq<string>, key: string, v: Value)
    requires Navigate(doc, tokens).Some? && Navigate(doc, tokens).value.Object?
    ensures OpApplied(doc, AddOp(PathOf(tokens) + "/" + Escape(key), v))
      == (Put(doc, tokens, Object(Navigate(doc, tokens).value.fields[key := v])), true)
  {
    AddReads(tokens, key, v);
    AddApplies(doc, AddOp(PathOf(tokens) + "/" + Escape(key), v), tokens + [key], v);
    assert (tokens + [key])[..|tokens|] == tokens;
  }

  lemma RemoveReads(tokens: seq<string>, key: string)
    ensures OpReads(RemoveOp(PathOf(tokens) + "/" + Escape(key)), "remove", tokens + [key])
  {
    hide PathOf, Tokens, Escape;
    PathOfChild(tokens, key);
    PathReadsBack(tokens + [key]);
  }

  lemma RemoveApplies(doc: Value, op: Value, tokens: seq<string>)
    requires OpReads(op, "remove", tokens)
    ensures OpApplied(doc, op) == (Taken(doc, tokens).0, true)
  {
  }

  lemma RemoveLands(doc: Value, tokens: seq<string>, key: string)
    requires Navigate(doc, tokens).Some? && Navigate(doc, tokens).value.Object?
    requires key in Navigate(doc, tokens).value.fields
    ensures OpApplied(doc, RemoveOp(PathOf(tokens) + "/" + Escape(key)))
      == (Put(doc, tokens, Object(Navigate(doc, tokens).value.fields - {key})), true)
  {
    RemoveReads(tokens, key);
    RemoveApplies(doc, RemoveOp(PathOf(tokens) + "/" + Escape(key)), tokens + [key]);
    assert (tokens + [key])[..|tokens|] == tokens;
  }

  lemma AppendLands(doc: Value, tokens: seq<string>, v: Value)
    requires Navigate(doc, tokens).Some? && Navigate(doc, tokens).value.Array?
    ensures OpApplied(doc, AddOp(PathOf(tokens) + "/-", v))
      == (Put(doc, tokens, Array(Navigate(doc, tokens).value.items + [v])), true)
  {
    assert Escape("-") == "-";
    AddReads(tokens, "-", v);
    assert PathOf(tokens) + "/" + "-" == PathOf(tokens) + "/-";
    AddApplies(doc, AddOp(PathOf(tokens) + "/-", v), tokens + ["-"], v);
    assert (tokens + ["-"])[..|tokens|] == tokens;
  }

  // ------------------------------------------------------------------------
  // What the lists of operations do
  // ------------------------------------------------------------------------

  function Gone(keys: seq<string>, now: map<string, Value>): set<string> {
    set k | k in keys && k !in now
  }

  lemma GoneStep(keys: seq<string>, now: map<string, Value>)
    requires keys != [] && keys[0] in now
    ensures Gone(keys, now) == Gone(keys[1..], now)
  {
  }

  lemma {:induction false} RemovalsLand(
    doc: Value, tokens: seq<string>, keys: seq<string>, fields: map<string, Value>, now: map<string, Value>)
    requires Navigate(doc, tokens) == Some(Object(fields))
    requires forall k | k in keys :: k in fields
    requires forall i, j | 0 <= i < j < |keys| :: keys[i] != keys[j]
    ensures NoTests(RemoveOps(keys, now, PathOf(tokens)))
    ensures OpsApplied(doc, RemoveOps(keys, now, PathOf(tokens)))
      == Put(doc, tokens, Object(fields - Gone(keys, now)))
    decreases |keys|, 1
  {
    if keys == [] {
      PutBack(doc, tokens);
      assert fields - Gone(keys, now) == fields;
    } else {
      var key, rest := keys[0], keys[1..];
      RemoveOpsStep(keys, now, PathOf(tokens));
      if key in now {
        RemovalsLand(doc, tokens, rest, fields, now);
        GoneStep(keys, now);
      } else {
        assert [key] + rest == keys;
        RemovalLands(doc, tokens, key, rest, fields, now);
      }
    }
  }

  lemma {:induction false} RemovalLands(
    doc: Value, tokens: seq<string>, key: string, rest: seq<string>, fields: map<string, Value>,
    now: map<string, Value>)
    requires Navigate(doc, tokens) == Some(Object(fields))
    requires key in fields && key !in now && key !in rest && forall k | k in rest :: k in fields
    requires forall i, j | 0 <= i < j < |rest| :: rest[i] != rest[j]
    ensures var ops := [RemoveOp(PathOf(tokens) + "/" + Escape(key))] + RemoveOps(rest, now, PathOf(tokens));
      NoTests(ops) && OpsApplied(doc, ops) == Put(doc, tokens, Object(fields - Gone([key] + rest, now)))
    decreases |rest| + 1, 0
  {
    hide Put, Navigate, PathOf, Escape, RemoveOps, OpsApplied, OpApplied;
    var op, ops := RemoveOp(PathOf(tokens) + "/" + Escape(key)), RemoveOps(rest, now, PathOf(tokens));
    var left, all := fields - {key}, fields - Gone([key] + rest, now);
    RemoveReads(tokens, key);
    RemoveLands(doc, tokens, key);
    PutTwice(doc, tokens, Object(left), Object(all));
    RemovalsLand(Put(doc, tokens, Object(left)), tokens, rest, left, now);
    assert left - Gone(rest, now) == all;
    OneOp(doc, op);
    OpsInTurn(doc, [op], ops);
  }

  lemma {:induction false} AppendsLand(doc: Value, tokens: seq<string>, had: seq<Value>, items: seq<Value>)
    requires Navigate(doc, tokens) == Some(Array(had))
    ensures NoTests(AppendOps(items, PathOf(tokens)))
    ensures OpsApplied(doc, AppendOps(items, PathOf(tokens))) == Put(doc, tokens, Array(had + items))
    decreases |items|
  {
    if items == [] {
      PutBack(doc, tokens);
      assert had + items == had;
    } else {
      AppendLands(doc, tokens, items[0]);
      var longer := had + [items[0]];
      PutTwice(doc, tokens, Array(longer), Array(longer + items[1..]));
      AppendsLand(Put(doc, tokens, Array(longer)), tokens, longer, items[1..]);
      assert longer + items[1..] == had + items;
    }
  }

  /** The heart of the protocol: at any place in any document that holds `from`, the operations leave `target`. */
  lemma {:induction false} OpsLand(doc: Value, tokens: seq<string>, from: Value, target: Value)
    requires Navigate(doc, tokens) == Some(from)
    ensures NoTests(Ops(from, target, PathOf(tokens)))
    ensures OpsApplied(doc, Ops(from, target, PathOf(tokens))) == Put(doc, tokens, target)
    decreases target, 2
  {
    hide RemoveOps, FieldOps, Ascending, OpApplied;
    if from == target {
      PutBack(doc, tokens);
    } else if from.Object? && target.Object? {
      ObjectLands(doc, tokens, from, target);
    } else if from.Array? && target.Array? && from.items <= target.items {
      assert from.items + target.items[|from.items|..] == target.items;
      AppendsLand(doc, tokens, from.items, target.items[|from.items|..]);
    } else {
      ReplaceLands(doc, tokens, target);
      OneOp(doc, ReplaceOp(PathOf(tokens), target));
    }
  }

  lemma {:induction false} ObjectLands(doc: Value, tokens: seq<string>, from: Value, target: Value)
    requires from.Object? && target.Object? && from != target
    requires Navigate(doc, tokens) == Some(from)
    ensures NoTests(Ops(from, target, PathOf(tokens)))
    ensures OpsApplied(doc, Ops(from, target, PathOf(tokens))) == Put(doc, tokens, target)
    decreases target, 1
  {
    var path, had, now := PathOf(tokens), from.fields, target.fields;
    var gone, keys := Ascending(had.Keys), Ascending(now.Keys);
    var left := had - Gone(gone, now);
    RemovalsLand(doc, tokens, gone, had, now);
    PutTwice(doc, tokens, Object(left), target);
    FieldsLand(Put(doc, tokens, Object(left)), tokens, keys, left, from, target);
    KeysCover(from, target);
    OpsInTurn(doc, RemoveOps(gone, now, path), FieldOps(keys, from, target, path));
    OpsOfObjects(from, target, path);
  }

  /** Dropping the keys that are gone and setting those there are leaves the new fields. */
  lemma KeysCover(from: Value, target: Value)
    requires from.Object? && target.Object?
    ensures var left := from.fields - Gone(Ascending(from.fields.Keys), target.fields);
      left + Fresh(Ascending(target.fields.Keys), target) == target.fields
  {
  }

  lemma OpsOfObjects(from: Value, target: Value, path: string)
    requires from.Object? && target.Object? && from != target
    ensures Ops(from, target, path) == RemoveOps(Ascending(from.fields.Keys), target.fields, path)
      + FieldOps(Ascending(target.fields.Keys), from, target, path)
  {
    hide RemoveOps, FieldOps, AppendOps, Ascending;
  }

  ghost function Fresh(keys: seq<string>, target: Value): map<string, Value>
    requires target.Object? && forall k | k in keys :: k in target.fields
  {
    map k | k in keys :: target.fields[k]
  }

  lemma {:induction false} FieldLands(
    doc: Value, tokens: seq<string>, key: string, fields: map<string, Value>, from: Value, target: Value)
    requires from.Object? && target.Object? && key in target.fields
    requires Navigate(doc, tokens) == Some(Object(fields))
    requires (key in fields <==> key in from.fields) && (key in fields ==> fields[key] == from.fields[key])
    ensures NoTests(FieldOp(key, from, target, PathOf(tokens)))
    ensures OpsApplied(doc, FieldOp(key, from, target, PathOf(tokens)))
      == Put(doc, tokens, Object(fields[key := target.fields[key]]))
    decreases target, 0, 0
  {
    var v := target.fields[key];
    if key in from.fields {
      NavigateFurther(doc, tokens, key);
      PathOfChild(tokens, key);
      OpsLand(doc, tokens + [key], from.fields[key], v);
      PutFurther(doc, tokens, key, v);
    } else {
      AddLands(doc, tokens, key, v);
      OneOp(doc, AddOp(PathOf(tokens) + "/" + Escape(key), v));
    }
  }

  lemma FreshStep(keys: seq<string>, fields: map<string, Value>, target: Value)
    requires keys != [] && target.Object? && forall k | k in keys :: k in target.fields
    ensures fields[keys[0] := target.fields[keys[0]]] + Fresh(keys[1..], target) == fields + Fresh(keys, target)
  {
    assert forall k :: k in keys <==> k == keys[0] || k in keys[1..];
  }

  lemma {:induction false} FieldsLand(
    doc: Value, tokens: seq<string>, keys: seq<string>, fields: map<string, Value>, from: Value, target: Value)
    requires from.Object? && target.Object? && forall k | k in keys :: k in target.fields
    requires Navigate(doc, tokens) == Some(Object(fields))
    requires forall k | k in keys ::
      (k in fields <==> k in from.fields) && (k in fields ==> fields[k] == from.fields[k])
    requires forall i, j | 0 <= i < j < |keys| :: keys[i] != keys[j]
    ensures NoTests(FieldOps(keys, from, target, PathOf(tokens)))
    ensures OpsApplied(doc, FieldOps(keys, from, target, PathOf(tokens)))
      == Put(doc, tokens, Object(fields + Fresh(keys, target)))
    decreases target, 0, |keys|
  {
    if keys == [] {
      PutBack(doc, tokens);
      assert fields + Fresh(keys, target) == fields;
    } else {
      var key, rest, path := keys[0], keys[1..], PathOf(tokens);
      var one, all := fields[key := target.fields[key]], fields + Fresh(keys, target);
      FieldLands(doc, tokens, key, fields, from, target);
      PutTwice(doc, tokens, Object(one), Object(all));
      FieldsLand(Put(doc, tokens, Object(one)), tokens, rest, one, from, target);
      FreshStep(keys, fields, target);
      OpsInTurn(doc, FieldOp(key, from, target, path), FieldOps(rest, from, target, path));
    }
  }

  // ------------------------------------------------------------------------
  // One update
  // ------------------------------------------------------------------------

  /** What an update sends for a change from `from` to `new`: nothing, the operations, or past the cap one
      replacement of the whole document. */
  function UpdateOps(from: Value, target: Value): seq<Value> {
    var ops := Ops(from, target, "");
    if |ops| > MAX_PATCH_OPS then [ReplaceOp("", target)] else ops
  }

  /** The terminal ends on `target` whatever the values hold and however many operations it takes. */
  lemma UpdateRoundTrip(from: Value, target: Value)
    ensures Patched(from, Array(UpdateOps(from, target))) == target
    ensures UpdateOps(from, target) == [] <==> from == target
  {
    OpsLand(from, [], from, target);
    ReplaceLands(from, [], target);
    OneOp(from, ReplaceOp("", target));
  }
}

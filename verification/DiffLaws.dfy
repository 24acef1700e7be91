/** A diff says no more than it has to: each operation is about a place where the two values differ. */
module DiffLaws {
  import opened Text
  import opened Json
  import opened Pointer
  import opened Patch
  import opened Diff

  /** The fields of the object at `keys` in a value, when there is one. */
  function FieldsAt(v: Value, keys: seq<string>): Option<map<string, Value>> {
    match Navigate(v, keys)
    case Some(Object(fields)) => Some(fields)
    case _ => None
  }

  /** A field the new object no longer has is removed. */
  ghost predicate Removes(op: Value, at: seq<string>, keys: seq<string>, key: string, from: Value, target: Value) {
    && FieldsAt(from, keys).Some? && FieldsAt(target, keys).Some?
    && key in FieldsAt(from, keys).value && key !in FieldsAt(target, keys).value
    && op == RemoveOp(PathOf(at + keys + [key]))
  }

  /** A field only the new object has is added, with its value. */
  ghost predicate Adds(op: Value, at: seq<string>, keys: seq<string>, key: string, from: Value, target: Value) {
    && FieldsAt(from, keys).Some? && FieldsAt(target, keys).Some?
    && key !in FieldsAt(from, keys).value && key in FieldsAt(target, keys).value
    && op == AddOp(PathOf(at + keys + [key]), FieldsAt(target, keys).value[key])
  }

  /** An item past the end of an array that only grew is appended. */
  ghost predicate Appends(op: Value, at: seq<string>, keys: seq<string>, from: Value, target: Value) {
    var had, now := Navigate(from, keys), Navigate(target, keys);
    && had.Some? && now.Some? && had.value.Array? && now.value.Array? && had.value.items <= now.value.items
    && exists i | |had.value.items| <= i < |now.value.items| ::
         op == AddOp(PathOf(at + keys) + "/-", now.value.items[i])
  }

  /** A value that changed and can be told no finer is replaced. */
  ghost predicate Replaces(op: Value, at: seq<string>, keys: seq<string>, from: Value, target: Value) {
    var had, now := Navigate(from, keys), Navigate(target, keys);
    && had.Some? && now.Some? && had != now
    && !(had.value.Object? && now.value.Object?)
    && !(had.value.Array? && now.value.Array? && had.value.items <= now.value.items)
    && op == ReplaceOp(PathOf(at + keys), now.value)
  }

  ghost predicate NeededAt(op: Value, at: seq<string>, keys: seq<string>, from: Value, target: Value) {
    || Appends(op, at, keys, from, target) || Replaces(op, at, keys, from, target)
    || exists key :: Removes(op, at, keys, key, from, target) || Adds(op, at, keys, key, from, target)
  }

  ghost predicate Needed(op: Value, at: seq<string>, from: Value, target: Value) {
    exists keys :: NeededAt(op, at, keys, from, target)
  }

  /** What is needed within a field is needed within the object. */
  lemma NeededInField(op: Value, at: seq<string>, key: string, from: Value, target: Value)
    requires from.Object? && target.Object? && key in from.fields && key in target.fields
    requires Needed(op, at + [key], from.fields[key], target.fields[key])
    ensures Needed(op, at, from, target)
  {
    var keys :| NeededAt(op, at + [key], keys, from.fields[key], target.fields[key]);
    var all := [key] + keys;
    assert all[1..] == keys && at + all == at + [key] + keys;
    InsideField(from, key, keys);
    InsideField(target, key, keys);
    hide Navigate, PathOf, RemoveOp, AddOp, ReplaceOp;
    assert NeededAt(op, at, all, from, target) by {
      if exists k :: Removes(op, at + [key], keys, k, from.fields[key], target.fields[key])
                     || Adds(op, at + [key], keys, k, from.fields[key], target.fields[key]) {
        var k :| Removes(op, at + [key], keys, k, from.fields[key], target.fields[key])
                 || Adds(op, at + [key], keys, k, from.fields[key], target.fields[key]);
        assert Removes(op, at, all, k, from, target) || Adds(op, at, all, k, from, target);
      }
    }
  }

  lemma InsideField(v: Value, key: string, keys: seq<string>)
    requires v.Object? && key in v.fields
    ensures Navigate(v, [key] + keys) == Navigate(v.fields[key], keys)
    ensures FieldsAt(v, [key] + keys) == FieldsAt(v.fields[key], keys)
  {
    assert ([key] + keys)[1..] == keys;
  }

  lemma {:induction false} RemovalsNeeded(keys: seq<string>, at: seq<string>, from: Value, target: Value, op: Value)
    requires from.Object? && target.Object? && forall k | k in keys :: k in from.fields
    requires op in RemoveOps(keys, target.fields, PathOf(at))
    ensures Needed(op, at, from, target)
  {
    hide PathOf, RemoveOp, Escape;
    if keys != [] {
      var key := keys[0];
      assert forall k | k in keys[1..] :: k in keys;
      if op in RemoveOps(keys[1..], target.fields, PathOf(at)) {
        RemovalsNeeded(keys[1..], at, from, target, op);
      } else {
        PathOfChild(at, key);
        assert at + [] == at;
        HereIs(from);
        HereIs(target);
        assert Removes(op, at, [], key, from, target);
        assert NeededAt(op, at, [], from, target);
      }
    }
  }

  lemma HereIs(v: Value)
    requires v.Object?
    ensures FieldsAt(v, []) == Some(v.fields)
  {
  }

  lemma {:induction false} AppendsNeeded(
    had: seq<Value>, items: seq<Value>, at: seq<string>, from: Value, target: Value, op: Value)
    requires from == Array(had) && target.Array? && had <= target.items
    requires |items| <= |target.items| - |had| && items == target.items[|target.items| - |items|..]
    requires op in AppendOps(items, PathOf(at))
    ensures Needed(op, at, from, target)
  {
    hide PathOf, AddOp;
    if items != [] {
      var i := |target.items| - |items|;
      if op in AppendOps(items[1..], PathOf(at)) {
        AppendsNeeded(had, items[1..], at, from, target, op);
      } else {
        assert at + [] == at && op == AddOp(PathOf(at) + "/-", target.items[i]);
        assert Appends(op, at, [], from, target);
        assert NeededAt(op, at, [], from, target);
      }
    }
  }

  lemma {:induction false} FieldsNeeded(keys: seq<string>, from: Value, target: Value, at: seq<string>, op: Value)
    requires from.Object? && target.Object? && forall k | k in keys :: k in target.fields
    requires op in FieldOps(keys, from, target, PathOf(at))
    ensures Needed(op, at, from, target)
    decreases target, 0, |keys|
  {
    hide PathOf, FieldOp, Escape;
    if keys != [] {
      if op in FieldOps(keys[1..], from, target, PathOf(at)) {
        FieldsNeeded(keys[1..], from, target, at, op);
      } else {
        FieldNeeded(keys[0], from, target, at, op);
      }
    }
  }

  lemma {:induction false} FieldNeeded(key: string, from: Value, target: Value, at: seq<string>, op: Value)
    requires from.Object? && target.Object? && key in target.fields
    requires op in FieldOp(key, from, target, PathOf(at))
    ensures Needed(op, at, from, target)
    decreases target, 0, 0
  {
    hide PathOf, Escape, AddOp, Ops;
    PathOfChild(at, key);
    if key in from.fields {
      EachOpNeeded(from.fields[key], target.fields[key], at + [key], op);
      NeededInField(op, at, key, from, target);
    } else {
      assert at + [] == at;
      HereIs(from);
      HereIs(target);
      assert Adds(op, at, [], key, from, target);
      assert NeededAt(op, at, [], from, target);
    }
  }

  /** Every operation of a diff removes a field that is gone, adds one that is new, appends to an array that only grew,
      or replaces a value that changed and is neither: nothing the two values share is sent again. */
  lemma {:induction false} EachOpNeeded(from: Value, target: Value, at: seq<string>, op: Value)
    requires op in Ops(from, target, PathOf(at))
    ensures Needed(op, at, from, target)
    decreases target, 1, 0
  {
    hide PathOf, RemoveOps, FieldOps, AppendOps, ReplaceOp, Ascending;
    if from != target {
      if from.Object? && target.Object? {
        OpsOfObjects(from, target, PathOf(at));
        if op in RemoveOps(Ascending(from.fields.Keys), target.fields, PathOf(at)) {
          RemovalsNeeded(Ascending(from.fields.Keys), at, from, target, op);
        } else {
          FieldsNeeded(Ascending(target.fields.Keys), from, target, at, op);
        }
      } else if from.Array? && target.Array? && from.items <= target.items {
        AppendsNeeded(from.items, target.items[|from.items|..], at, from, target, op);
      } else {
        assert at + [] == at;
        assert Replaces(op, at, [], from, target);
        assert NeededAt(op, at, [], from, target);
      }
    }
  }
}

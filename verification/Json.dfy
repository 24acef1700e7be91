/** JSON values as `serde_json` holds them: an object is a map read in the order of its keys. */
module Json {
  import opened Text

  /** A number is kept as the text it prints as. */
  datatype Value =
    | Null
    | Bool(b: bool)
    | Number(text: string)
    | String(s: string)
    | Array(items: seq<Value>)
    | Object(fields: map<string, Value>)

  // ------------------------------------------------------------------------
  // Key order
  // ------------------------------------------------------------------------

  /** Code point order, which for UTF-8 is the order of the bytes. */
  predicate AtMost(a: string, b: string) {
    a == [] || (b != [] && (a[0] < b[0] || (a[0] == b[0] && AtMost(a[1..], b[1..]))))
  }

  lemma {:induction false} AtMostTotal(a: string, b: string)
    ensures AtMost(a, b) || AtMost(b, a)
    ensures AtMost(a, b) && AtMost(b, a) ==> a == b
  {
    if a != [] && b != [] && a[0] == b[0] {
      AtMostTotal(a[1..], b[1..]);
      assert a == [a[0]] + a[1..] && b == [b[0]] + b[1..];
    }
  }

  lemma {:induction false} AtMostTransitive(a: string, b: string, c: string)
    requires AtMost(a, b) && AtMost(b, c)
    ensures AtMost(a, c)
  {
    if a != [] && a[0] == b[0] && b[0] == c[0] {
      AtMostTransitive(a[1..], b[1..], c[1..]);
    }
  }

  ghost predicate IsLeast(k: string, keys: set<string>) {
    k in keys && forall other | other in keys :: AtMost(k, other)
  }

  lemma {:induction false} LeastExists(keys: set<string>)
    requires keys != {}
    ensures exists k :: IsLeast(k, keys)
    decreases |keys|
  {
    var k :| k in keys;
    var rest := keys - {k};
    AtMostTotal(k, k);
    if rest == {} {
      assert keys == {k};
      assert IsLeast(k, keys);
    } else {
      LeastExists(rest);
      var l :| IsLeast(l, rest);
      AtMostTotal(k, l);
      if AtMost(k, l) {
        forall other | other in keys ensures AtMost(k, other) {
          if other != k {
            AtMostTransitive(k, l, other);
          }
        }
        assert IsLeast(k, keys);
      } else {
        assert IsLeast(l, keys);
      }
    }
  }

  /** The first key of a map, in its order. */
  function Least(keys: set<string>): (k: string)
    requires keys != {}
    ensures IsLeast(k, keys)
  {
    LeastExists(keys);
    assert forall k, l :: k in keys && l in keys && AtMost(k, l) && AtMost(l, k) ==> k == l by {
      forall k, l | k in keys && l in keys { AtMostTotal(k, l); }
    }
    var k :| k in keys && forall other | other in keys :: AtMost(k, other);
    k
  }

  lemma LeastIsUnique(k: string, keys: set<string>)
    requires IsLeast(k, keys)
    ensures k == Least(keys)
  {
    AtMostTotal(k, Least(keys));
  }

  /** The keys in ascending order, as a map is iterated. */
  function Ascending(keys: set<string>): (order: seq<string>)
    ensures forall k :: k in order <==> k in keys
    ensures forall i, j | 0 <= i < j < |order| :: order[i] != order[j]
    decreases |keys|
  {
    if keys == {} then [] else [Least(keys)] + Ascending(keys - {Least(keys)})
  }

  // ------------------------------------------------------------------------
  // Sums over a map
  // ------------------------------------------------------------------------

  function SumSeq(ns: seq<nat>): nat {
    if ns == [] then 0 else ns[0] + SumSeq(ns[1..])
  }

  function SumMap(m: map<string, nat>): nat
    decreases |m|
  {
    if m == map[] then 0 else
      var k := Least(m.Keys);
      m[k] + SumMap(m - {k})
  }

  /** The sum does not care which entry is counted first. */
  lemma {:induction false} SumMapPick(m: map<string, nat>, k: string)
    requires k in m
    ensures SumMap(m) == m[k] + SumMap(m - {k})
    decreases |m|
  {
    var l := Least(m.Keys);
    if l != k {
      SumMapPick(m - {l}, k);
      assert m - {l} - {k} == m - {k} - {l};
      assert (m - {k}).Keys == m.Keys - {k};
      LeastIsUnique(l, (m - {k}).Keys);
    }
  }

  /** Setting one entry changes the sum by the difference. */
  lemma {:induction false} SumMapUpdate(m: map<string, nat>, k: string, n: nat)
    ensures SumMap(m[k := n]) + (if k in m then m[k] else 0) == SumMap(m) + n
  {
    SumMapPick(m[k := n], k);
    assert m[k := n] - {k} == m - {k};
    if k in m {
      SumMapPick(m, k);
    } else {
      assert m - {k} == m;
    }
  }

  lemma SumSeqConcat(a: seq<nat>, b: seq<nat>)
    ensures SumSeq(a + b) == SumSeq(a) + SumSeq(b)
  {
    if a == [] {
      assert a + b == b;
    } else {
      assert (a + b)[1..] == a[1..] + b;
    }
  }

  lemma SumSeqSplit(s: seq<nat>, at: nat)
    requires at < |s|
    ensures SumSeq(s) == SumSeq(s[..at]) + s[at] + SumSeq(s[at + 1..])
  {
    assert s == s[..at] + ([s[at]] + s[at + 1..]);
    SumSeqConcat(s[..at], [s[at]] + s[at + 1..]);
  }

  // ------------------------------------------------------------------------
  // Sizes
  // ------------------------------------------------------------------------

  /** How many values `v` holds, itself and every nested one. */
  function NodeCount(v: Value): (n: nat)
    ensures n >= 1
  {
    1 + match v
      case Array(items) => SumSeq(seq(|items|, i requires 0 <= i < |items| => NodeCount(items[i])))
      case Object(fields) => SumMap(map k | k in fields :: NodeCount(fields[k]))
      case _ => 0
  }

  function ItemNodes(items: seq<Value>): seq<nat> {
    seq(|items|, i requires 0 <= i < |items| => NodeCount(items[i]))
  }

  function FieldNodes(fields: map<string, Value>): map<string, nat> {
    map k | k in fields :: NodeCount(fields[k])
  }

  lemma NodeCountUnfolds(v: Value)
    ensures v.Array? ==> NodeCount(v) == 1 + SumSeq(ItemNodes(v.items))
    ensures v.Object? ==> NodeCount(v) == 1 + SumMap(FieldNodes(v.fields))
  {
    match v
    case Array(items) =>
      assert ItemNodes(items) == seq(|items|, i requires 0 <= i < |items| => NodeCount(items[i]));
    case Object(fields) =>
      assert FieldNodes(fields) == map k | k in fields :: NodeCount(fields[k]);
    case _ =>
  }

  /** Setting a field changes the count by the difference. */
  lemma {:induction false} NodesOfField(fields: map<string, Value>, key: string, v: Value)
    ensures NodeCount(Object(fields[key := v])) + (if key in fields then NodeCount(fields[key]) else 0)
      == NodeCount(Object(fields)) + NodeCount(v)
  {
    NodeCountUnfolds(Object(fields));
    NodeCountUnfolds(Object(fields[key := v]));
    SumMapUpdate(FieldNodes(fields), key, NodeCount(v));
    assert FieldNodes(fields[key := v]) == FieldNodes(fields)[key := NodeCount(v)];
  }

  /** Setting an item changes the count by the difference. */
  lemma {:induction false} NodesOfItem(items: seq<Value>, at: nat, v: Value)
    requires at < |items|
    ensures NodeCount(Array(items[at := v])) + NodeCount(items[at]) == NodeCount(Array(items)) + NodeCount(v)
  {
    NodeCountUnfolds(Array(items));
    NodeCountUnfolds(Array(items[at := v]));
    var before, after := ItemNodes(items), ItemNodes(items[at := v]);
    SumSeqSplit(before, at);
    SumSeqSplit(after, at);
    assert before[..at] == after[..at] && before[at + 1..] == after[at + 1..];
  }

  /** How many bytes `c` takes inside a JSON string. */
  function EscapedBytes(c: char): nat {
    if c in {'\"', '\\', '\n', '\r', '\t', 8 as char, 12 as char} then 2
    else if c as int < 0x20 then 6
    else CharBytes(c)
  }

  function QuotedBytes(s: string): (n: nat)
    ensures n >= 2
  {
    if s == [] then 2 else EscapedBytes(s[0]) + QuotedBytes(s[1..])
  }

  /** How many bytes `v` serializes to, with no spaces. */
  function JsonBytes(v: Value): (n: nat) {
    match v
    case Null => 4
    case Bool(b) => if b then 4 else 5
    case Number(text) => Bytes(text)
    case String(s) => QuotedBytes(s)
    case Array(items) =>
      2 + Commas(|items|) + SumSeq(seq(|items|, i requires 0 <= i < |items| => JsonBytes(items[i])))
    case Object(fields) =>
      2 + Commas(|fields|) + SumMap(map k | k in fields :: QuotedBytes(k) + 1 + JsonBytes(fields[k]))
  }

  function Commas(n: nat): nat { if n == 0 then 0 else n - 1 }
}

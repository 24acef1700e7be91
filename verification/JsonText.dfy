/** A value's JSON text, with no spaces, and that its size is counted right. */
module JsonText {
  import opened Text
  import opened Json

  const HEX := "0123456789abcdef"

  /** A character inside a JSON string (section 7 of RFC 8259). */
  function CharText(c: char): string {
    var n := c as int;
    if c == '\"' then "\\\""
    else if c == '\\' then "\\\\"
    else if c == '\n' then "\\n"
    else if c == '\r' then "\\r"
    else if c == '\t' then "\\t"
    else if n == 8 then "\\b"
    else if n == 12 then "\\f"
    else if n < 0x20 then "\\u00" + [HEX[n / 16], HEX[n % 16]]
    else [c]
  }

  function CharsText(s: string): string {
    if s == "" then "" else CharText(s[0]) + CharsText(s[1..])
  }

  function Quoted(s: string): string {
    "\"" + CharsText(s) + "\""
  }

  /** Texts with a comma between each two. */
  function Listed(texts: seq<string>): string {
    if texts == [] then "" else if |texts| == 1 then texts[0] else texts[0] + "," + Listed(texts[1..])
  }

  /** The text of a value, the fields of an object in the order of their keys. */
  function JsonText(v: Value): string {
    match v
    case Null => "null"
    case Bool(b) => if b then "true" else "false"
    case Number(text) => text
    case String(s) => Quoted(s)
    case Array(items) => "[" + Listed(seq(|items|, i requires 0 <= i < |items| => JsonText(items[i]))) + "]"
    case Object(fields) =>
      var keys := Ascending(fields.Keys);
      "{" + Listed(seq(|keys|, i requires 0 <= i < |keys| => (
        assert keys[i] in keys;
        Quoted(keys[i]) + ":" + JsonText(fields[keys[i]])
      ))) + "}"
  }

  // ------------------------------------------------------------------------
  // Sizes
  // ------------------------------------------------------------------------

  lemma {:induction false} AsciiBytes(s: string)
    requires forall c | c in s :: c as int < 0x80
    ensures Bytes(s) == |s|
  {
    if s != "" {
      assert s[0] in s && forall c | c in s[1..] :: c in s;
      AsciiBytes(s[1..]);
    }
  }

  lemma CharSize(c: char)
    ensures Bytes(CharText(c)) == EscapedBytes(c)
  {
    var text := CharText(c);
    if c in {'\"', '\\', '\n', '\r', '\t', 8 as char, 12 as char} || c as int < 0x20 {
      HexIsAscii();
      AsciiBytes(text);
    } else {
      assert [c][1..] == "";
    }
  }

  lemma HexIsAscii()
    ensures forall i | 0 <= i < 16 :: HEX[i] as int < 0x80
  {
  }

  lemma {:induction false} CharsSize(s: string)
    ensures Bytes(CharsText(s)) + 2 == QuotedBytes(s)
  {
    hide CharText, EscapedBytes;
    if s != "" {
      CharSize(s[0]);
      CharsSize(s[1..]);
      BytesOfConcat(CharText(s[0]), CharsText(s[1..]));
    }
  }

  lemma QuotedSize(s: string)
    ensures Bytes(Quoted(s)) == QuotedBytes(s)
  {
    hide CharsText;
    CharsSize(s);
    AsciiBytes("\"");
    BytesOfConcat("\"" + CharsText(s), "\"");
    BytesOfConcat("\"", CharsText(s));
  }

  function Sizes(texts: seq<string>): seq<nat> {
    seq(|texts|, i requires 0 <= i < |texts| => Bytes(texts[i]))
  }

  lemma {:induction false} ListedSize(texts: seq<string>)
    ensures Bytes(Listed(texts)) == SumSeq(Sizes(texts)) + Commas(|texts|)
  {
    hide Bytes;
    if texts == [] {
      NoBytes();
    } else {
      assert Sizes(texts)[1..] == Sizes(texts[1..]);
      if |texts| > 1 {
        ListedSize(texts[1..]);
        AsciiBytes(",");
        BytesOfConcat(texts[0] + ",", Listed(texts[1..]));
        BytesOfConcat(texts[0], ",");
      }
    }
  }

  lemma NoBytes()
    ensures Bytes("") == 0
  {
  }

  lemma Bracketed(open: string, inner: string, close: string)
    requires (open == "[" && close == "]") || (open == "{" && close == "}")
    ensures Bytes(open + inner + close) == 2 + Bytes(inner)
  {
    hide Bytes;
    AsciiBytes(open);
    AsciiBytes(close);
    BytesOfConcat(open + inner, close);
    BytesOfConcat(open, inner);
  }

  lemma AlongFirst(m: map<string, nat>, k: string, rest: seq<string>)
    requires k in m && k !in rest
    ensures Along(m, [k] + rest) == [m[k]] + Along(m - {k}, rest)
  {
    var whole, others := Along(m, [k] + rest), Along(m - {k}, rest);
    forall i | 0 <= i < |rest| ensures whole[i + 1] == others[i] {
      assert ([k] + rest)[i + 1] == rest[i] && rest[i] in rest;
    }
  }

  lemma AscendingFirst(keys: set<string>)
    requires keys != {}
    ensures var k := Least(keys);
      k in keys && k !in Ascending(keys - {k}) && Ascending(keys) == [k] + Ascending(keys - {k})
  {
  }

  /** A map's sum is the sum in the order of its keys. */
  lemma {:induction false} SumInOrder(m: map<string, nat>)
    ensures SumMap(m) == SumSeq(Along(m, Ascending(m.Keys)))
    decreases |m|
  {
    hide Along, Ascending;
    if m != map[] {
      var k := Least(m.Keys);
      AscendingFirst(m.Keys);
      AlongFirst(m, k, Ascending(m.Keys - {k}));
      SumInOrder(m - {k});
      assert (m - {k}).Keys == m.Keys - {k};
    } else {
      NoKeys(m);
    }
  }

  lemma NoKeys(m: map<string, nat>)
    requires m == map[]
    ensures Along(m, Ascending(m.Keys)) == []
  {
  }

  function Along(m: map<string, nat>, keys: seq<string>): (ns: seq<nat>)
    ensures |ns| == |keys|
  {
    seq(|keys|, i requires 0 <= i < |keys| => if keys[i] in m then m[keys[i]] else 0)
  }

  lemma {:induction false} AscendingCount(keys: set<string>)
    ensures |Ascending(keys)| == |keys|
    decreases |keys|
  {
    if keys != {} {
      AscendingCount(keys - {Least(keys)});
    }
  }

  function ItemTexts(items: seq<Value>): seq<string> {
    seq(|items|, i requires 0 <= i < |items| => JsonText(items[i]))
  }

  function FieldText(fields: map<string, Value>, key: string): string {
    if key in fields then Quoted(key) + ":" + JsonText(fields[key]) else ""
  }

  function FieldTexts(fields: map<string, Value>, keys: seq<string>): seq<string> {
    seq(|keys|, i requires 0 <= i < |keys| => FieldText(fields, keys[i]))
  }

  lemma ObjectText(fields: map<string, Value>)
    ensures JsonText(Object(fields)) == "{" + Listed(FieldTexts(fields, Ascending(fields.Keys))) + "}"
  {
    hide Quoted, Listed;
    var keys := Ascending(fields.Keys);
    assert forall i | 0 <= i < |keys| :: keys[i] in keys;
    assert FieldTexts(fields, keys) == seq(|keys|, i requires 0 <= i < |keys| => (
      assert keys[i] in keys;
      Quoted(keys[i]) + ":" + JsonText(fields[keys[i]])
    ));
  }

  /** The size counted for a value is the size of its text in bytes. */
  lemma {:induction false} SizeIsText(v: Value)
    ensures Bytes(JsonText(v)) == JsonBytes(v)
  {
    match v
    case Null => AsciiBytes("null");
    case Bool(b) =>
      AsciiBytes("true");
      AsciiBytes("false");
    case Number(_) =>
    case String(s) => QuotedSize(s);
    case Array(items) => ArraySize(items);
    case Object(fields) => ObjectSize(fields);
  }

  lemma {:induction false} ArraySize(items: seq<Value>)
    ensures Bytes(JsonText(Array(items))) == JsonBytes(Array(items))
    decreases Array(items), 0
  {
    hide Bytes, Listed;
    var texts := ItemTexts(items);
    forall i | 0 <= i < |items| ensures Bytes(texts[i]) == JsonBytes(items[i]) {
      SizeIsText(items[i]);
    }
    ListedSize(texts);
    assert Sizes(texts) == seq(|items|, i requires 0 <= i < |items| => JsonBytes(items[i]));
    assert texts == seq(|items|, i requires 0 <= i < |items| => JsonText(items[i]));
    Bracketed("[", Listed(texts), "]");
  }

  lemma {:induction false} ObjectSize(fields: map<string, Value>)
    ensures Bytes(JsonText(Object(fields))) == JsonBytes(Object(fields))
    decreases Object(fields), 0
  {
    hide Bytes, Listed, Quoted, QuotedBytes;
    var keys := Ascending(fields.Keys);
    var texts := FieldTexts(fields, keys);
    var sizes := map k | k in fields :: QuotedBytes(k) + 1 + JsonBytes(fields[k]);
    forall i | 0 <= i < |keys| ensures Bytes(texts[i]) == sizes[keys[i]] {
      assert keys[i] in keys;
      SizeIsText(fields[keys[i]]);
      FieldSize(keys[i], fields[keys[i]]);
    }
    ObjectText(fields);
    ListedSize(texts);
    assert sizes.Keys == fields.Keys;
    SumInOrder(sizes);
    assert Sizes(texts) == Along(sizes, keys);
    AscendingCount(fields.Keys);
    assert |fields| == |fields.Keys|;
    Bracketed("{", Listed(texts), "}");
  }

  lemma FieldSize(key: string, v: Value)
    ensures Bytes(Quoted(key) + ":" + JsonText(v)) == QuotedBytes(key) + 1 + Bytes(JsonText(v))
  {
    hide Bytes, Quoted, QuotedBytes, JsonText;
    QuotedSize(key);
    AsciiBytes(":");
    BytesOfConcat(Quoted(key) + ":", JsonText(v));
    BytesOfConcat(Quoted(key), ":");
  }
}

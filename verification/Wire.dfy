/** OSC 9001 framing: messages printed onto the byte stream and parsed back from it. */
module Wire {
  import opened Text
  import opened Json
  import opened Messages
  import Utf8

  // ------------------------------------------------------------------------
  // Constants
  // ------------------------------------------------------------------------

  const OSC_START := [0x1b as char, ']']
  const ST := [0x1b as char, '\\']
  const OSC_NUMBER := 9001
  const PROTOCOL_VERSION := 1
  const U16_LIMIT := 0x1_0000
  const U32_LIMIT := 0x1_0000_0000
  const U64_LIMIT := 0x1_0000_0000_0000_0000

  const DEFAULT_MIME := "application/octet-stream"

  /** Why a frame could not be read. */
  datatype ProtoError =
    | BadParam(name: string)
    | Base64
    | JsonText
    | MalformedFrame
    | MissingParam(name: string)
    | UnknownVerb(verb: string)
    | UnsupportedVersion(version: nat)
    | WrongOsc

  datatype Result<+T> = Ok(value: T) | Err(error: ProtoError) {
    predicate IsFailure() { Err? }
    function PropagateFailure<U>(): Result<U> requires Err? { Err(error) }
    function Extract(): T requires Ok? { value }
  }

  /** JSON text in base64, and plain base64: libraries, taken as functions. */
  datatype Codec = Codec(
    encodeBundle: Bundle -> string, decodeBundle: string -> Result<Bundle>,
    encodeValue: Value -> string, decodeValue: string -> Result<Value>,
    encodeBytes: seq<byte> -> string)

  predicate IsBase64(s: string) {
    forall c | c in s :: 'A' <= c <= 'Z' || 'a' <= c <= 'z' || '0' <= c <= '9' || c == '+' || c == '/' || c == '='
  }

  /** What the model asks of the libraries: what they encode they decode, and base64 is spelled in its alphabet. */
  ghost predicate Sound(codec: Codec) {
    && (forall b :: codec.decodeBundle(codec.encodeBundle(b)) == Ok(b) && IsBase64(codec.encodeBundle(b)))
    && (forall v :: codec.decodeValue(codec.encodeValue(v)) == Ok(v) && IsBase64(codec.encodeValue(v)))
  }

  // ------------------------------------------------------------------------
  // Parameter values
  // ------------------------------------------------------------------------

  predicate IsFraming(c: char) { c in {';', ',', '=', '%'} }

  predicate IsControl(c: char) { c as int < 0x20 || c as int == 0x7f }

  const HEX_DIGITS := "0123456789ABCDEF"

  /** Two upper-case hex digits. */
  function Hex(n: nat): string
    requires n < 256
  {
    [HEX_DIGITS[n / 16], HEX_DIGITS[n % 16]]
  }

  function EscapedChar(c: char): string {
    if IsFraming(c) || IsControl(c) then "%" + Hex(c as int) else [c]
  }

  function Escaped(value: string): string {
    if value == "" then "" else EscapedChar(value[0]) + Escaped(value[1..])
  }

  method PushParamValue(out: string, value: string) returns (longer: string)
    ensures longer == out + Escaped(value)
  {
    hide Hex;
    longer := out;
    assert value[0..] == value;
    for at := 0 to |value|
      invariant longer + Escaped(value[at..]) == out + Escaped(value)
    {
      assert value[at..][1..] == value[at + 1..];
      Assoc(longer, EscapedChar(value[at]), Escaped(value[at + 1..]));
      if IsFraming(value[at]) || IsControl(value[at]) {
        longer := longer + ("%" + Hex(value[at] as int));
      } else {
        longer := longer + [value[at]];
      }
    }
  }

  /** The value of a hex digit of either case. */
  function HexDigit(b: byte): Option<nat> {
    var n := b as int;
    if 48 <= n <= 57 then Some(n - 48)
    else if 65 <= n <= 70 then Some(n - 55)
    else if 97 <= n <= 102 then Some(n - 87)
    else None
  }

  /** The byte a `%` and two hex digits at `at` stand for. */
  function EncodedByte(bytes: seq<byte>, at: nat): (b: Option<byte>)
    ensures b.Some? ==> at + 2 < |bytes|
  {
    if at + 2 < |bytes| && bytes[at] == 0x25 && HexDigit(bytes[at + 1]).Some? && HexDigit(bytes[at + 2]).Some?
    then Some((HexDigit(bytes[at + 1]).value * 16 + HexDigit(bytes[at + 2]).value) as byte)
    else None
  }

  function UnescapedBytes(bytes: seq<byte>): seq<byte>
    decreases |bytes|
  {
    if bytes == [] then []
    else match EncodedByte(bytes, 0)
      case Some(b) => [b] + UnescapedBytes(bytes[3..])
      case None => [bytes[0]] + UnescapedBytes(bytes[1..])
  }

  /** A `%` without two hex digits stays, and so does the whole value when what it spells is not UTF-8. */
  function Unescaped(raw: string): string {
    if '%' !in raw then raw else Utf8.Decode(UnescapedBytes(Utf8.Encode(raw))).GetOr(raw)
  }

  method UnescapeParamValue(raw: string) returns (value: string)
    ensures value == Unescaped(raw)
  {
    if '%' !in raw {
      return raw;
    }
    var out := UnescapeBytes(Utf8.Encode(raw));
    return Utf8.Decode(out).GetOr(raw);
  }

  method UnescapeBytes(bytes: seq<byte>) returns (out: seq<byte>)
    ensures out == UnescapedBytes(bytes)
  {
    hide UnescapedBytes, EncodedByte;
    out := [];
    var index := 0;
    assert bytes[0..] == bytes;
    while index < |bytes|
      invariant index <= |bytes|
      invariant out + UnescapedBytes(bytes[index..]) == UnescapedBytes(bytes)
    {
      UnescapeStep(bytes, index, out);
      match EncodedByte(bytes, index) {
        case Some(b) =>
          out, index := out + [b], index + 3;
        case None =>
          out, index := out + [bytes[index]], index + 1;
      }
    }
    NothingToUnescape();
    assert bytes[index..] == [];
  }

  lemma NothingToUnescape()
    ensures UnescapedBytes([]) == []
  {
  }

  lemma UnescapeStep(bytes: seq<byte>, at: nat, out: seq<byte>)
    requires at < |bytes|
    ensures out + UnescapedBytes(bytes[at..]) ==
      match EncodedByte(bytes, at)
      case Some(b) => out + [b] + UnescapedBytes(bytes[at + 3..])
      case None => out + [bytes[at]] + UnescapedBytes(bytes[at + 1..])
  {
    var rest := bytes[at..];
    assert rest[1..] == bytes[at + 1..];
    assert EncodedByte(bytes, at) == EncodedByte(rest, 0);
    if EncodedByte(bytes, at).Some? {
      assert rest[3..] == bytes[at + 3..];
    }
  }

  /** Bytes with no `%` among them are read as they are. */
  lemma {:induction false} PlainBytes(a: seq<byte>, rest: seq<byte>)
    requires 0x25 !in a
    ensures UnescapedBytes(a + rest) == a + UnescapedBytes(rest)
  {
    if a == [] {
      assert a + rest == rest;
    } else {
      assert (a + rest)[1..] == a[1..] + rest;
      PlainBytes(a[1..], rest);
    }
  }

  lemma EscapedCharBack(c: char, rest: seq<byte>)
    ensures UnescapedBytes(Utf8.Encode(EscapedChar(c)) + rest) == Utf8.EncodeChar(c) + UnescapedBytes(rest)
  {
    Utf8.HighBytes(c);
    if IsFraming(c) || IsControl(c) {
      HexBack(c as int);
      var bytes := Utf8.Encode("%" + Hex(c as int));
      assert (bytes + rest)[3..] == rest;
      assert EncodedByte(bytes + rest, 0) == Some(c as int as byte);
    } else {
      assert Utf8.Encode([c][1..]) == [];
      assert Utf8.Encode([c]) == Utf8.EncodeChar(c);
      PlainBytes(Utf8.EncodeChar(c), rest);
    }
  }

  lemma HexBack(n: nat)
    requires n < 0x80
    ensures var bytes := Utf8.Encode("%" + Hex(n));
      && |bytes| == 3 && bytes[0] == 0x25
      && HexDigit(bytes[1]) == Some(n / 16) && HexDigit(bytes[2]) == Some(n % 16)
  {
    var s := "%" + Hex(n);
    ThreeAscii(s[0], s[1], s[2]);
    assert s == [s[0], s[1], s[2]];
  }

  lemma ThreeAscii(a: char, b: char, c: char)
    requires a as int < 0x80 && b as int < 0x80 && c as int < 0x80
    ensures Utf8.Encode([a, b, c]) == [a as int as byte, b as int as byte, c as int as byte]
  {
    assert [a, b, c][1..] == [b, c] && [b, c][1..] == [c] && [c][1..] == "";
    assert Utf8.Encode([c]) == [c as int as byte];
    assert Utf8.Encode([b, c]) == [b as int as byte, c as int as byte];
  }

  lemma {:induction false} EncodeConcat(a: string, b: string)
    ensures Utf8.Encode(a + b) == Utf8.Encode(a) + Utf8.Encode(b)
  {
    if a == "" {
      assert a + b == b;
    } else {
      assert (a + b)[1..] == a[1..] + b;
      EncodeConcat(a[1..], b);
    }
  }

  lemma {:induction false} EscapedBytesBack(value: string)
    ensures UnescapedBytes(Utf8.Encode(Escaped(value))) == Utf8.Encode(value)
  {
    if value != "" {
      EncodeConcat(EscapedChar(value[0]), Escaped(value[1..]));
      EscapedCharBack(value[0], Utf8.Encode(Escaped(value[1..])));
      EscapedBytesBack(value[1..]);
    }
  }

  lemma {:induction false} NothingEscaped(value: string)
    ensures '%' in Escaped(value) || Escaped(value) == value
  {
    if value != "" {
      NothingEscaped(value[1..]);
      assert forall c | c in Escaped(value[1..]) :: c in Escaped(value);
      if IsFraming(value[0]) || IsControl(value[0]) {
        assert Escaped(value)[0] == '%';
      }
    }
  }

  /** Every parameter value is read back as it was, whatever characters it holds. */
  lemma ValueRoundTrip(value: string)
    ensures Unescaped(Escaped(value)) == value
  {
    EscapedBytesBack(value);
    Utf8.RoundTrip(value);
    NothingEscaped(value);
  }

  /** An escaped value holds nothing the framing gives meaning to, and nothing that could end the escape. */
  lemma {:induction false} EscapedIsSafe(value: string)
    ensures forall c | c in Escaped(value) :: c !in {';', ',', '='} && !IsControl(c)
  {
    if value != "" {
      EscapedIsSafe(value[1..]);
      forall c | c in EscapedChar(value[0]) ensures c !in {';', ',', '='} && !IsControl(c) {
        HexIsSafe();
      }
    }
  }

  lemma HexIsSafe()
    ensures forall i | 0 <= i < 16 :: HEX_DIGITS[i] !in {';', ',', '='} && !IsControl(HEX_DIGITS[i])
  {
  }

  // ------------------------------------------------------------------------
  // Encoding
  // ------------------------------------------------------------------------

  function ParamText(param: (string, string)): string {
    param.0 + "=" + Escaped(param.1)
  }

  function ParamTexts(params: seq<(string, string)>): (texts: seq<string>)
    ensures |texts| == |params| && forall i | 0 <= i < |params| :: texts[i] == ParamText(params[i])
  {
    seq(|params|, i requires 0 <= i < |params| => ParamText(params[i]))
  }

  /** The fields of a frame: the number, the verb, the parameters when there are any, the payload when there is one. */
  function Fields(verb: string, params: seq<(string, string)>, payload: Option<string>): seq<string> {
    [Decimal(OSC_NUMBER), verb]
    + (if params == [] then [] else [Join(ParamTexts(params), ',')])
    + (if payload.Some? then [payload.value] else [])
  }

  /** What is between the introducer and the terminator. */
  function Body(verb: string, params: seq<(string, string)>, payload: Option<string>): string {
    Join(Fields(verb, params, payload), ';')
  }

  method Frame(verb: string, params: seq<(string, string)>, payload: Option<string>) returns (out: string)
    ensures out == OSC_START + Body(verb, params, payload) + ST
  {
    hide Join, Escaped, Decimal;
    out := OSC_START + Decimal(OSC_NUMBER) + [';'] + verb;
    if params != [] {
      out := out + [';'];
      ghost var before := out;
      var texts := ParamTexts(params);
      JoinStarts(texts);
      for index := 0 to |params|
        invariant out == before + Join(texts[..index], ',')
      {
        if index > 0 {
          out := out + [','];
        }
        out := out + params[index].0 + ['='];
        out := PushParamValue(out, params[index].1);
        JoinNext(texts, index);
        Pieces(before, texts, index, params[index]);
      }
      assert texts[..|params|] == texts;
    }
    match payload {
      case Some(text) => out := out + [';'] + text;
      case None =>
    }
    out := out + ST;
    BodyParts(verb, params, payload);
  }

  lemma JoinStarts(texts: seq<string>)
    ensures Join(texts[..0], ',') == ""
  {
  }

  lemma {:induction false} JoinNext(texts: seq<string>, index: nat)
    requires index < |texts|
    ensures Join(texts[..index + 1], ',') == Join(texts[..index], ',') + (if index > 0 then "," else "") + texts[index]
  {
    if index == 0 {
      assert texts[..1] == [texts[0]];
    } else {
      JoinNext(texts[1..], index - 1);
      assert texts[..index + 1][1..] == texts[1..][..index];
      assert texts[..index][1..] == texts[1..][..index - 1];
    }
  }

  lemma Pieces(before: string, texts: seq<string>, index: nat, param: (string, string))
    requires index < |texts| && texts[index] == ParamText(param)
    ensures var comma := if index > 0 then "," else "";
      before + (Join(texts[..index], ',') + comma + texts[index])
        == before + Join(texts[..index], ',') + comma + param.0 + ['='] + Escaped(param.1)
  {
    hide Join, Escaped;
  }

  /** The body written field by field. */
  lemma BodyParts(verb: string, params: seq<(string, string)>, payload: Option<string>)
    ensures Body(verb, params, payload) == Decimal(OSC_NUMBER) + [';'] + verb
      + (if params == [] then "" else [';'] + Join(ParamTexts(params), ','))
      + (if payload.Some? then [';'] + payload.value else "")
  {
    hide Decimal, ParamTexts;
    var number, fields := Decimal(OSC_NUMBER), Fields(verb, params, payload);
    var middle := if params == [] then [] else [Join(ParamTexts(params), ',')];
    var last := if payload.Some? then [payload.value] else [];
    assert fields == [number] + ([verb] + (middle + last));
    JoinFirst(number, [verb] + (middle + last));
    JoinFirst(verb, middle + last);
    if params != [] {
      JoinFirst(middle[0], last);
    } else {
      assert middle + last == last;
    }
    if payload.Some? {
      JoinFirst(payload.value, []);
    }
  }

  lemma JoinFirst(first: string, rest: seq<string>)
    ensures Join([first] + rest, ';') == first + if rest == [] then "" else [';'] + Join(rest, ';')
    ensures Join([first], ';') == first
  {
    assert ([first] + rest)[1..] == rest;
  }

  function TierText(tier: Tier): string {
    match tier
    case Isolated => "isolated"
    case Restricted => "restricted"
    case Trusted => "trusted"
  }

  function ParseTier(s: string): Option<Tier> {
    if s == "isolated" then Some(Isolated)
    else if s == "restricted" then Some(Restricted)
    else if s == "trusted" then Some(Trusted)
    else None
  }

  function Verb(message: Message): string {
    match message
    case Caps => "caps"
    case Close(_) => "close"
    case Emit(_, _, _) => "emit"
    case Open(_, _, _) => "open"
    case Patch(_, _) => "patch"
  }

  function Params(message: Message): seq<(string, string)> {
    match message
    case Caps => []
    case Close(id) => [("id", Decimal(id))]
    case Emit(_, id, trust) => [("v", Decimal(PROTOCOL_VERSION)), ("id", Decimal(id)), ("trust", TierText(trust))]
    case Open(id, mime, _) => [("id", Decimal(id)), ("mime", mime)]
    case Patch(id, _) => [("id", Decimal(id))]
  }

  function Payload(message: Message, codec: Codec): Option<string> {
    match message
    case Emit(bundle, _, _) => Some(codec.encodeBundle(bundle))
    case Open(_, _, spec) => Some(codec.encodeValue(spec))
    case Patch(_, patch) => Some(codec.encodeValue(patch))
    case _ => None
  }

  function MessageBody(message: Message, codec: Codec): string {
    Body(Verb(message), Params(message), Payload(message, codec))
  }

  /** A message as a complete escape sequence. */
  method Encode(message: Message, codec: Codec) returns (escape: string)
    ensures escape == OSC_START + MessageBody(message, codec) + ST
  {
    escape := Frame(Verb(message), Params(message), Payload(message, codec));
  }

  function FileParams(id: nat, trust: Tier, name: string, mime: string): seq<(string, string)> {
    [("v", Decimal(PROTOCOL_VERSION)), ("id", Decimal(id)), ("trust", TierText(trust)), ("mime", mime), ("file", name)]
  }

  /** An emit that names a file instead of carrying its payload. */
  method EncodeEmitFile(id: nat, trust: Tier, name: string, mime: string) returns (escape: string)
    ensures escape == OSC_START + Body("emit", FileParams(id, trust, name, mime), None) + ST
  {
    escape := Frame("emit", FileParams(id, trust, name, mime), None);
  }

  // ------------------------------------------------------------------------
  // Decoding
  // ------------------------------------------------------------------------

  /** A pair at its first `=`. */
  function SplitOnce(pair: string): Option<(string, string)> {
    if '=' !in pair then None
    else if pair[0] == '=' then Some(("", pair[1..]))
    else match SplitOnce(pair[1..])
      case Some((key, value)) => Some(([pair[0]] + key, value))
      case None => None
  }

  /** The pairs in turn, a later one for the same key winning; what is no pair is skipped. */
  function Collected(pairs: seq<string>): map<string, string> {
    if pairs == [] then map[] else
      var front, last := Collected(pairs[..|pairs| - 1]), pairs[|pairs| - 1];
      match SplitOnce(last)
      case Some((key, value)) => front[key := Unescaped(value)]
      case None => front
  }

  function ParseParams(field: string): map<string, string> {
    Collected(Split(field, ','))
  }

  function FirstOr(fields: seq<string>): string {
    if fields == [] then "" else fields[0]
  }

  function Lookup(params: map<string, string>, key: string): Option<string> {
    if key in params then Some(params[key]) else None
  }

  function CheckVersion(params: map<string, string>): Result<()> {
    match Lookup(params, "v")
    case None => Ok(())
    case Some(raw) => (
      match ParseUnsigned(raw, U16_LIMIT)
      case None => Err(BadParam("v"))
      case Some(version) => if version <= PROTOCOL_VERSION then Ok(()) else Err(UnsupportedVersion(version))
    )
  }

  function RequiredId(params: map<string, string>): Result<nat> {
    match Lookup(params, "id")
    case None => Err(MissingParam("id"))
    case Some(raw) => (
      match ParseUnsigned(raw, U64_LIMIT)
      case None => Err(BadParam("id"))
      case Some(id) => Ok(id)
    )
  }

  function PayloadField(rest: seq<string>): Result<string> {
    if |rest| < 2 then Err(MalformedFrame) else Ok(rest[1])
  }

  function DecodeTrust(params: map<string, string>): Result<Tier> {
    match Lookup(params, "trust")
    case None => Ok(Restricted)
    case Some(raw) => (
      match ParseTier(raw)
      case None => Err(BadParam("trust"))
      case Some(tier) => Ok(tier)
    )
  }

  function DecodeEmit(rest: seq<string>, codec: Codec, reader: string -> Result<seq<byte>>): Result<Message> {
    var params := ParseParams(FirstOr(rest));
    var _ :- CheckVersion(params);
    var id :- RequiredId(params);
    var trust :- DecodeTrust(params);
    match Lookup(params, "file")
    case Some(path) =>
      var bytes :- reader(path);
      var shown := map[Lookup(params, "mime").GetOr(DEFAULT_MIME) := String(codec.encodeBytes(bytes))];
      Ok(Emit(Bundle(shown, None, None), id, trust))
    case None =>
      var payload :- PayloadField(rest);
      var bundle :- codec.decodeBundle(payload);
      Ok(Emit(bundle, id, trust))
  }

  function DecodeOpen(rest: seq<string>, codec: Codec): Result<Message> {
    var params := ParseParams(FirstOr(rest));
    var _ :- CheckVersion(params);
    var id :- RequiredId(params);
    match Lookup(params, "mime")
    case None => Err(MissingParam("mime"))
    case Some(mime) =>
      var payload :- PayloadField(rest);
      var spec :- codec.decodeValue(payload);
      Ok(Open(id, mime, spec))
  }

  function DecodePatch(rest: seq<string>, codec: Codec): Result<Message> {
    var params := ParseParams(FirstOr(rest));
    var _ :- CheckVersion(params);
    var id :- RequiredId(params);
    var payload :- PayloadField(rest);
    var patch :- codec.decodeValue(payload);
    Ok(Patch(id, patch))
  }

  /** The message between an introducer and a terminator; `reader` resolves the files an emit names. */
  function Decode(body: string, codec: Codec, reader: string -> Result<seq<byte>>): Result<Message> {
    var fields := Split(body, ';');
    if ParseUnsigned(fields[0], U32_LIMIT) != Some(OSC_NUMBER) then Err(WrongOsc)
    else if |fields| < 2 then Err(MalformedFrame)
    else
      var verb, rest := fields[1], fields[2..];
      match verb
      case "caps" => Ok(Caps)
      case "close" =>
        var id :- RequiredId(ParseParams(FirstOr(rest)));
        Ok(Close(id))
      case "emit" => DecodeEmit(rest, codec, reader)
      case "open" => DecodeOpen(rest, codec)
      case "patch" => DecodePatch(rest, codec)
      case _ => Err(UnknownVerb(verb))
  }

  // ------------------------------------------------------------------------
  // Round trip
  // ------------------------------------------------------------------------

  /** A parameter key the encoder writes: nothing the framing gives meaning to. */
  predicate IsKey(key: string) {
    forall c | c in key :: !IsFraming(c) && !IsControl(c)
  }

  lemma {:induction false} SplitOnceBack(key: string, value: string)
    requires '=' !in key
    ensures SplitOnce(key + "=" + value) == Some((key, value))
  {
    var pair := key + "=" + value;
    if key == "" {
      assert pair[1..] == value;
    } else {
      assert pair[1..] == key[1..] + "=" + value;
      SplitOnceBack(key[1..], value);
      assert [key[0]] + key[1..] == key;
    }
  }

  /** What the parameters mean: each key with its value, a later one winning. */
  function Meaning(params: seq<(string, string)>): map<string, string> {
    if params == [] then map[]
    else Meaning(params[..|params| - 1])[params[|params| - 1].0 := params[|params| - 1].1]
  }

  lemma {:induction false} CollectedBack(params: seq<(string, string)>)
    requires forall p | p in params :: IsKey(p.0)
    ensures Collected(ParamTexts(params)) == Meaning(params)
  {
    hide Escaped, Unescaped;
    if params != [] {
      var front, last := params[..|params| - 1], params[|params| - 1];
      CollectedBack(front);
      assert ParamTexts(params)[..|params| - 1] == ParamTexts(front);
      SplitOnceBack(last.0, Escaped(last.1));
      ValueRoundTrip(last.1);
    }
  }

  lemma ParamsBack(params: seq<(string, string)>)
    requires params != [] && forall p | p in params :: IsKey(p.0)
    ensures ParseParams(Join(ParamTexts(params), ',')) == Meaning(params)
  {
    hide Escaped, Unescaped, Join, Split;
    var texts := ParamTexts(params);
    forall t | t in texts ensures ',' !in t {
      var i :| 0 <= i < |texts| && texts[i] == t;
      assert params[i] in params;
      EscapedIsSafe(params[i].1);
    }
    SplitJoin(texts, ',');
    CollectedBack(params);
  }

  /** No field holds a separator or a control byte, so splitting the body gives them back. */
  lemma FieldsBack(verb: string, params: seq<(string, string)>, payload: Option<string>)
    requires IsKey(verb) && (forall p | p in params :: IsKey(p.0)) && (payload.Some? ==> IsBase64(payload.value))
    ensures Split(Body(verb, params, payload), ';') == Fields(verb, params, payload)
    ensures forall f | f in Fields(verb, params, payload) :: ';' !in f && forall c | c in f :: !IsControl(c)
  {
    hide Escaped, Join, Split, Decimal;
    var fields := Fields(verb, params, payload);
    forall f | f in fields ensures ';' !in f && forall c | c in f :: !IsControl(c) {
      DecimalIsSafe(OSC_NUMBER);
      if params != [] {
        ParamsAreSafe(params);
      }
    }
    SplitJoin(fields, ';');
  }

  lemma DecimalIsSafe(n: nat)
    ensures IsKey(Decimal(n))
  {
  }

  lemma ParamsAreSafe(params: seq<(string, string)>)
    requires forall p | p in params :: IsKey(p.0)
    ensures forall c | c in Join(ParamTexts(params), ',') :: c != ';' && !IsControl(c)
  {
    hide Escaped;
    var texts := ParamTexts(params);
    forall t | t in texts ensures forall c | c in t :: c != ';' && !IsControl(c) {
      var i :| 0 <= i < |texts| && texts[i] == t;
      assert params[i] in params;
      EscapedIsSafe(params[i].1);
    }
    JoinIsSafe(texts, ',');
  }

  lemma {:induction false} JoinIsSafe(texts: seq<string>, sep: char)
    requires sep != ';' || |texts| <= 1
    requires !IsControl(sep) && forall t | t in texts :: forall c | c in t :: c != ';' && !IsControl(c)
    ensures forall c | c in Join(texts, sep) :: c != ';' && !IsControl(c)
  {
    if |texts| > 1 {
      assert forall t | t in texts[1..] :: t in texts;
      JoinIsSafe(texts[1..], sep);
      assert texts[0] in texts;
    } else if |texts| == 1 {
      assert texts[0] in texts;
    }
  }

  // ------------------------------------------------------------------------
  // Every message
  // ------------------------------------------------------------------------

  /** The numbers the wire types hold. */
  predicate IsWireMessage(message: Message) {
    message.Caps? || message.id < U64_LIMIT
  }

  lemma VerbsAreKeys(message: Message)
    ensures IsKey(Verb(message)) && forall p | p in Params(message) :: IsKey(p.0)
  {
    hide Decimal;
  }

  lemma TierBack(tier: Tier)
    ensures ParseTier(TierText(tier)) == Some(tier)
  {
  }

  /** What the decoder reads of a frame before it looks at the verb. */
  lemma HeaderBack(verb: string, params: seq<(string, string)>, payload: Option<string>)
    requires IsKey(verb) && (forall p | p in params :: IsKey(p.0)) && (payload.Some? ==> IsBase64(payload.value))
    ensures var fields := Split(Body(verb, params, payload), ';');
      && ParseUnsigned(fields[0], U32_LIMIT) == Some(OSC_NUMBER)
      && |fields| >= 2 && fields[1] == verb
      && (params != [] ==> ParseParams(FirstOr(fields[2..])) == Meaning(params))
      && (params != [] && payload.Some? ==> PayloadField(fields[2..]) == Ok(payload.value))
  {
    hide Split, Join, Decimal, ParseParams, ParseUnsigned;
    FieldsBack(verb, params, payload);
    ParsePrinted(OSC_NUMBER, U32_LIMIT);
    if params != [] {
      ParamsBack(params);
    }
  }

  lemma OneParam(key: string, value: string)
    ensures Meaning([(key, value)]) == map[key := value]
  {
    assert Meaning([(key, value)][..0]) == map[];
  }

  lemma TwoParams(a: (string, string), b: (string, string))
    ensures Meaning([a, b]) == map[a.0 := a.1][b.0 := b.1]
  {
    OneParam(a.0, a.1);
    assert [a, b][..1] == [a];
  }

  lemma ThreeParams(a: (string, string), b: (string, string), c: (string, string))
    ensures Meaning([a, b, c]) == map[a.0 := a.1][b.0 := b.1][c.0 := c.1]
  {
    TwoParams(a, b);
    assert [a, b, c][..2] == [a, b];
  }

  lemma FiveParams(a: (string, string), b: (string, string), c: (string, string), d: (string, string),
    e: (string, string))
    ensures Meaning([a, b, c, d, e]) == map[a.0 := a.1][b.0 := b.1][c.0 := c.1][d.0 := d.1][e.0 := e.1]
  {
    ThreeParams(a, b, c);
    assert [a, b, c, d][..3] == [a, b, c];
    assert [a, b, c, d, e][..4] == [a, b, c, d];
  }

  /** Decoding the encoding of a message, its frame stripped, gives the message back: for any id, any MIME string, and
      any libraries that undo themselves. */
  lemma MessageRoundTrip(message: Message, codec: Codec, reader: string -> Result<seq<byte>>)
    requires Sound(codec) && IsWireMessage(message)
    ensures Decode(MessageBody(message, codec), codec, reader) == Ok(message)
  {
    hide Split, Decimal, ParseParams, ParseUnsigned, Body, Meaning;
    VerbsAreKeys(message);
    HeaderBack(Verb(message), Params(message), Payload(message, codec));
    if !message.Caps? {
      ParsePrinted(message.id, U64_LIMIT);
    }
    match message
    case Caps =>
    case Close(id) => OneParam("id", Decimal(id));
    case Emit(bundle, id, trust) =>
      ParsePrinted(PROTOCOL_VERSION, U16_LIMIT);
      TierBack(trust);
      ThreeParams(("v", Decimal(PROTOCOL_VERSION)), ("id", Decimal(id)), ("trust", TierText(trust)));
    case Open(id, mime, spec) => TwoParams(("id", Decimal(id)), ("mime", mime));
    case Patch(id, patch) => OneParam("id", Decimal(id));
  }

  /** An emit that names a file asks the reader for exactly that name, and shows what it reads under that type. */
  lemma FileRoundTrip(
    id: nat, trust: Tier, name: string, mime: string, codec: Codec, reader: string -> Result<seq<byte>>)
    requires id < U64_LIMIT
    ensures Decode(Body("emit", FileParams(id, trust, name, mime), None), codec, reader) ==
      match reader(name)
      case Ok(bytes) => Ok(Emit(Bundle(map[mime := String(codec.encodeBytes(bytes))], None, None), id, trust))
      case Err(error) => Err(error)
  {
    hide Split, Decimal, ParseParams, ParseUnsigned, Body, Meaning;
    HeaderBack("emit", FileParams(id, trust, name, mime), None);
    ParsePrinted(id, U64_LIMIT);
    ParsePrinted(PROTOCOL_VERSION, U16_LIMIT);
    TierBack(trust);
    FiveParams(("v", Decimal(PROTOCOL_VERSION)), ("id", Decimal(id)), ("trust", TierText(trust)), ("mime", mime),
      ("file", name));
  }

  /** The body of an encoded message holds no control byte, so nothing ends it but its terminator, and no more than
      four fields. */
  lemma BodyIsSafe(message: Message, codec: Codec)
    requires Sound(codec)
    ensures forall c | c in MessageBody(message, codec) :: !IsControl(c)
    ensures |Split(MessageBody(message, codec), ';')| <= 4
  {
    hide Decimal, Join, Split;
    var fields := Fields(Verb(message), Params(message), Payload(message, codec));
    VerbsAreKeys(message);
    FieldsBack(Verb(message), Params(message), Payload(message, codec));
    JoinHoldsNoControl(fields, ';');
  }

  lemma {:induction false} JoinHoldsNoControl(texts: seq<string>, sep: char)
    requires !IsControl(sep) && forall t | t in texts :: forall c | c in t :: !IsControl(c)
    ensures forall c | c in Join(texts, sep) :: !IsControl(c)
  {
    if |texts| > 1 {
      assert forall t | t in texts[1..] :: t in texts;
      JoinHoldsNoControl(texts[1..], sep);
      assert texts[0] in texts;
    } else if |texts| == 1 {
      assert texts[0] in texts;
    }
  }
}

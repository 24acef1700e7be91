/** What is read of frames other encoders write: parameters left out, added or in another order, and newer versions. */
module WireLaws {
  import opened Text
  import opened Json
  import opened Messages
  import opened Wire

  /** Parameters any encoder may write, and a payload it may. */
  ghost predicate Writable(params: seq<(string, string)>, payload: Option<string>) {
    && params != [] && (forall p | p in params :: IsKey(p.0))
    && (payload.Some? ==> IsBase64(payload.value))
  }

  /** Whether the parameters say no version, or one there is. */
  predicate VersionKnown(said: map<string, string>) {
    "v" in said ==> said["v"] == Decimal(0) || said["v"] == Decimal(PROTOCOL_VERSION)
  }

  predicate SaysId(said: map<string, string>, id: nat) {
    id < U64_LIMIT && "id" in said && said["id"] == Decimal(id)
  }

  /** The trust an emit asks for: restricted when it says nothing. */
  predicate SaysTrust(said: map<string, string>, trust: Tier) {
    if "trust" in said then said["trust"] == TierText(trust) else trust == Restricted
  }

  lemma ParamsRead(verb: string, params: seq<(string, string)>, payload: Option<string>)
    requires Writable(params, payload) && IsKey(verb)
    ensures var fields := Split(Body(verb, params, payload), ';');
      && ParseUnsigned(fields[0], U32_LIMIT) == Some(OSC_NUMBER) && |fields| >= 2 && fields[1] == verb
      && ParseParams(FirstOr(fields[2..])) == Meaning(params)
      && PayloadField(fields[2..]) == (if payload.Some? then Ok(payload.value) else Err(MalformedFrame))
  {
    hide Split, Join, Decimal, ParseParams, ParseUnsigned;
    HeaderBack(verb, params, payload);
    FieldsBack(verb, params, payload);
  }

  lemma VersionRead(said: map<string, string>)
    ensures VersionKnown(said) ==> CheckVersion(said) == Ok(())
    ensures forall n | PROTOCOL_VERSION < n < U16_LIMIT ::
      "v" in said && said["v"] == Decimal(n) ==> CheckVersion(said) == Err(UnsupportedVersion(n))
  {
    hide Decimal, ParseUnsigned;
    ParsePrinted(0, U16_LIMIT);
    ParsePrinted(PROTOCOL_VERSION, U16_LIMIT);
    forall n | PROTOCOL_VERSION < n < U16_LIMIT && "v" in said && said["v"] == Decimal(n)
      ensures CheckVersion(said) == Err(UnsupportedVersion(n)) {
      ParsePrinted(n, U16_LIMIT);
    }
  }

  lemma IdRead(said: map<string, string>, id: nat)
    ensures SaysId(said, id) ==> RequiredId(said) == Ok(id)
    ensures "id" !in said ==> RequiredId(said) == Err(MissingParam("id"))
  {
    hide Decimal, ParseUnsigned;
    if SaysId(said, id) {
      ParsePrinted(id, U64_LIMIT);
    }
  }

  lemma TrustRead(said: map<string, string>, trust: Tier)
    requires SaysTrust(said, trust)
    ensures DecodeTrust(said) == Ok(trust)
  {
    TierBack(trust);
  }

  /** An emit is read whatever the order of its parameters and whatever others are among them; one that says no trust is
      restricted, and one that says no version is of the first. */
  lemma EmitRead(
    params: seq<(string, string)>, bundle: Bundle, id: nat, trust: Tier, codec: Codec,
    reader: string -> Result<seq<byte>>)
    requires Sound(codec) && Writable(params, Some(codec.encodeBundle(bundle)))
    requires var said := Meaning(params);
      VersionKnown(said) && SaysId(said, id) && SaysTrust(said, trust) && "file" !in said
    ensures Decode(Body("emit", params, Some(codec.encodeBundle(bundle))), codec, reader) == Ok(Emit(bundle, id, trust))
  {
    hide Split, Decimal, ParseParams, ParseUnsigned, Body, Meaning, CheckVersion, RequiredId, DecodeTrust, PayloadField;
    ParamsRead("emit", params, Some(codec.encodeBundle(bundle)));
    VersionRead(Meaning(params));
    IdRead(Meaning(params), id);
    TrustRead(Meaning(params), trust);
  }

  /** A file is shown as bytes of no known type when the emit names none. */
  lemma FileRead(
    params: seq<(string, string)>, id: nat, trust: Tier, codec: Codec, reader: string -> Result<seq<byte>>)
    requires Writable(params, None)
    requires var said := Meaning(params);
      VersionKnown(said) && SaysId(said, id) && SaysTrust(said, trust) && "file" in said
    ensures
      var said := Meaning(params);
      var mime := if "mime" in said then said["mime"] else "application/octet-stream";
      Decode(Body("emit", params, None), codec, reader) ==
        match reader(said["file"])
        case Ok(bytes) => Ok(Emit(Bundle(map[mime := String(codec.encodeBytes(bytes))], None, None), id, trust))
        case Err(error) => Err(error)
  {
    hide Split, Decimal, ParseParams, ParseUnsigned, Body, Meaning, CheckVersion, RequiredId, DecodeTrust, PayloadField;
    ParamsRead("emit", params, None);
    VersionRead(Meaning(params));
    IdRead(Meaning(params), id);
    TrustRead(Meaning(params), trust);
  }

  /** So with the two that open a live block and patch it. */
  lemma OpenRead(
    params: seq<(string, string)>, spec: Value, id: nat, codec: Codec, reader: string -> Result<seq<byte>>)
    requires Sound(codec) && Writable(params, Some(codec.encodeValue(spec)))
    requires VersionKnown(Meaning(params)) && SaysId(Meaning(params), id)
    ensures Decode(Body("open", params, Some(codec.encodeValue(spec))), codec, reader) ==
      if "mime" in Meaning(params) then Ok(Open(id, Meaning(params)["mime"], spec)) else Err(MissingParam("mime"))
    ensures Decode(Body("patch", params, Some(codec.encodeValue(spec))), codec, reader) == Ok(Patch(id, spec))
  {
    hide Split, Decimal, ParseParams, ParseUnsigned, Body, Meaning, CheckVersion, RequiredId, DecodeTrust, PayloadField;
    ParamsRead("open", params, Some(codec.encodeValue(spec)));
    ParamsRead("patch", params, Some(codec.encodeValue(spec)));
    VersionRead(Meaning(params));
    IdRead(Meaning(params), id);
  }

  /** A message of a version past this one is refused as that version, whatever else it says; closing asks for none. */
  lemma NewerRefused(
    verb: string, params: seq<(string, string)>, payload: Option<string>, version: nat, codec: Codec,
    reader: string -> Result<seq<byte>>)
    requires Writable(params, payload) && PROTOCOL_VERSION < version < U16_LIMIT
    requires "v" in Meaning(params) && Meaning(params)["v"] == Decimal(version)
    ensures verb in {"emit", "open", "patch"} ==>
      Decode(Body(verb, params, payload), codec, reader) == Err(UnsupportedVersion(version))
    ensures forall id | SaysId(Meaning(params), id) ::
      Decode(Body("close", params, payload), codec, reader) == Ok(Close(id))
  {
    hide Split, Decimal, ParseParams, ParseUnsigned, Body, Meaning, CheckVersion, RequiredId, DecodeTrust, PayloadField;
    if verb in {"emit", "open", "patch"} {
      ParamsRead(verb, params, payload);
      VersionRead(Meaning(params));
    }
    ParamsRead("close", params, payload);
    forall id | SaysId(Meaning(params), id)
      ensures Decode(Body("close", params, payload), codec, reader) == Ok(Close(id)) {
      IdRead(Meaning(params), id);
    }
  }

  /** A message that says no id, and an emit, open or patch that carries nothing, are refused as that. */
  lemma Incomplete(
    verb: string, params: seq<(string, string)>, id: nat, codec: Codec, reader: string -> Result<seq<byte>>)
    requires Writable(params, None) && VersionKnown(Meaning(params))
    requires verb in {"emit", "open", "patch", "close"}
    ensures "id" !in Meaning(params) ==>
      forall payload: Option<string> | Writable(params, payload) ::
        Decode(Body(verb, params, payload), codec, reader) == Err(MissingParam("id"))
    ensures verb == "patch" && SaysId(Meaning(params), id) ==>
      Decode(Body(verb, params, None), codec, reader) == Err(MalformedFrame)
    ensures verb == "open" && SaysId(Meaning(params), id) && "mime" in Meaning(params) ==>
      Decode(Body(verb, params, None), codec, reader) == Err(MalformedFrame)
    ensures verb == "emit" && SaysId(Meaning(params), id) && {"file", "trust"} !! Meaning(params).Keys ==>
      Decode(Body(verb, params, None), codec, reader) == Err(MalformedFrame)
  {
    hide Split, Decimal, ParseParams, ParseUnsigned, Body, Meaning, CheckVersion, RequiredId, DecodeTrust, PayloadField;
    VersionRead(Meaning(params));
    IdRead(Meaning(params), id);
    ParamsRead(verb, params, None);
    if "trust" !in Meaning(params) {
      TrustRead(Meaning(params), Restricted);
    }
    forall payload: Option<string> | Writable(params, payload) && "id" !in Meaning(params)
      ensures Decode(Body(verb, params, payload), codec, reader) == Err(MissingParam("id")) {
      ParamsRead(verb, params, payload);
    }
  }

  // ------------------------------------------------------------------------
  // What is refused
  // ------------------------------------------------------------------------

  predicate IsVerb(verb: string) {
    verb in {"caps", "close", "emit", "open", "patch"}
  }

  /** A version or an id that is no number of its width is refused as that. */
  lemma BadNumbers(
    verb: string, params: seq<(string, string)>, payload: Option<string>, codec: Codec,
    reader: string -> Result<seq<byte>>)
    requires Writable(params, payload) && verb in {"emit", "open", "patch"}
    ensures "v" in Meaning(params) && ParseUnsigned(Meaning(params)["v"], U16_LIMIT).None? ==>
      Decode(Body(verb, params, payload), codec, reader) == Err(BadParam("v"))
    ensures "id" in Meaning(params) && ParseUnsigned(Meaning(params)["id"], U64_LIMIT).None? ==>
      && (VersionKnown(Meaning(params)) ==> Decode(Body(verb, params, payload), codec, reader) == Err(BadParam("id")))
      && Decode(Body("close", params, payload), codec, reader) == Err(BadParam("id"))
  {
    hide Split, Decimal, ParseParams, ParseUnsigned, Body, Meaning, DecodeTrust, PayloadField;
    ParamsRead(verb, params, payload);
    ParamsRead("close", params, payload);
    VersionRead(Meaning(params));
  }

  /** Another number, no verb, an unknown verb, and a trust that is none of the three are each refused as that. */
  lemma Refused(
    body: string, verb: string, params: seq<(string, string)>, payload: Option<string>, id: nat, codec: Codec,
    reader: string -> Result<seq<byte>>)
    requires Writable(params, payload) && IsKey(verb) && VersionKnown(Meaning(params)) && SaysId(Meaning(params), id)
    ensures forall n: nat | n < U32_LIMIT && n != OSC_NUMBER ::
      Decode(Decimal(n) + [';'] + body, codec, reader) == Err(WrongOsc)
    ensures Decode(Decimal(OSC_NUMBER), codec, reader) == Err(MalformedFrame)
    ensures !IsVerb(verb) ==> Decode(Body(verb, params, payload), codec, reader) == Err(UnknownVerb(verb))
    ensures "trust" in Meaning(params) && (forall tier :: Meaning(params)["trust"] != TierText(tier)) ==>
      Decode(Body("emit", params, payload), codec, reader) == Err(BadParam("trust"))
  {
    hide Split, Decimal, ParseParams, ParseUnsigned, Body, Meaning, CheckVersion, RequiredId, PayloadField;
    forall n: nat | n < U32_LIMIT && n != OSC_NUMBER
      ensures Decode(Decimal(n) + [';'] + body, codec, reader) == Err(WrongOsc) {
      ParsePrinted(n, U32_LIMIT);
      SplitAtSeparator(Decimal(n), body, ';');
    }
    ParsePrinted(OSC_NUMBER, U32_LIMIT);
    SplitWithout(Decimal(OSC_NUMBER), ';');
    ParamsRead(verb, params, payload);
    ParamsRead("emit", params, payload);
    VersionRead(Meaning(params));
    IdRead(Meaning(params), id);
    if "trust" in Meaning(params) && (forall tier :: Meaning(params)["trust"] != TierText(tier)) {
      assert Meaning(params)["trust"] != TierText(Isolated) && Meaning(params)["trust"] != TierText(Restricted);
      assert Meaning(params)["trust"] != TierText(Trusted);
    }
  }

  // ------------------------------------------------------------------------
  // The text of a message
  // ------------------------------------------------------------------------

  /** What the framing gives meaning to, and what no stream may carry. */
  predicate Reserved(c: char) {
    c == ';' || c == ',' || c == '=' || c == '%' || c as int <= 0x1f || c as int == 0x7f
  }

  /** How many of those a value holds. */
  function ReservedIn(value: string): nat {
    if value == "" then 0 else (if Reserved(value[0]) then 1 else 0) + ReservedIn(value[1..])
  }

  /** A value is escaped just when it has to be: only what is reserved grows, by two for each. */
  lemma {:induction false} EscapedOnlyReserved(value: string)
    ensures |Escaped(value)| == |value| + 2 * ReservedIn(value)
    ensures ReservedIn(value) == 0 ==> Escaped(value) == value
  {
    if value != "" {
      EscapedOnlyReserved(value[1..]);
      assert value == [value[0]] + value[1..];
    }
  }

  lemma {:induction false} EscapedInTwo(a: string, b: string)
    ensures Escaped(a + b) == Escaped(a) + Escaped(b)
  {
    hide EscapedChar;
    if a == "" {
      assert a + b == b;
    } else {
      assert (a + b)[1..] == a[1..] + b;
      EscapedInTwo(a[1..], b);
    }
  }

  lemma EscapedOne(c: char)
    ensures Escaped([c]) == EscapedChar(c)
  {
    hide EscapedChar;
    assert [c][1..] == "";
  }

  /** The framing's own characters and an escape, spelled in upper case. */
  lemma EscapedSpelled()
    ensures Escaped(";") == "%3B" && Escaped(",") == "%2C" && Escaped("=") == "%3D" && Escaped("%") == "%25"
    ensures Escaped([0x1b as char]) == "%1B" && Escaped([0x7f as char]) == "%7F"
  {
    hide Escaped;
    EscapedOne(';');
    EscapedOne(',');
    EscapedOne('=');
    EscapedOne('%');
    EscapedOne(0x1b as char);
    EscapedOne(0x7f as char);
  }

  lemma {:induction false} WordKept(value: string)
    requires forall c | c in value :: !Reserved(c)
    ensures Escaped(value) == value && ReservedIn(value) == 0
  {
    if value != "" {
      assert value[0] in value && forall c | c in value[1..] :: c in value;
      WordKept(value[1..]);
      assert value == [value[0]] + value[1..];
    }
  }

  lemma NumbersText()
    ensures Decimal(OSC_NUMBER) == "9001" && Decimal(PROTOCOL_VERSION) == "1"
  {
    assert Decimal(9) == "9" && Decimal(90) == "90" && Decimal(900) == "900" && Decimal(9001) == "9001";
  }

  function TrustWord(trust: Tier): string {
    match trust
    case Isolated => "trust=isolated"
    case Restricted => "trust=restricted"
    case Trusted => "trust=trusted"
  }

  lemma ParamSpelled(key: string, value: string, text: string)
    requires (forall c | c in value :: !Reserved(c)) && text == key + "=" + value
    ensures ParamText((key, value)) == text
  {
    hide Escaped;
    WordKept(value);
  }

  lemma IdSpelled(id: nat)
    ensures ParamText(("id", Decimal(id))) == "id=" + Decimal(id)
  {
    hide Escaped, Decimal;
    WordKept(Decimal(id));
    assert "id" + "=" == "id=";
  }

  lemma MimeSpelled(mime: string)
    ensures ParamText(("mime", mime)) == "mime=" + Escaped(mime)
  {
    hide Escaped;
    assert "mime" + "=" == "mime=";
  }

  lemma TrustSpelled(trust: Tier)
    ensures ParamText(("trust", TierText(trust))) == TrustWord(trust)
  {
    hide ParamText;
    match trust
    case Isolated => ParamSpelled("trust", "isolated", "trust=isolated");
    case Restricted => ParamSpelled("trust", "restricted", "trust=restricted");
    case Trusted => ParamSpelled("trust", "trusted", "trust=trusted");
  }

  /** The parameters of a message as they are spelled. */
  function ParamsSpelled(message: Message): seq<string> {
    match message
    case Caps => []
    case Close(id) => ["id=" + Decimal(id)]
    case Emit(_, id, trust) => ["v=1", "id=" + Decimal(id), TrustWord(trust)]
    case Open(id, mime, _) => ["id=" + Decimal(id), "mime=" + Escaped(mime)]
    case Patch(id, _) => ["id=" + Decimal(id)]
  }

  lemma ParamsAreSpelled(message: Message)
    ensures ParamTexts(Params(message)) == ParamsSpelled(message)
  {
    hide Escaped, Decimal, ParamText, TrustWord, ParamTexts, TierText;
    NumbersText();
    match message
    case Caps =>
    case Close(id) => IdSpelled(id);
    case Patch(id, _) => IdSpelled(id);
    case Open(id, mime, _) =>
      IdSpelled(id);
      MimeSpelled(mime);
    case Emit(_, id, trust) =>
      ParamSpelled("v", "1", "v=1");
      IdSpelled(id);
      TrustSpelled(trust);
  }

  /** Each message as it is spelled on the stream, field by field. */
  lemma MessageText(message: Message, codec: Codec)
    ensures MessageBody(message, codec) == Join(
      match message
      case Caps => ["9001", "caps"]
      case Close(_) => ["9001", "close", Join(ParamsSpelled(message), ',')]
      case Emit(bundle, _, _) => ["9001", "emit", Join(ParamsSpelled(message), ','), codec.encodeBundle(bundle)]
      case Open(_, _, spec) => ["9001", "open", Join(ParamsSpelled(message), ','), codec.encodeValue(spec)]
      case Patch(_, patch) => ["9001", "patch", Join(ParamsSpelled(message), ','), codec.encodeValue(patch)],
      ';')
  {
    hide Escaped, Decimal, Join, ParamTexts, ParamsSpelled;
    NumbersText();
    ParamsAreSpelled(message);
    var fields, params := Fields(Verb(message), Params(message), Payload(message, codec)),
      Join(ParamsSpelled(message), ',');
    match message
    case Caps => assert fields == ["9001", "caps"];
    case Close(_) => assert fields == ["9001", "close", params];
    case Emit(bundle, _, _) => assert fields == ["9001", "emit", params, codec.encodeBundle(bundle)];
    case Open(_, _, spec) => assert fields == ["9001", "open", params, codec.encodeValue(spec)];
    case Patch(_, patch) => assert fields == ["9001", "patch", params, codec.encodeValue(patch)];
  }

  // ------------------------------------------------------------------------
  // Values no encoder writes
  // ------------------------------------------------------------------------

  /** A value is read as the text its bytes spell once each `%` and two hex digits stand for one byte, and where they
      spell none it is read as it came. */
  lemma UnescapedIs(raw: string)
    ensures var bytes := UnescapedBytes(Utf8.Encode(raw));
      && (forall s | Utf8.Encode(s) == bytes :: Unescaped(raw) == s)
      && ((forall s :: Utf8.Encode(s) != bytes) ==> Unescaped(raw) == raw)
  {
    var bytes := UnescapedBytes(Utf8.Encode(raw));
    if '%' !in raw {
      NoPercent(raw);
    }
    forall s | Utf8.Encode(s) == bytes ensures Unescaped(raw) == s {
      Utf8.RoundTrip(s);
      Utf8.RoundTrip(raw);
    }
    Utf8.DecodeIsExact(bytes);
  }

  lemma {:induction false} NoPercent(raw: string)
    requires '%' !in raw
    ensures UnescapedBytes(Utf8.Encode(raw)) == Utf8.Encode(raw)
  {
    if raw != "" {
      Utf8.HighBytes(raw[0]);
      PlainBytes(Utf8.EncodeChar(raw[0]), Utf8.Encode(raw[1..]));
      NoPercent(raw[1..]);
    }
  }

  /** Each `%` and two hex digits of either case are one byte, and every other byte is itself. */
  lemma UnescapedFirst(bytes: seq<byte>, high: byte, low: byte, rest: seq<byte>)
    requires bytes == [0x25, high, low] + rest
    ensures HexDigit(high).Some? && HexDigit(low).Some? ==>
      UnescapedBytes(bytes) == [(16 * HexDigit(high).value + HexDigit(low).value) as byte] + UnescapedBytes(rest)
    ensures HexDigit(high).None? || HexDigit(low).None? ==>
      UnescapedBytes(bytes) == [0x25] + UnescapedBytes([high, low] + rest)
  {
    assert bytes[3..] == rest && bytes[1..] == [high, low] + rest;
  }
}

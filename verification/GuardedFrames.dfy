/** A message's frame on its way through the guard. */
module GuardedFrames {
  import opened Text
  import opened Messages
  import Utf8
  import opened OscGuard
  import opened Wire

  const BACKSLASH: byte := 0x5c

  function FrameBytes(message: Message, codec: Codec): seq<byte> {
    Utf8.Encode(OSC_START + MessageBody(message, codec) + ST)
  }

  function BodyBytes(message: Message, codec: Codec): seq<byte> {
    Utf8.Encode(MessageBody(message, codec))
  }

  lemma {:induction false} EncodeInTwo(a: string, b: string)
    ensures Utf8.Encode(a + b) == Utf8.Encode(a) + Utf8.Encode(b)
  {
    hide Utf8.EncodeChar;
    if a == "" {
      assert a + b == b;
    } else {
      assert (a + b)[1..] == a[1..] + b;
      EncodeInTwo(a[1..], b);
    }
  }

  lemma Ends()
    ensures Utf8.Encode(OSC_START) == [ESC, OSC_INTRODUCER] && Utf8.Encode(ST) == [ESC, BACKSLASH]
  {
    hide Utf8.Encode;
    OneEncoded(0x1b as char);
    OneEncoded(']');
    OneEncoded('\\');
    EncodeInTwo([0x1b as char], "]");
    EncodeInTwo([0x1b as char], "\\");
    assert OSC_START == [0x1b as char] + "]" && ST == [0x1b as char] + "\\";
  }

  lemma OneEncoded(c: char)
    requires c as int < 0x80
    ensures Utf8.Encode([c]) == [c as int as byte]
  {
    assert [c][1..] == "";
  }

  lemma {:induction false} NothingEnds(text: string)
    requires forall c | c in text :: !IsControl(c)
    ensures forall b | b in Utf8.Encode(text) :: !EndsString(b)
  {
    hide Utf8.EncodeChar;
    if text != "" {
      assert text[0] in text && forall c | c in text[1..] :: c in text;
      NothingEnds(text[1..]);
      Utf8.HighBytes(text[0]);
      forall b | b in Utf8.EncodeChar(text[0]) ensures !EndsString(b) {
      }
    }
  }

  /** How a frame is laid out in the stream before what follows it. */
  lemma FrameIs(message: Message, codec: Codec, rest: seq<byte>)
    ensures FrameBytes(message, codec) + rest
      == [ESC, OSC_INTRODUCER] + (BodyBytes(message, codec) + ([ESC] + ([BACKSLASH] + rest)))
    ensures FrameBytes(message, codec) == [ESC, OSC_INTRODUCER] + BodyBytes(message, codec) + [ESC, BACKSLASH]
  {
    hide Utf8.Encode, MessageBody;
    Ends();
    EncodeInTwo(OSC_START + MessageBody(message, codec), ST);
    EncodeInTwo(OSC_START, MessageBody(message, codec));
    assert [ESC, BACKSLASH] + rest == [ESC] + ([BACKSLASH] + rest);
  }

  lemma OpenedAtGround(rest: seq<byte>)
    ensures Out(Ground, [ESC, OSC_INTRODUCER] + rest) == [ESC, OSC_INTRODUCER] + Out(Osc(0), rest)
  {
    hide Out, After;
    assert [ESC, OSC_INTRODUCER] + rest == [ESC] + ([OSC_INTRODUCER] + rest);
    FilteredInTwo(Ground, [ESC], [OSC_INTRODUCER] + rest);
    FilteredInTwo(Escape, [OSC_INTRODUCER], rest);
    FilteredOne(Ground, ESC);
    FilteredOne(Escape, OSC_INTRODUCER);
  }

  lemma ClosedInEscape(rest: seq<byte>)
    ensures Out(Escape, [BACKSLASH] + rest) == [BACKSLASH] + Out(Ground, rest)
  {
    hide Out, After;
    FilteredInTwo(Escape, [BACKSLASH], rest);
    FilteredOne(Escape, BACKSLASH);
  }

  lemma FittingString(payload: seq<byte>, rest: seq<byte>)
    requires |payload| <= MAX_OSC_BYTES && forall b | b in payload :: !EndsString(b)
    ensures Out(Osc(0), payload + ([ESC] + rest)) == payload + ([ESC] + Out(Escape, rest))
  {
    hide Out, After;
    FilteredInTwo(Osc(0), payload, [ESC] + rest);
    InsideString(0, payload);
    FilteredInTwo(Osc(|payload|), [ESC], rest);
    FilteredOne(Osc(|payload|), ESC);
  }

  /** Written outside any string, a message whose body is within the cap reaches the parser as it was written, and the
      stream goes on as if it had not been there; a longer one reaches it cut at the cap and cancelled. */
  lemma FrameGuarded(message: Message, codec: Codec, rest: seq<byte>)
    requires Sound(codec)
    ensures var frame, body := FrameBytes(message, codec), BodyBytes(message, codec);
      Out(Ground, frame + rest) ==
        if |body| <= MAX_OSC_BYTES then frame + Out(Ground, rest)
        else [ESC, OSC_INTRODUCER] + body[..MAX_OSC_BYTES] + [CAN, ESC, BACKSLASH] + Out(Ground, rest)
  {
    hide Out, After, BodyBytes, FrameBytes, MessageBody, Sound;
    var body, open := BodyBytes(message, codec), [ESC, OSC_INTRODUCER];
    FrameIs(message, codec, rest);
    OpenedAtGround(body + ([ESC] + ([BACKSLASH] + rest)));
    BodyEndsNothing(message, codec);
    ClosedInEscape(rest);
    var after := Out(Ground, rest);
    if |body| <= MAX_OSC_BYTES {
      FittingString(body, [BACKSLASH] + rest);
      assert open + (body + ([ESC] + ([BACKSLASH] + after))) == open + body + [ESC, BACKSLASH] + after;
    } else {
      OverlongString(body, ESC, [BACKSLASH] + rest);
      var kept := body[..MAX_OSC_BYTES];
      assert open + (kept + [CAN] + [ESC] + ([BACKSLASH] + after)) == open + kept + [CAN, ESC, BACKSLASH] + after;
    }
  }

  lemma BodyEndsNothing(message: Message, codec: Codec)
    requires Sound(codec)
    ensures forall b | b in BodyBytes(message, codec) :: !EndsString(b)
  {
    hide MessageBody, Sound, Utf8.Encode;
    BodyIsSafe(message, codec);
    NothingEnds(MessageBody(message, codec));
  }

  /** So a message alone goes through unchanged exactly when its body is within the cap. */
  lemma FrameUnchangedIff(message: Message, codec: Codec)
    requires Sound(codec)
    ensures Out(Ground, FrameBytes(message, codec)) == FrameBytes(message, codec)
      <==> |BodyBytes(message, codec)| <= MAX_OSC_BYTES
  {
    hide Out, BodyBytes, FrameBytes, Sound, EndsString;
    FrameGuarded(message, codec, []);
    FrameIs(message, codec, []);
    NothingLeft(Ground);
    var frame, body := FrameBytes(message, codec), BodyBytes(message, codec);
    assert frame + [] == frame;
    BodyEndsNothing(message, codec);
    if |body| > MAX_OSC_BYTES {
      assert body[MAX_OSC_BYTES] in body;
      CancelEnds();
      var cut := [ESC, OSC_INTRODUCER] + body[..MAX_OSC_BYTES] + [CAN, ESC, BACKSLASH] + [];
      assert Out(Ground, frame) == cut && cut[MAX_OSC_BYTES + 2] == CAN;
      assert frame[MAX_OSC_BYTES + 2] == body[MAX_OSC_BYTES];
    }
  }

  lemma CancelEnds()
    ensures EndsString(CAN)
  {
  }
}

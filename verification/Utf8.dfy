/** UTF-8, as Rust's strings hold it and `String::from_utf8` checks it (RFC 3629, section 3). */
module Utf8 {
  import opened Text

  function EncodeChar(c: char): (bytes: seq<byte>)
    ensures |bytes| == CharBytes(c)
  {
    var n := c as int;
    if n < 0x80 then [n as byte]
    else if n < 0x800 then [(0xC0 + n / 64) as byte, (0x80 + n % 64) as byte]
    else if n < 0x1_0000 then [(0xE0 + n / 4096) as byte, (0x80 + n / 64 % 64) as byte, (0x80 + n % 64) as byte]
    else
      [(0xF0 + n / 262144) as byte, (0x80 + n / 4096 % 64) as byte, (0x80 + n / 64 % 64) as byte,
        (0x80 + n % 64) as byte]
  }

  function Encode(s: string): seq<byte> {
    if s == "" then [] else EncodeChar(s[0]) + Encode(s[1..])
  }

  /** The six bits of a continuation byte, or `None` for any other byte. */
  function Tail6(bytes: seq<byte>, at: nat): Option<nat> {
    if at < |bytes| && 0x80 <= bytes[at] < 0xC0 then Some(bytes[at] as int - 0x80) else None
  }

  /** A code point that is a character, in the range a sequence of its length may spell. */
  function AsChar(n: nat, from: nat, to: nat): Option<char>
    requires to <= 0x11_0000
  {
    if from <= n < to && !(0xD800 <= n < 0xE000) then Some(n as char) else None
  }

  /** The character `bytes` starts with; `None` for an ill-formed, overlong or surrogate sequence. */
  function DecodeChar(bytes: seq<byte>): (c: Option<char>)
    requires bytes != []
  {
    var b := bytes[0] as int;
    if b < 0x80 then Some(b as char)
    else if 0xC0 <= b < 0xE0 && Tail6(bytes, 1).Some? then
      AsChar((b - 0xC0) * 64 + Tail6(bytes, 1).value, 0x80, 0x800)
    else if 0xE0 <= b < 0xF0 && Tail6(bytes, 1).Some? && Tail6(bytes, 2).Some? then
      AsChar((b - 0xE0) * 4096 + Tail6(bytes, 1).value * 64 + Tail6(bytes, 2).value, 0x800, 0x1_0000)
    else if 0xF0 <= b < 0xF8 && Tail6(bytes, 1).Some? && Tail6(bytes, 2).Some? && Tail6(bytes, 3).Some? then
      AsChar((b - 0xF0) * 262144 + Tail6(bytes, 1).value * 4096 + Tail6(bytes, 2).value * 64 + Tail6(bytes, 3).value,
             0x1_0000, 0x11_0000)
    else None
  }

  /** The text `bytes` spell, or `None` where they are not UTF-8. */
  function Decode(bytes: seq<byte>): Option<string>
    decreases |bytes|
  {
    if bytes == [] then Some("")
    else match DecodeChar(bytes)
      case None => None
      case Some(c) =>
        if |bytes| < CharBytes(c) then None
        else match Decode(bytes[CharBytes(c)..])
          case Some(rest) => Some([c] + rest)
          case None => None
  }

  lemma CharRoundTrip(c: char, rest: seq<byte>)
    ensures DecodeChar(EncodeChar(c) + rest) == Some(c)
  {
    hide EncodeChar, DecodeChar;
    var n := c as int;
    if n < 0x80 {
      OneByte(c, rest);
    } else if n < 0x800 {
      TwoBytes(c, rest);
    } else if n < 0x1_0000 {
      ThreeBytes(c, rest);
    } else {
      FourBytes(c, rest);
    }
  }

  lemma OneByte(c: char, rest: seq<byte>)
    requires c as int < 0x80
    ensures DecodeChar(EncodeChar(c) + rest) == Some(c)
  {
  }

  lemma TwoBytes(c: char, rest: seq<byte>)
    requires 0x80 <= c as int < 0x800
    ensures DecodeChar(EncodeChar(c) + rest) == Some(c)
  {
    assert Tail6(EncodeChar(c) + rest, 1) == Some(c as int % 64);
  }

  lemma ThreeBytes(c: char, rest: seq<byte>)
    requires 0x800 <= c as int < 0x1_0000
    ensures DecodeChar(EncodeChar(c) + rest) == Some(c)
  {
    var n, bytes := c as int, EncodeChar(c) + rest;
    assert bytes[0] as int == 0xE0 + n / 4096;
    assert Tail6(bytes, 1) == Some(n / 64 % 64) && Tail6(bytes, 2) == Some(n % 64);
    assert n / 4096 * 4096 + n / 64 % 64 * 64 + n % 64 == n;
  }

  lemma FourBytes(c: char, rest: seq<byte>)
    requires 0x1_0000 <= c as int
    ensures DecodeChar(EncodeChar(c) + rest) == Some(c)
  {
    var n, bytes := c as int, EncodeChar(c) + rest;
    assert bytes[0] as int == 0xF0 + n / 262144;
    assert Tail6(bytes, 1) == Some(n / 4096 % 64) && Tail6(bytes, 2) == Some(n / 64 % 64);
    assert Tail6(bytes, 3) == Some(n % 64);
    SixBitDigits(n);
  }

  lemma SixBitDigits(n: nat)
    ensures n / 262144 * 262144 + n / 4096 % 64 * 4096 + n / 64 % 64 * 64 + n % 64 == n
  {
    var q := n / 64;
    var r := q / 64;
    assert n == q * 64 + n % 64 && q == r * 64 + q % 64 && r == r / 64 * 64 + r % 64;
    assert r == n / 4096 && r / 64 == n / 262144;
  }

  /** Every string comes back from its bytes. */
  lemma {:induction false} RoundTrip(s: string)
    ensures Decode(Encode(s)) == Some(s)
  {
    if s != "" {
      var bytes := Encode(s);
      CharRoundTrip(s[0], Encode(s[1..]));
      RoundTrip(s[1..]);
      assert bytes[CharBytes(s[0])..] == Encode(s[1..]);
      assert [s[0]] + s[1..] == s;
    }
  }

  lemma TwoBytesBack(bytes: seq<byte>)
    requires bytes != [] && 0xC0 <= bytes[0] < 0xE0 && DecodeChar(bytes).Some?
    ensures var c := DecodeChar(bytes).value; CharBytes(c) == 2 <= |bytes| && EncodeChar(c) == bytes[..2]
  {
    var a, b := bytes[0] as int - 0xC0, Tail6(bytes, 1).value;
    var n := a * 64 + b;
    assert n / 64 == a && n % 64 == b;
  }

  lemma ThreeBytesBack(bytes: seq<byte>)
    requires bytes != [] && 0xE0 <= bytes[0] < 0xF0 && DecodeChar(bytes).Some?
    ensures var c := DecodeChar(bytes).value; CharBytes(c) == 3 <= |bytes| && EncodeChar(c) == bytes[..3]
  {
    var a, b, d := bytes[0] as int - 0xE0, Tail6(bytes, 1).value, Tail6(bytes, 2).value;
    var n := a * 4096 + b * 64 + d;
    assert n / 64 == a * 64 + b && n % 64 == d;
    assert n / 4096 == a && n / 64 % 64 == b;
  }

  lemma FourBytesBack(bytes: seq<byte>)
    requires bytes != [] && 0xF0 <= bytes[0] < 0xF8 && DecodeChar(bytes).Some?
    ensures var c := DecodeChar(bytes).value; CharBytes(c) == 4 <= |bytes| && EncodeChar(c) == bytes[..4]
  {
    var a, b := bytes[0] as int - 0xF0, Tail6(bytes, 1).value;
    var d, e := Tail6(bytes, 2).value, Tail6(bytes, 3).value;
    FourDigits(a, b, d, e);
  }

  lemma FourDigits(a: nat, b: nat, d: nat, e: nat)
    requires b < 64 && d < 64 && e < 64
    ensures var n := a * 262144 + b * 4096 + d * 64 + e;
      n / 262144 == a && n / 4096 % 64 == b && n / 64 % 64 == d && n % 64 == e
  {
    var n := a * 262144 + b * 4096 + d * 64 + e;
    assert n / 64 == a * 4096 + b * 64 + d && n % 64 == e;
    assert n / 4096 == a * 64 + b;
  }

  /** Whatever bytes are read as text are that text's own: no longer spelling of a character is let through, and no
      surrogate. */
  lemma {:induction false} DecodeIsExact(bytes: seq<byte>)
    ensures Decode(bytes).Some? ==> Encode(Decode(bytes).value) == bytes
    decreases |bytes|
  {
    hide EncodeChar, DecodeChar;
    if bytes != [] && Decode(bytes).Some? {
      var c := DecodeChar(bytes).value;
      CharBack(bytes);
      DecodeIsExact(bytes[CharBytes(c)..]);
      var rest := Decode(bytes[CharBytes(c)..]).value;
      assert ([c] + rest)[1..] == rest;
      assert bytes == bytes[..CharBytes(c)] + bytes[CharBytes(c)..];
    }
  }

  lemma CharBack(bytes: seq<byte>)
    requires bytes != [] && DecodeChar(bytes).Some?
    ensures var c := DecodeChar(bytes).value; CharBytes(c) <= |bytes| && EncodeChar(c) == bytes[..CharBytes(c)]
  {
    hide EncodeChar;
    if bytes[0] < 0x80 {
      HighBytes(DecodeChar(bytes).value);
    } else if bytes[0] < 0xE0 {
      TwoBytesBack(bytes);
    } else if bytes[0] < 0xF0 {
      ThreeBytesBack(bytes);
    } else {
      FourBytesBack(bytes);
    }
  }

  /** No byte of a character past ASCII is an ASCII one. */
  lemma HighBytes(c: char)
    ensures c as int >= 0x80 ==> forall b | b in EncodeChar(c) :: b >= 0x80
    ensures c as int < 0x80 ==> EncodeChar(c) == [c as int as byte]
  {
  }
}

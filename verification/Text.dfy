/** Text as the terminal counts it: characters, and the bytes of UTF-8 they take. */
module Text {

  datatype Option<+T> = None | Some(value: T) {
    function GetOr(default: T): T {
      if Some? then value else default
    }
  }

  // ------------------------------------------------------------------------
  // Bytes
  // ------------------------------------------------------------------------

  /** How many bytes of UTF-8 `c` takes. */
  function CharBytes(c: char): (n: nat)
    ensures 1 <= n <= 4
  {
    if c as int < 0x80 then 1 else if c as int < 0x800 then 2 else if c as int < 0x1_0000 then 3 else 4
  }

  /** The length of `s` in bytes: Rust's `str::len`. */
  function Bytes(s: string): (n: nat)
    ensures |s| <= n
  {
    if s == [] then 0 else CharBytes(s[0]) + Bytes(s[1..])
  }

  lemma {:induction false} BytesOfConcat(a: string, b: string)
    ensures Bytes(a + b) == Bytes(a) + Bytes(b)
  {
    if a == [] {
      assert a + b == b;
    } else {
      BytesOfConcat(a[1..], b);
      assert (a + b)[1..] == a[1..] + b;
    }
  }

  /** Whether byte `at` of `s` starts a character or ends the string. */
  predicate IsCharBoundary(s: string, at: nat) {
    at == 0 || (s != [] && CharBytes(s[0]) <= at && IsCharBoundary(s[1..], at - CharBytes(s[0])))
  }

  /** How many characters come before the boundary at byte `at`. */
  function CharsBefore(s: string, at: nat): (n: nat)
    requires IsCharBoundary(s, at)
    ensures n <= |s|
    ensures Bytes(s[..n]) == at
  {
    if at == 0 then 0 else
      var n := 1 + CharsBefore(s[1..], at - CharBytes(s[0]));
      assert s[..n][1..] == s[1..][..n - 1];
      n
  }

  /** The longest prefix of `s` taking no more than `room` bytes. */
  function Head(s: string, room: nat): (p: string)
    ensures p <= s && Bytes(p) <= room
  {
    if s == [] || room < CharBytes(s[0]) then []
    else [s[0]] + Head(s[1..], room - CharBytes(s[0]))
  }

  /** How many characters to drop from the front of `s` until `bytes` bytes of it are gone. */
  function CutChars(s: string, bytes: nat): (n: nat)
    ensures n <= |s|
  {
    if s == [] || bytes == 0 then 0
    else 1 + CutChars(s[1..], if bytes < CharBytes(s[0]) then 0 else bytes - CharBytes(s[0]))
  }

  /** What is left of `s` once `bytes` bytes of it are gone, rounded up to whole characters. */
  function Tail(s: string, bytes: nat): string {
    s[CutChars(s, bytes)..]
  }

  lemma {:induction false} BoundaryHead(s: string, at: nat)
    requires IsCharBoundary(s, at)
    ensures Head(s, at) == s[..CharsBefore(s, at)]
    ensures CutChars(s, at) == CharsBefore(s, at)
    ensures at <= Bytes(s)
  {
    hide CharBytes;
    if at != 0 {
      BoundaryHead(s[1..], at - CharBytes(s[0]));
      var n := CharsBefore(s, at);
      assert s[..n] == [s[0]] + s[1..][..n - 1];
    }
  }

  /** Stepping back from inside a character leaves the longest prefix as it was. */
  lemma {:induction false} HeadOffBoundary(s: string, at: nat)
    requires !IsCharBoundary(s, at)
    ensures 0 < at && Head(s, at) == Head(s, at - 1)
  {
    if s != [] && CharBytes(s[0]) <= at {
      HeadOffBoundary(s[1..], at - CharBytes(s[0]));
    }
  }

  /** Stepping on from inside a character leaves what is cut away as it was. */
  lemma {:induction false} TailOffBoundary(s: string, at: nat)
    requires !IsCharBoundary(s, at) && at < Bytes(s)
    ensures CutChars(s, at) == CutChars(s, at + 1)
  {
    if CharBytes(s[0]) <= at {
      TailOffBoundary(s[1..], at - CharBytes(s[0]));
    }
  }

  lemma {:induction false} EndIsBoundary(s: string)
    ensures IsCharBoundary(s, Bytes(s))
  {
    if s != [] {
      EndIsBoundary(s[1..]);
    }
  }

  /** `Head` is as long as it can be: one more character would not fit. */
  lemma {:induction false} HeadIsLongest(s: string, room: nat, n: nat)
    requires n <= |s|
    ensures Bytes(s[..n]) <= room <==> n <= |Head(s, room)|
  {
    if n > 0 {
      assert s[..n][1..] == s[1..][..n - 1];
      if CharBytes(s[0]) <= room {
        HeadIsLongest(s[1..], room - CharBytes(s[0]), n - 1);
      }
    }
  }

  /** `Tail` drops at least `bytes` bytes, or everything, and no character more than it must. */
  lemma {:induction false} TailDropsEnough(s: string, bytes: nat)
    ensures var n := CutChars(s, bytes);
      && Bytes(s) == Bytes(s[..n]) + Bytes(Tail(s, bytes))
      && (bytes <= Bytes(s[..n]) || n == |s|)
      && (0 < n ==> Bytes(s[..n - 1]) < bytes)
  {
    hide CharBytes;
    var n := CutChars(s, bytes);
    assert s == s[..n] + s[n..];
    BytesOfConcat(s[..n], s[n..]);
    if 0 < n {
      TailDropsEnough(s[1..], if bytes < CharBytes(s[0]) then 0 else bytes - CharBytes(s[0]));
      assert s[..n][1..] == s[1..][..n - 1];
      if 1 < n {
        assert s[..n - 1][1..] == s[1..][..n - 2];
      }
    }
  }

  lemma Assoc(a: string, b: string, c: string)
    ensures a + (b + c) == a + b + c
  {
  }

  // ------------------------------------------------------------------------
  // Splitting and joining
  // ------------------------------------------------------------------------

  /** The pieces of `s` between the separators: Rust's `str::split` on one character. */
  function Split(s: string, sep: char): (pieces: seq<string>)
    ensures |pieces| >= 1
    ensures forall p | p in pieces :: sep !in p
    ensures Join(pieces, sep) == s
  {
    if s == [] then [""]
    else if s[0] == sep then
      var rest := Split(s[1..], sep);
      assert ([""] + rest)[1..] == rest;
      [""] + rest
    else
      var rest := Split(s[1..], sep);
      var pieces := [[s[0]] + rest[0]] + rest[1..];
      assert pieces[1..] == rest[1..];
      pieces
  }

  /** The pieces with one separator between each two: Rust's `join`. */
  function Join(pieces: seq<string>, sep: char): string {
    if pieces == [] then ""
    else if |pieces| == 1 then pieces[0]
    else pieces[0] + [sep] + Join(pieces[1..], sep)
  }

  lemma {:induction false} SplitAtSeparator(a: string, b: string, sep: char)
    requires sep !in a
    ensures Split(a + [sep] + b, sep) == [a] + Split(b, sep)
  {
    var s := a + [sep] + b;
    if a == [] {
      assert s[1..] == b;
    } else {
      assert s[1..] == a[1..] + [sep] + b;
      SplitAtSeparator(a[1..], b, sep);
      assert a == [a[0]] + a[1..];
    }
  }

  lemma {:induction false} SplitWithout(a: string, sep: char)
    requires sep !in a
    ensures Split(a, sep) == [a]
  {
    if a != [] {
      SplitWithout(a[1..], sep);
      assert a == [a[0]] + a[1..];
    }
  }

  /** Splitting what was joined gives the pieces back, when none holds the separator. */
  lemma {:induction false} SplitJoin(pieces: seq<string>, sep: char)
    requires |pieces| >= 1
    requires forall p | p in pieces :: sep !in p
    ensures Split(Join(pieces, sep), sep) == pieces
  {
    if |pieces| == 1 {
      SplitWithout(pieces[0], sep);
    } else {
      SplitJoin(pieces[1..], sep);
      SplitAtSeparator(pieces[0], Join(pieces[1..], sep), sep);
    }
  }

  // ------------------------------------------------------------------------
  // Numbers
  // ------------------------------------------------------------------------

  newtype byte = n: int | 0 <= n < 256

  predicate IsDigit(c: char) { '0' <= c <= '9' }

  /** The number the digits of `s` spell, or `None` where one is not a digit. */
  function Digits(s: string): Option<nat> {
    if s == [] then Some(0)
    else
      var last := s[|s| - 1];
      if !IsDigit(last) then None
      else match Digits(s[..|s| - 1])
        case None => None
        case Some(n) => Some(10 * n + (last as int - '0' as int))
  }

  /** Rust's `parse` to an unsigned integer below `limit`: an optional `+`, then one digit or more. */
  function ParseUnsigned(s: string, limit: nat): (r: Option<nat>)
    ensures r.Some? ==> r.value < limit
  {
    var digits := if |s| > 0 && s[0] == '+' then s[1..] else s;
    if digits == [] then None
    else match Digits(digits)
      case Some(n) => if n < limit then Some(n) else None
      case None => None
  }

  /** Decimal, as `to_string` prints it. */
  function Decimal(n: nat): (s: string)
    ensures |s| >= 1
    ensures forall c | c in s :: IsDigit(c)
    ensures Digits(s) == Some(n)
    ensures |s| > 1 ==> s[0] != '0'
    ensures n > 0 ==> s[0] != '0'
  {
    var last := ('0' as int + n % 10) as char;
    if n < 10 then
      assert [last][..0] == "";
      [last]
    else
      var front := Decimal(n / 10);
      var s := front + [last];
      assert s[..|s| - 1] == front;
      s
  }

  /** What is printed reads back, for every number the type holds. */
  lemma ParsePrinted(n: nat, limit: nat)
    requires n < limit
    ensures ParseUnsigned(Decimal(n), limit) == Some(n)
  {
    assert Decimal(n)[0] in Decimal(n);
  }

  lemma {:induction false} DigitsAreDigits(s: string)
    requires Digits(s).Some?
    ensures forall c | c in s :: IsDigit(c)
  {
    if s != "" {
      DigitsAreDigits(s[..|s| - 1]);
      assert s == s[..|s| - 1] + [s[|s| - 1]];
    }
  }

  lemma {:induction false} DigitsOfDigits(s: string)
    requires forall c | c in s :: IsDigit(c)
    ensures Digits(s).Some?
    ensures s != "" && s[0] != '0' ==> Digits(s).value > 0
  {
    if s != "" {
      DigitsOfDigits(s[..|s| - 1]);
    }
  }

  /** Digits that do not start with a needless `0` are the number as it is printed. */
  lemma {:induction false} DecimalOfDigits(s: string)
    requires s != "" && Digits(s).Some? && (|s| > 1 ==> s[0] != '0')
    ensures s == Decimal(Digits(s).value)
  {
    var front, last := s[..|s| - 1], s[|s| - 1];
    assert s == front + [last];
    if front != "" {
      DigitsAreDigits(s);
      DigitsOfDigits(front);
      DecimalOfDigits(front);
      assert Digits(s).value / 10 == Digits(front).value;
    }
  }
}

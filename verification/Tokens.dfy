/** The words a word diff compares: runs of word characters, runs of blanks, and everything else on its own. */
module Tokens {
  import opened Text

  datatype Class = Other | Space | Word

  /** Unicode's `White_Space`. */
  predicate IsWhitespace(c: char) {
    var n := c as int;
    || 9 <= n <= 13 || n == 0x20 || n == 0x85 || n == 0xA0 || n == 0x1680 || 0x2000 <= n <= 0x200A
    || n == 0x2028 || n == 0x2029 || n == 0x202F || n == 0x205F || n == 0x3000
  }

  /** `alnum` is Unicode's letters and digits, a table this model takes as given. */
  function ClassOf(c: char, alnum: char -> bool): Class {
    if alnum(c) || c == '_' then Word else if IsWhitespace(c) then Space else Other
  }

  function Concat(parts: seq<string>): string {
    if parts == [] then "" else parts[0] + Concat(parts[1..])
  }

  lemma {:induction false} ConcatOfSum(a: seq<string>, b: seq<string>)
    ensures Concat(a + b) == Concat(a) + Concat(b)
  {
    if a == [] {
      assert a + b == b;
    } else {
      ConcatOfSum(a[1..], b);
      assert (a + b)[1..] == a[1..] + b;
      assert a[0] + (Concat(a[1..]) + Concat(b)) == Concat(a) + Concat(b);
    }
  }

  /** How long the run at the front of `s` is: one for a character that stands alone. */
  function RunLength(s: string, alnum: char -> bool): (n: nat)
    requires s != ""
    ensures 1 <= n <= |s|
  {
    if ClassOf(s[0], alnum) == Other || |s| == 1 || ClassOf(s[1], alnum) != ClassOf(s[0], alnum) then 1
    else 1 + RunLength(s[1..], alnum)
  }

  /** A line's tokens: its runs, one after another. */
  function LineTokens(s: string, alnum: char -> bool): (tokens: seq<string>)
    ensures Concat(tokens) == s
    ensures forall t | t in tokens :: t != ""
  {
    if s == "" then [] else
      var n := RunLength(s, alnum);
      var rest := LineTokens(s[n..], alnum);
      assert ([s[..n]] + rest)[1..] == rest;
      assert s[..n] + s[n..] == s;
      [s[..n]] + rest
  }

  /** The tokens of lines joined by newlines, each newline a token of its own. */
  function PieceTokens(pieces: seq<string>, alnum: char -> bool): (tokens: seq<string>)
    requires pieces != []
    ensures Concat(tokens) == Join(pieces, '\n')
    ensures forall t | t in tokens :: t != ""
  {
    var first := LineTokens(pieces[0], alnum);
    if |pieces| == 1 then first
    else
      var rest := PieceTokens(pieces[1..], alnum);
      ConcatOfSum(first, ["\n"] + rest);
      assert (["\n"] + rest)[1..] == rest;
      assert first + ["\n"] + rest == first + (["\n"] + rest);
      first + ["\n"] + rest
  }

  function TextTokens(text: string, alnum: char -> bool): (tokens: seq<string>)
    ensures Concat(tokens) == text
    ensures forall t | t in tokens :: t != ""
  {
    PieceTokens(Split(text, '\n'), alnum)
  }

  /** All of a run is of one class, and it could not have gone on. */
  lemma {:induction false} RunIsMaximal(s: string, alnum: char -> bool)
    requires s != ""
    ensures var n, c := RunLength(s, alnum), ClassOf(s[0], alnum);
      && (forall i | 0 <= i < n :: ClassOf(s[i], alnum) == c)
      && (c == Other ==> n == 1)
      && (n < |s| && c != Other ==> ClassOf(s[n], alnum) != c)
  {
    if RunLength(s, alnum) > 1 {
      RunIsMaximal(s[1..], alnum);
    }
  }

  /** A newline, or some of a line, all of one class, and a single character where that stands alone. */
  ghost predicate IsToken(token: string, alnum: char -> bool) {
    || token == "\n"
    || (token != "" && '\n' !in token && (forall c | c in token :: ClassOf(c, alnum) == ClassOf(token[0], alnum))
        && (ClassOf(token[0], alnum) == Other ==> |token| == 1))
  }

  /** Whether two tokens in a row could not have been one. */
  ghost predicate Apart(a: string, b: string, alnum: char -> bool) {
    a != "" && b != "" && (a == "\n" || b == "\n" || ClassOf(b[0], alnum) == Other
                           || ClassOf(a[|a| - 1], alnum) != ClassOf(b[0], alnum))
  }

  ghost predicate AreTokens(tokens: seq<string>, alnum: char -> bool) {
    && (forall i | 0 <= i < |tokens| :: IsToken(tokens[i], alnum))
    && (forall i | 0 < i < |tokens| :: Apart(tokens[i - 1], tokens[i], alnum))
  }

  lemma RunIsToken(s: string, alnum: char -> bool)
    requires s != "" && '\n' !in s
    ensures IsToken(s[..RunLength(s, alnum)], alnum)
  {
    hide ClassOf, RunLength;
    RunIsMaximal(s, alnum);
    var run := s[..RunLength(s, alnum)];
    assert run[0] == s[0];
    forall c | c in run ensures ClassOf(c, alnum) == ClassOf(run[0], alnum) && c in s {
      var i :| 0 <= i < |run| && run[i] == c;
      assert s[i] == c;
    }
  }

  lemma RunsApart(s: string, next: string, alnum: char -> bool)
    requires s != "" && RunLength(s, alnum) < |s| && next != "" && next[0] == s[RunLength(s, alnum)]
    ensures Apart(s[..RunLength(s, alnum)], next, alnum)
  {
    hide ClassOf, RunLength;
    RunIsMaximal(s, alnum);
    var n := RunLength(s, alnum);
    assert s[..n][|s[..n]| - 1] == s[n - 1];
  }

  lemma TokenBefore(token: string, rest: seq<string>, alnum: char -> bool)
    requires IsToken(token, alnum) && AreTokens(rest, alnum)
    requires rest != [] ==> Apart(token, rest[0], alnum)
    ensures AreTokens([token] + rest, alnum)
  {
    hide IsToken, Apart;
  }

  lemma FirstToken(s: string, alnum: char -> bool)
    requires s != ""
    ensures var tokens := LineTokens(s, alnum); tokens != [] && tokens[0] != "" && tokens[0][0] == s[0]
  {
  }

  lemma {:induction false} LineTokensAre(s: string, alnum: char -> bool)
    requires '\n' !in s
    ensures AreTokens(LineTokens(s, alnum), alnum)
  {
    hide ClassOf, RunLength, IsToken, Apart;
    if s != "" {
      var n := RunLength(s, alnum);
      RunIsToken(s, alnum);
      assert forall c | c in s[n..] :: c in s;
      LineTokensAre(s[n..], alnum);
      if n < |s| {
        FirstToken(s[n..], alnum);
        RunsApart(s, LineTokens(s[n..], alnum)[0], alnum);
      }
      TokenBefore(s[..n], LineTokens(s[n..], alnum), alnum);
    }
  }

  lemma {:induction false} PieceTokensAre(pieces: seq<string>, alnum: char -> bool)
    requires pieces != [] && forall p | p in pieces :: '\n' !in p
    ensures AreTokens(PieceTokens(pieces, alnum), alnum)
  {
    hide ClassOf, LineTokens;
    assert pieces[0] in pieces;
    LineTokensAre(pieces[0], alnum);
    if |pieces| > 1 {
      PieceTokensAre(pieces[1..], alnum);
      assert forall i | 0 <= i < |LineTokens(pieces[0], alnum)| ::
        LineTokens(pieces[0], alnum)[i] in LineTokens(pieces[0], alnum);
      assert forall i | 0 <= i < |PieceTokens(pieces[1..], alnum)| ::
        PieceTokens(pieces[1..], alnum)[i] in PieceTokens(pieces[1..], alnum);
    }
  }

  /** A text's tokens spell it, and are what it falls into: each newline, each character that stands alone, and each
      run of word characters or of blanks as long as it goes. */
  lemma TextTokensAre(text: string, alnum: char -> bool)
    ensures Concat(TextTokens(text, alnum)) == text
    ensures AreTokens(TextTokens(text, alnum), alnum)
  {
    PieceTokensAre(Split(text, '\n'), alnum);
  }

  method Tokenize(text: string, alnum: char -> bool) returns (tokens: seq<string>)
    ensures tokens == TextTokens(text, alnum)
  {
    tokens := [];
    var pieces := Split(text, '\n');
    for index := 0 to |pieces|
      invariant index == 0 ==> tokens == []
      invariant 0 < index < |pieces| ==>
        tokens + ["\n"] + PieceTokens(pieces[index..], alnum) == PieceTokens(pieces, alnum)
      invariant index == |pieces| ==> tokens == PieceTokens(pieces, alnum)
    {
      assert pieces[index..][1..] == pieces[index + 1..];
      ghost var before := tokens;
      if index > 0 {
        tokens := tokens + ["\n"];
      }
      var line := TokenizeLine(pieces[index], alnum);
      ghost var joined := tokens;
      tokens := tokens + line;
      if index + 1 < |pieces| {
        var rest := PieceTokens(pieces[index + 1..], alnum);
        assert joined + (line + ["\n"] + rest) == tokens + ["\n"] + rest;
        assert PieceTokens(pieces[index..], alnum) == line + ["\n"] + rest;
      } else {
        assert PieceTokens(pieces[index..], alnum) == line;
      }
      assert pieces[0..] == pieces;
    }
  }

  lemma NoTokens(alnum: char -> bool)
    ensures LineTokens("", alnum) == []
  {
  }

  lemma RunEnds(line: string, start: nat, end: nat, alnum: char -> bool)
    requires start < end <= |line| && RunLength(line[start..], alnum) == end - start
    ensures LineTokens(line[start..], alnum) == [line[start..end]] + LineTokens(line[end..], alnum)
  {
    assert line[start..][..end - start] == line[start..end];
    assert line[start..][end - start..] == line[end..];
  }

  method TokenizeLine(line: string, alnum: char -> bool) returns (tokens: seq<string>)
    ensures tokens == LineTokens(line, alnum)
  {
    hide LineTokens, ClassOf;
    tokens := [];
    var start := 0;
    var kind: Option<Class> := None;
    assert line[0..] == line;
    NoTokens(alnum);
    for offset := 0 to |line|
      invariant start <= offset
      invariant kind.None? <==> offset == 0
      invariant offset > 0 ==> start < offset && kind == Some(ClassOf(line[offset - 1], alnum))
      invariant offset > 0 ==> offset - start <= RunLength(line[start..], alnum)
      invariant tokens + LineTokens(line[start..], alnum) == LineTokens(line, alnum)
    {
      var current := ClassOf(line[offset], alnum);
      if offset > 0 {
        RunReaches(line[start..], offset - start, alnum);
      }
      match kind {
        case Some(previous) =>
          if previous != current || current == Other {
            RunEnds(line, start, offset, alnum);
            tokens, start := tokens + [line[start..offset]], offset;
          }
        case None =>
      }
      kind := Some(current);
    }
    if kind.Some? {
      RunEnds(line, start, |line|, alnum);
      assert line[|line|..] == "" && line[start..|line|] == line[start..];
      tokens := tokens + [line[start..]];
    }
  }

  /** A run that has come `n` characters goes on exactly when the next is of its class and does not stand alone. */
  lemma {:induction false} RunReaches(s: string, n: nat, alnum: char -> bool)
    requires 1 <= n < |s| && n <= RunLength(s, alnum)
    ensures n < RunLength(s, alnum) <==>
      ClassOf(s[n], alnum) == ClassOf(s[n - 1], alnum) && ClassOf(s[n], alnum) != Other
  {
    if n > 1 {
      RunReaches(s[1..], n - 1, alnum);
    }
  }
}

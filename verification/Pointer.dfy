/** JSON Pointers (RFC 6901): written by the client, read by the terminal. */
module Pointer {
  import opened Text

  // ------------------------------------------------------------------------
  // The client: escaping
  // ------------------------------------------------------------------------

  /** Rust's `str::replace` of one character. */
  function ReplaceChar(s: string, from: char, to: string): string {
    if s == "" then "" else (if s[0] == from then to else [s[0]]) + ReplaceChar(s[1..], from, to)
  }

  /** One reference token as it is written in a pointer. */
  function Escape(token: string): string {
    ReplaceChar(ReplaceChar(token, '~', "~0"), '/', "~1")
  }

  /** The pointer the client builds for a value, token by token from the root. */
  function PathOf(tokens: seq<string>): string {
    if tokens == [] then "" else PathOf(tokens[..|tokens| - 1]) + "/" + Escape(tokens[|tokens| - 1])
  }

  // ------------------------------------------------------------------------
  // The terminal: reading
  // ------------------------------------------------------------------------

  /** Rust's `str::replace` of a pair of characters by one, left to right. */
  function ReplacePair(s: string, a: char, b: char, to: char): string {
    if |s| >= 2 && s[0] == a && s[1] == b then [to] + ReplacePair(s[2..], a, b, to)
    else if s == "" then ""
    else [s[0]] + ReplacePair(s[1..], a, b, to)
  }

  function Unescape(token: string): string {
    ReplacePair(ReplacePair(token, '~', '1', '/'), '~', '0', '~')
  }

  function UnescapeAll(pieces: seq<string>): (tokens: seq<string>)
    ensures |tokens| == |pieces|
  {
    if pieces == [] then [] else [Unescape(pieces[0])] + UnescapeAll(pieces[1..])
  }

  /** A pointer's reference tokens; `None` for one neither empty nor starting with `/`. */
  function Tokens(pointer: string): Option<seq<string>> {
    if pointer == "" then Some([])
    else if pointer[0] != '/' then None
    else Some(UnescapeAll(Split(pointer[1..], '/')))
  }

  // ------------------------------------------------------------------------
  // The escapes
  // ------------------------------------------------------------------------

  /** A character as section 3 of RFC 6901 writes it. */
  function EscapedChar(c: char): string {
    if c == '~' then "~0" else if c == '/' then "~1" else [c]
  }

  lemma {:induction false} ReplaceInTwo(a: string, b: string, from: char, to: string)
    ensures ReplaceChar(a + b, from, to) == ReplaceChar(a, from, to) + ReplaceChar(b, from, to)
  {
    if a == "" {
      assert a + b == b;
    } else {
      assert (a + b)[1..] == a[1..] + b;
      ReplaceInTwo(a[1..], b, from, to);
    }
  }

  /** A token is escaped character by character, each as the standard writes it. */
  lemma EscapedByChars(token: string)
    requires token != ""
    ensures Escape(token) == EscapedChar(token[0]) + Escape(token[1..])
  {
    var c, rest := token[0], ReplaceChar(token[1..], '~', "~0");
    ReplaceInTwo(if c == '~' then "~0" else [c], rest, '/', "~1");
    OneReplaced(c);
  }

  lemma OneReplaced(c: char)
    ensures ReplaceChar(if c == '~' then "~0" else [c], '/', "~1") == EscapedChar(c)
  {
    assert "~0"[1..] == "0" && "0"[1..] == "" && [c][1..] == "";
  }

  // ------------------------------------------------------------------------
  // Round trip
  // ------------------------------------------------------------------------

  lemma {:induction false} EscapeHoldsNoSlash(token: string)
    ensures '/' !in Escape(token)
  {
    if token != "" {
      EscapeHoldsNoSlash(token[1..]);
      EscapeStep(token);
    }
  }

  /** What escaping does to the first character. */
  lemma EscapeStep(token: string)
    requires token != ""
    ensures Escape(token) == (match token[0] case '~' => "~0" case '/' => "~1" case c => [c]) + Escape(token[1..])
  {
    var first := ReplaceChar(token, '~', "~0");
    var rest := ReplaceChar(token[1..], '~', "~0");
    if token[0] == '~' {
      assert first == ['~'] + (['0'] + rest);
      assert first[1..] == ['0'] + rest;
      assert (['0'] + rest)[1..] == rest;
      assert ReplaceChar(['0'] + rest, '/', "~1") == ['0'] + Escape(token[1..]);
      assert "~0" + Escape(token[1..]) == ['~'] + (['0'] + Escape(token[1..]));
    } else {
      assert first[1..] == rest;
    }
  }

  /** Undoing `~1` first and `~0` second gives every token back, `~1` itself included. */
  lemma {:induction false} UnescapeEscape(token: string)
    ensures Unescape(Escape(token)) == token
  {
    SlashesBack(token);
    TildesBack(token);
  }

  lemma {:induction false} SlashesBack(token: string)
    ensures ReplacePair(Escape(token), '~', '1', '/') == ReplaceChar(token, '~', "~0")
  {
    if token != "" {
      SlashesBack(token[1..]);
      EscapeStep(token);
      var rest := Escape(token[1..]);
      if token[0] == '~' {
        assert Escape(token)[1..] == "0" + rest;
        assert ("0" + rest)[1..] == rest;
      } else if token[0] == '/' {
        assert Escape(token)[2..] == rest;
      } else {
        assert Escape(token)[1..] == rest;
      }
    }
  }

  lemma {:induction false} TildesBack(token: string)
    ensures ReplacePair(ReplaceChar(token, '~', "~0"), '~', '0', '~') == token
  {
    if token != "" {
      TildesBack(token[1..]);
      var rest := ReplaceChar(token[1..], '~', "~0");
      if token[0] == '~' {
        assert ReplaceChar(token, '~', "~0")[2..] == rest;
      } else {
        assert ReplaceChar(token, '~', "~0")[1..] == rest;
      }
    }
  }

  function EscapeAll(tokens: seq<string>): (pieces: seq<string>)
    ensures |pieces| == |tokens|
    ensures forall i | 0 <= i < |tokens| :: pieces[i] == Escape(tokens[i])
  {
    if tokens == [] then [] else [Escape(tokens[0])] + EscapeAll(tokens[1..])
  }

  lemma {:induction false} JoinAppend(pieces: seq<string>, last: string, sep: char)
    requires pieces != []
    ensures Join(pieces + [last], sep) == Join(pieces, sep) + [sep] + last
  {
    if |pieces| == 1 {
      assert (pieces + [last])[1..] == [last];
    } else {
      assert (pieces + [last])[1..] == pieces[1..] + [last];
      JoinAppend(pieces[1..], last, sep);
    }
  }

  lemma {:induction false} PathIsJoined(tokens: seq<string>)
    requires tokens != []
    ensures PathOf(tokens) == "/" + Join(EscapeAll(tokens), '/')
  {
    hide Escape, EscapeAll, Join;
    var init, last := tokens[..|tokens| - 1], tokens[|tokens| - 1];
    assert tokens == init + [last];
    EscapeAllAppend(init, last);
    if init != [] {
      PathIsJoined(init);
      JoinAppend(EscapeAll(init), Escape(last), '/');
      assert ("/" + Join(EscapeAll(init), '/')) + "/" + Escape(last)
        == "/" + (Join(EscapeAll(init), '/') + ['/'] + Escape(last));
    } else {
      OneEscaped(last);
    }
  }

  lemma OneEscaped(token: string)
    ensures EscapeAll([] + [token]) == [Escape(token)] && Join([Escape(token)], '/') == Escape(token)
    ensures EscapeAll([]) == []
  {
  }

  lemma {:induction false} EscapeAllAppend(tokens: seq<string>, last: string)
    ensures EscapeAll(tokens + [last]) == EscapeAll(tokens) + [Escape(last)]
  {
    assert |EscapeAll(tokens + [last])| == |tokens| + 1;
  }

  lemma {:induction false} UnescapeEscapeAll(tokens: seq<string>)
    ensures UnescapeAll(EscapeAll(tokens)) == tokens
  {
    if tokens != [] {
      UnescapeEscape(tokens[0]);
      UnescapeEscapeAll(tokens[1..]);
      assert EscapeAll(tokens)[1..] == EscapeAll(tokens[1..]);
    }
  }

  /** The pointer the client writes is read back as the same tokens, whatever characters they hold. */
  lemma {:induction false} PathReadsBack(tokens: seq<string>)
    ensures Tokens(PathOf(tokens)) == Some(tokens)
  {
    if tokens != [] {
      PathIsJoined(tokens);
      var pieces := EscapeAll(tokens);
      forall p | p in pieces ensures '/' !in p {
        var i :| 0 <= i < |pieces| && pieces[i] == p;
        EscapeHoldsNoSlash(tokens[i]);
      }
      SplitJoin(pieces, '/');
      UnescapeEscapeAll(tokens);
      assert PathOf(tokens)[1..] == Join(pieces, '/');
    }
  }

  lemma PathOfChild(tokens: seq<string>, key: string)
    ensures PathOf(tokens + [key]) == PathOf(tokens) + "/" + Escape(key)
  {
    assert (tokens + [key])[..|tokens|] == tokens;
  }
}

/** The longest-common-subsequence walk behind a word diff. */
module WordLcs {
  import opened Text
  import opened Tokens

  /** Which side of the diff a run of text belongs to. */
  datatype Side = Added | Common | Removed

  /** One run of tokens on one side, joined into one stretch of text. */
  datatype Change = Change(side: Side, text: string)

  /** One token and the side it is on. */
  datatype Edit = Edit(side: Side, token: string)

  // ------------------------------------------------------------------------
  // The longest common subsequence
  // ------------------------------------------------------------------------

  function Max(a: nat, b: nat): nat { if a < b then b else a }

  function Lcs(a: seq<string>, b: seq<string>): nat
    decreases |a| + |b|
  {
    if a == [] || b == [] then 0
    else if a[0] == b[0] then Lcs(a[1..], b[1..]) + 1
    else Max(Lcs(a[1..], b), Lcs(a, b[1..]))
  }

  /** Whether `c` is `a` with some tokens left out. */
  predicate IsSubsequence(c: seq<string>, a: seq<string>) {
    c == [] || (a != [] && ((c[0] == a[0] && IsSubsequence(c[1..], a[1..])) || IsSubsequence(c, a[1..])))
  }

  lemma {:induction false} DropBoth(c: seq<string>, a: seq<string>)
    requires c != [] && IsSubsequence(c, a)
    ensures a != [] && IsSubsequence(c[1..], a[1..])
  {
    if !(c[0] == a[0] && IsSubsequence(c[1..], a[1..])) {
      DropBoth(c, a[1..]);
      Looser(c[1..], a[1..]);
    }
  }

  lemma Looser(c: seq<string>, a: seq<string>)
    requires a != [] && IsSubsequence(c, a[1..])
    ensures IsSubsequence(c, a)
  {
  }

  /** No common subsequence is longer than the length the table counts. */
  lemma {:induction false} LcsIsUpperBound(c: seq<string>, a: seq<string>, b: seq<string>)
    requires IsSubsequence(c, a) && IsSubsequence(c, b)
    ensures |c| <= Lcs(a, b)
    decreases |a| + |b|
  {
    if c != [] {
      if a[0] == b[0] {
        DropBoth(c, a);
        DropBoth(c, b);
        LcsIsUpperBound(c[1..], a[1..], b[1..]);
      } else if c[0] == a[0] {
        LcsIsUpperBound(c, a, b[1..]);
      } else {
        LcsIsUpperBound(c, a[1..], b);
      }
    }
  }

  // ------------------------------------------------------------------------
  // The walk
  // ------------------------------------------------------------------------

  /** Token by token: what is common is kept, and of two ways on, the one with the longer rest is taken. */
  function Walk(a: seq<string>, b: seq<string>): seq<Edit>
    decreases |a| + |b|
  {
    if a == [] && b == [] then []
    else if b == [] then [Edit(Removed, a[0])] + Walk(a[1..], b)
    else if a == [] then [Edit(Added, b[0])] + Walk(a, b[1..])
    else if a[0] == b[0] then [Edit(Common, a[0])] + Walk(a[1..], b[1..])
    else if Lcs(a[1..], b) >= Lcs(a, b[1..]) then [Edit(Removed, a[0])] + Walk(a[1..], b)
    else [Edit(Added, b[0])] + Walk(a, b[1..])
  }

  /** The tokens of `edits` on one of `sides`. */
  function TokensOn(edits: seq<Edit>, sides: set<Side>): seq<string> {
    if edits == [] then []
    else (if edits[0].side in sides then [edits[0].token] else []) + TokensOn(edits[1..], sides)
  }

  const OLD_SIDES := {Common, Removed}
  const NEW_SIDES := {Common, Added}

  /** The walk spells both token lists, and what it keeps is a common subsequence, the longest there is. */
  lemma {:induction false} WalkSpellsBoth(a: seq<string>, b: seq<string>)
    ensures TokensOn(Walk(a, b), OLD_SIDES) == a
    ensures TokensOn(Walk(a, b), NEW_SIDES) == b
    ensures |TokensOn(Walk(a, b), {Common})| == Lcs(a, b)
    decreases |a| + |b|
  {
    if a != [] || b != [] {
      var edit, rest := Walk(a, b)[0], Walk(a, b)[1..];
      match edit.side
      case Common => WalkSpellsBoth(a[1..], b[1..]); assert rest == Walk(a[1..], b[1..]);
      case Removed => WalkSpellsBoth(a[1..], b); assert rest == Walk(a[1..], b);
      case Added => WalkSpellsBoth(a, b[1..]); assert rest == Walk(a, b[1..]);
    }
  }

  lemma {:induction false} CommonIsSubsequence(edits: seq<Edit>, sides: set<Side>)
    requires Common in sides
    ensures IsSubsequence(TokensOn(edits, {Common}), TokensOn(edits, sides))
  {
    if edits != [] {
      CommonIsSubsequence(edits[1..], sides);
      var kept, all := TokensOn(edits[1..], {Common}), TokensOn(edits[1..], sides);
      assert [] + kept == kept && [] + all == all;
      if edits[0].side == Common {
        assert ([edits[0].token] + kept)[1..] == kept;
        assert ([edits[0].token] + all)[1..] == all;
      } else if edits[0].side in sides {
        assert ([edits[0].token] + all)[1..] == all;
        Looser(kept, [edits[0].token] + all);
      }
    }
  }

  /** The tokens the walk keeps are a longest common subsequence of the two lists. */
  lemma WalkIsOptimal(a: seq<string>, b: seq<string>, c: seq<string>)
    ensures var kept := TokensOn(Walk(a, b), {Common});
      && IsSubsequence(kept, a) && IsSubsequence(kept, b)
      && (IsSubsequence(c, a) && IsSubsequence(c, b) ==> |c| <= |kept|)
  {
    WalkSpellsBoth(a, b);
    CommonIsSubsequence(Walk(a, b), OLD_SIDES);
    CommonIsSubsequence(Walk(a, b), NEW_SIDES);
    if IsSubsequence(c, a) && IsSubsequence(c, b) {
      LcsIsUpperBound(c, a, b);
    }
  }

  // ------------------------------------------------------------------------
  // Runs
  // ------------------------------------------------------------------------

  /** One more token, joined to the last run when it is on the same side. */
  function Pushed(changes: seq<Change>, edit: Edit): seq<Change> {
    if changes != [] && changes[|changes| - 1].side == edit.side
    then changes[|changes| - 1 := Change(edit.side, changes[|changes| - 1].text + edit.token)]
    else changes + [Change(edit.side, edit.token)]
  }

  function Runs(changes: seq<Change>, edits: seq<Edit>): seq<Change>
    decreases |edits|
  {
    if edits == [] then changes else Runs(Pushed(changes, edits[0]), edits[1..])
  }

  /** The text of `changes` on some sides. */
  function TextOn(changes: seq<Change>, sides: set<Side>): string {
    if changes == [] then ""
    else (if changes[0].side in sides then changes[0].text else "") + TextOn(changes[1..], sides)
  }

  lemma {:induction false} TextOnConcat(a: seq<Change>, b: seq<Change>, sides: set<Side>)
    ensures TextOn(a + b, sides) == TextOn(a, sides) + TextOn(b, sides)
  {
    if a == [] {
      assert a + b == b;
    } else {
      TextOnConcat(a[1..], b, sides);
      TextOnFirst(a, sides);
      TextOnFirst(a + b, sides);
      assert (a + b)[1..] == a[1..] + b;
      Assoc(if a[0].side in sides then a[0].text else "", TextOn(a[1..], sides), TextOn(b, sides));
    }
  }

  lemma TextOnFirst(changes: seq<Change>, sides: set<Side>)
    requires changes != []
    ensures TextOn(changes, sides)
      == (if changes[0].side in sides then changes[0].text else "") + TextOn(changes[1..], sides)
  {
  }

  lemma OneChange(change: Change, sides: set<Side>)
    ensures TextOn([change], sides) == if change.side in sides then change.text else ""
  {
    assert TextOn([change][1..], sides) == "";
  }

  lemma PushedText(changes: seq<Change>, edit: Edit, sides: set<Side>)
    ensures TextOn(Pushed(changes, edit), sides) ==
      TextOn(changes, sides) + if edit.side in sides then edit.token else ""
  {
    if changes != [] && changes[|changes| - 1].side == edit.side {
      var front, last := changes[..|changes| - 1], changes[|changes| - 1];
      var longer := Change(edit.side, last.text + edit.token);
      assert changes == front + [last] && Pushed(changes, edit) == front + [longer];
      TextOnConcat(front, [last], sides);
      TextOnConcat(front, [longer], sides);
      OneChange(last, sides);
      OneChange(longer, sides);
    } else {
      TextOnConcat(changes, [Change(edit.side, edit.token)], sides);
      OneChange(Change(edit.side, edit.token), sides);
    }
  }

  lemma ConcatOfNone()
    ensures Concat([]) == ""
  {
  }

  lemma ConcatOfOne(s: string)
    ensures Concat([s]) == s
  {
    assert Concat([s][1..]) == "";
  }

  /** Joining tokens into runs changes no side's text. */
  lemma {:induction false} RunsText(changes: seq<Change>, edits: seq<Edit>, sides: set<Side>)
    ensures TextOn(Runs(changes, edits), sides) == TextOn(changes, sides) + Concat(TokensOn(edits, sides))
    decreases |edits|
  {
    hide Pushed, Concat, TextOn;
    if edits == [] {
      ConcatOfNone();
    } else {
      var first, rest := if edits[0].side in sides then [edits[0].token] else [], TokensOn(edits[1..], sides);
      PushedText(changes, edits[0], sides);
      RunsText(Pushed(changes, edits[0]), edits[1..], sides);
      ConcatOfSum(first, rest);
      ConcatOfOne(edits[0].token);
      ConcatOfNone();
      Assoc(TextOn(changes, sides), Concat(first), Concat(rest));
    }
  }

  lemma RunsStep(changes: seq<Change>, edit: Edit, rest: seq<Edit>)
    ensures Runs(changes, [edit] + rest) == Runs(Pushed(changes, edit), rest)
  {
    assert ([edit] + rest)[1..] == rest;
  }

  /** Each two neighbours are on different sides, and none is empty. */
  ghost predicate Alternate(changes: seq<Change>) {
    && (forall i | 0 <= i < |changes| :: changes[i].text != "")
    && (forall i | 0 < i < |changes| :: changes[i - 1].side != changes[i].side)
  }

  lemma {:induction false} RunsAlternate(changes: seq<Change>, edits: seq<Edit>)
    requires Alternate(changes) && forall e | e in edits :: e.token != ""
    ensures Alternate(Runs(changes, edits))
    decreases |edits|
  {
    if edits != [] {
      assert edits[0] in edits;
      RunsAlternate(Pushed(changes, edits[0]), edits[1..]);
    }
  }

  // ------------------------------------------------------------------------
  // The table
  // ------------------------------------------------------------------------

  /** Diff two token lists into runs: a table of rests filled from the end, then a walk from the front. */
  method DiffTokens(a: seq<string>, b: seq<string>) returns (changes: seq<Change>)
    ensures changes == Runs([], Walk(a, b))
    ensures TextOn(changes, OLD_SIDES) == Concat(a)
    ensures TextOn(changes, NEW_SIDES) == Concat(b)
  {
    hide Lcs, Walk, Runs, Pushed, Filled, OnWalk;
    var lengths := FillTable(a, b);
    changes := [];
    var i, j := 0, 0;
    WalkStarts(a, b);
    while i < |a| && j < |b|
      invariant i <= |a| && j <= |b| && OnWalk(changes, a, i, b, j)
      invariant Filled(lengths, a, b) && lengths.Length0 == |a| + 1 && lengths.Length1 == |b| + 1
    {
      WalkGoesOn(changes, a, i, b, j);
      FilledAt(lengths, a, b, i + 1, j);
      FilledAt(lengths, a, b, i, j + 1);
      if a[i] == b[j] {
        changes := Pushed(changes, Edit(Common, a[i]));
        i, j := i + 1, j + 1;
      } else if lengths[i + 1, j] >= lengths[i, j + 1] {
        changes := Pushed(changes, Edit(Removed, a[i]));
        i := i + 1;
      } else {
        changes := Pushed(changes, Edit(Added, b[j]));
        j := j + 1;
      }
    }
    while i < |a|
      invariant i <= |a| && j <= |b| && (i < |a| ==> j == |b|) && OnWalk(changes, a, i, b, j)
    {
      WalkGoesOn(changes, a, i, b, j);
      changes := Pushed(changes, Edit(Removed, a[i]));
      i := i + 1;
    }
    while j < |b|
      invariant i == |a| && j <= |b| && OnWalk(changes, a, i, b, j)
    {
      WalkGoesOn(changes, a, i, b, j);
      changes := Pushed(changes, Edit(Added, b[j]));
      j := j + 1;
    }
    WalkEnds(changes, a, b);
    WalkSpellsBoth(a, b);
    RunsText([], Walk(a, b), OLD_SIDES);
    RunsText([], Walk(a, b), NEW_SIDES);
    NoText();
  }

  lemma NoText()
    ensures TextOn([], OLD_SIDES) == "" && TextOn([], NEW_SIDES) == ""
  {
  }

  /** What is collected, and the rest of the walk from `i, j`, make up the whole walk. */
  ghost predicate OnWalk(changes: seq<Change>, a: seq<string>, i: nat, b: seq<string>, j: nat)
    requires i <= |a| && j <= |b|
  {
    Runs(changes, Walk(a[i..], b[j..])) == Runs([], Walk(a, b))
  }

  lemma WalkStarts(a: seq<string>, b: seq<string>)
    ensures OnWalk([], a, 0, b, 0)
  {
    assert a[0..] == a && b[0..] == b;
  }

  lemma WalkEnds(changes: seq<Change>, a: seq<string>, b: seq<string>)
    requires OnWalk(changes, a, |a|, b, |b|)
    ensures changes == Runs([], Walk(a, b))
  {
  }

  lemma WalkGoesOn(changes: seq<Change>, a: seq<string>, i: nat, b: seq<string>, j: nat)
    requires i <= |a| && j <= |b| && OnWalk(changes, a, i, b, j)
    ensures i < |a| && j == |b| ==> OnWalk(Pushed(changes, Edit(Removed, a[i])), a, i + 1, b, j)
    ensures i == |a| && j < |b| ==> OnWalk(Pushed(changes, Edit(Added, b[j])), a, i, b, j + 1)
    ensures i < |a| && j < |b| ==>
      if a[i] == b[j] then OnWalk(Pushed(changes, Edit(Common, a[i])), a, i + 1, b, j + 1)
      else if Lcs(a[i + 1..], b[j..]) >= Lcs(a[i..], b[j + 1..])
      then OnWalk(Pushed(changes, Edit(Removed, a[i])), a, i + 1, b, j)
      else OnWalk(Pushed(changes, Edit(Added, b[j])), a, i, b, j + 1)
  {
    hide Lcs, Walk, Runs, Pushed;
    WalkOut(a, i, b, j);
    if i < |a| && j < |b| {
      WalkStep(a, i, b, j);
      RunsStep(changes, Edit(Common, a[i]), Walk(a[i + 1..], b[j + 1..]));
    }
    if i < |a| {
      RunsStep(changes, Edit(Removed, a[i]), Walk(a[i + 1..], b[j..]));
    }
    if j < |b| {
      RunsStep(changes, Edit(Added, b[j]), Walk(a[i..], b[j + 1..]));
    }
  }

  lemma WalkStep(a: seq<string>, i: nat, b: seq<string>, j: nat)
    requires i < |a| && j < |b|
    ensures Walk(a[i..], b[j..]) ==
      if a[i] == b[j] then [Edit(Common, a[i])] + Walk(a[i + 1..], b[j + 1..])
      else if Lcs(a[i + 1..], b[j..]) >= Lcs(a[i..], b[j + 1..]) then [Edit(Removed, a[i])] + Walk(a[i + 1..], b[j..])
      else [Edit(Added, b[j])] + Walk(a[i..], b[j + 1..])
  {
    assert a[i..][1..] == a[i + 1..] && b[j..][1..] == b[j + 1..];
  }

  lemma WalkOut(a: seq<string>, i: nat, b: seq<string>, j: nat)
    requires i <= |a| && j <= |b|
    ensures i < |a| && j == |b| ==> Walk(a[i..], b[j..]) == [Edit(Removed, a[i])] + Walk(a[i + 1..], b[j..])
    ensures i == |a| && j < |b| ==> Walk(a[i..], b[j..]) == [Edit(Added, b[j])] + Walk(a[i..], b[j + 1..])
  {
    assert i < |a| ==> a[i..][1..] == a[i + 1..];
    assert j < |b| ==> b[j..][1..] == b[j + 1..];
  }

  /** Cell `i, j` counts the longest common subsequence of what is left from there. */
  ghost predicate Filled(lengths: array2<nat>, a: seq<string>, b: seq<string>)
    reads lengths
  {
    && lengths.Length0 == |a| + 1 && lengths.Length1 == |b| + 1
    && forall i, j | 0 <= i <= |a| && 0 <= j <= |b| :: lengths[i, j] == Lcs(a[i..], b[j..])
  }

  lemma FilledAt(lengths: array2<nat>, a: seq<string>, b: seq<string>, i: nat, j: nat)
    requires Filled(lengths, a, b) && i <= |a| && j <= |b|
    ensures lengths.Length0 == |a| + 1 && lengths.Length1 == |b| + 1 && lengths[i, j] == Lcs(a[i..], b[j..])
  {
  }

  method FillTable(a: seq<string>, b: seq<string>) returns (lengths: array2<nat>)
    ensures fresh(lengths) && lengths.Length0 == |a| + 1 && lengths.Length1 == |b| + 1
    ensures Filled(lengths, a, b)
  {
    lengths := new nat[|a| + 1, |b| + 1]((_, _) => 0);
    for i := |a| downto 0
      invariant forall r, c | i <= r <= |a| && 0 <= c <= |b| :: lengths[r, c] == Lcs(a[r..], b[c..])
      invariant forall r | 0 <= r <= |a| :: lengths[r, |b|] == 0
    {
      for j := |b| downto 0
        invariant forall r, c | i < r <= |a| && 0 <= c <= |b| :: lengths[r, c] == Lcs(a[r..], b[c..])
        invariant forall c | j <= c <= |b| :: lengths[i, c] == Lcs(a[i..], b[c..])
        invariant forall r | 0 <= r <= |a| :: lengths[r, |b|] == 0
      {
        assert a[i..][1..] == a[i + 1..] && b[j..][1..] == b[j + 1..];
        if a[i] == b[j] {
          lengths[i, j] := lengths[i + 1, j + 1] + 1;
        } else {
          lengths[i, j] := Max(lengths[i + 1, j], lengths[i, j + 1]);
        }
      }
    }
  }
}

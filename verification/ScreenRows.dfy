/** Arithmetic on screen rows: a place in a list of rows of different heights, as one number. */
module ScreenRows {
  import opened Text

  /** A row, and how many of its screen rows come before the place meant. */
  datatype Top = Top(row: nat, skip: nat)

  // ------------------------------------------------------------------------
  // One number
  // ------------------------------------------------------------------------

  /** The screen rows of all rows before `row`. */
  function Before(row: nat, height: nat -> nat): nat {
    if row == 0 then 0 else Before(row - 1, height) + height(row - 1)
  }

  /** How many screen rows come before a place. */
  function Abs(top: Top, height: nat -> nat): nat {
    Before(top.row, height) + top.skip
  }

  ghost predicate Positive(height: nat -> nat) {
    forall row :: height(row) >= 1
  }

  /** Whether the place is in its row, not past it. */
  predicate Normal(top: Top, height: nat -> nat) {
    top.skip < height(top.row)
  }

  function Max(a: int, b: int): int { if a < b then b else a }
  function Min(a: int, b: int): int { if a < b then a else b }

  /** The order places are compared in: by row, then by screen row. */
  predicate Less(a: Top, b: Top) {
    a.row < b.row || (a.row == b.row && a.skip < b.skip)
  }

  function Earlier(a: Top, b: Top): Top {
    if Less(b, a) then b else a
  }

  lemma {:induction false} BeforeGrows(a: nat, b: nat, height: nat -> nat)
    requires a <= b
    ensures Before(a, height) <= Before(b, height)
  {
    if a < b {
      BeforeGrows(a, b - 1, height);
    }
  }

  /** A place within its row comes before every place of a later row. */
  lemma NormalBefore(a: Top, b: Top, height: nat -> nat)
    requires a.row < b.row && a.skip <= height(a.row)
    ensures Abs(a, height) <= Abs(b, height)
    ensures Normal(a, height) ==> Abs(a, height) < Abs(b, height)
  {
    BeforeGrows(a.row + 1, b.row, height);
  }

  /** Comparing places within their rows is comparing their numbers. */
  lemma OrderIsAbs(a: Top, b: Top, height: nat -> nat)
    requires Normal(a, height) && Normal(b, height)
    ensures Less(a, b) <==> Abs(a, height) < Abs(b, height)
    ensures Abs(a, height) == Abs(b, height) ==> a == b
  {
    if a.row < b.row {
      NormalBefore(a, b, height);
    } else if b.row < a.row {
      NormalBefore(b, a, height);
    }
  }

  // ------------------------------------------------------------------------
  // Moving
  // ------------------------------------------------------------------------

  /** The place `rows` screen rows up, or the very top. */
  method ScreenRowsAbove(top: Top, rows: nat, height: nat -> nat) returns (above: Top)
    ensures Abs(above, height) == Max(0, Abs(top, height) - rows)
    ensures above.row <= top.row
    ensures Positive(height) && Normal(top, height) ==> Normal(above, height)
  {
    var row: nat, skip: nat, left: nat := top.row, top.skip, rows;
    while left > skip
      invariant row <= top.row
      invariant Abs(Top(row, skip), height) - left == Abs(top, height) - rows
      invariant (row == top.row && skip == top.skip) || (skip == height(row) && left > 0)
      decreases row
    {
      if row == 0 {
        return Top(0, 0);
      }
      left := left - skip;
      row := row - 1;
      skip := height(row);
    }
    return Top(row, skip - left);
  }

  /** Where the last `screenRows` screen rows begin, or the very top when all fit. */
  method LastTop(total: nat, screenRows: nat, height: nat -> nat) returns (last: Top)
    ensures Abs(last, height) == Max(0, Before(total, height) - screenRows)
    ensures last.skip <= height(last.row)
    ensures if total > 0 then last.row < total else last == Top(0, 0)
    ensures total > 0 && screenRows >= 1 && Positive(height) ==> Normal(last, height)
  {
    var filled := 0;
    for row := total downto 0
      invariant filled + Before(row, height) == Before(total, height)
      invariant row == total || filled < screenRows
    {
      filled := filled + height(row);
      if filled >= screenRows {
        return Top(row, filled - screenRows);
      }
    }
    return Top(0, 0);
  }

  /** The place after the wheel turns `lines` screen rows, up when positive, no further down than the last screenful. */
  method WheelScroll(top: Top, lines: int, total: nat, screenRows: nat, height: nat -> nat) returns (turned: Top)
    ensures Abs(turned, height) ==
      if lines < 0 then Min(Abs(top, height) - lines, Max(0, Before(total, height) - screenRows))
      else Max(0, Abs(top, height) - lines)
    ensures top.row < total ==> turned.row < total
    ensures top.row < total && screenRows >= 1 && Positive(height) && Normal(top, height) ==> Normal(turned, height)
  {
    if lines < 0 {
      var row: nat, skip: nat := top.row, top.skip - lines;
      while row + 1 < total && skip >= height(row)
        invariant Abs(Top(row, skip), height) == Abs(top, height) - lines
        invariant row == top.row || row < total
      {
        skip := skip - height(row);
        row := row + 1;
      }
      var last := LastTop(total, screenRows, height);
      EarlierIsMin(Top(row, skip), last, total, height);
      return Earlier(Top(row, skip), last);
    }
    turned := ScreenRowsAbove(top, lines, height);
  }

  /** Held to the last screenful, a place not past its row, or in the last one, has the smaller number. */
  lemma EarlierIsMin(a: Top, last: Top, total: nat, height: nat -> nat)
    requires last.skip <= height(last.row) && (total > 0 ==> last.row < total)
    requires a.row + 1 < total ==> Normal(a, height)
    requires total == 0 ==> last == Top(0, 0)
    ensures Abs(Earlier(a, last), height) == Min(Abs(a, height), Abs(last, height))
  {
    if last.row < a.row {
      NormalBefore(last, a, height);
    } else if a.row < last.row {
      if a.row + 1 < total {
        NormalBefore(a, last, height);
      }
    }
  }

  // ------------------------------------------------------------------------
  // Following the cursor
  // ------------------------------------------------------------------------

  /** The margin held to under half a pane. */
  function ClampMargin(margin: nat, screenRows: nat): nat {
    Min(margin, Max(screenRows - 1, 0) / 2)
  }

  /** The least move that brings screen row `c` at least `margin` below the top and no more than `low` below it. */
  function Followed(t: nat, c: nat, low: nat, margin: nat): nat {
    if c < t + margin then Max(0, c - margin)
    else if c > t + low then c - low
    else t
  }

  method FollowScreenRow(top: Top, cursor: Top, screenRows: nat, margin: nat, height: nat -> nat)
    returns (followed: Top)
    requires Normal(top, height) && Normal(cursor, height)
    ensures var rows := Max(screenRows, 1);
      Abs(followed, height) == Followed(Abs(top, height), Abs(cursor, height),
                                        rows - 1 - ClampMargin(margin, rows), ClampMargin(margin, rows))
    ensures followed.row <= Max(top.row, cursor.row)
    ensures Positive(height) ==> Normal(followed, height)
  {
    var rows: nat := Max(screenRows, 1);
    var margin := ClampMargin(margin, rows);
    var low: nat := rows - 1 - margin;
    OrderIsAbs(cursor, top, height);
    if Less(cursor, top) {
      followed := ScreenRowsAbove(cursor, margin, height);
      return;
    }
    var down := cursor.skip;
    var row := top.row;
    while row < cursor.row
      invariant top.row <= row <= cursor.row
      invariant down == cursor.skip + Before(row, height) - Before(top.row, height)
    {
      down := down + height(row);
      row := row + 1;
      if down > low + top.skip {
        break;
      }
    }
    BeforeGrows(row, cursor.row, height);
    assert Abs(cursor, height) - Abs(top, height) >= down - top.skip;
    assert row == cursor.row || down > low + top.skip;
    var below := down - top.skip;
    if below < margin {
      followed := ScreenRowsAbove(cursor, margin, height);
    } else if below > low {
      followed := ScreenRowsAbove(cursor, low, height);
    } else {
      followed := top;
    }
  }

  // ------------------------------------------------------------------------
  // The scrollbar
  // ------------------------------------------------------------------------

  /** A row takes a screen row at least. */
  function AtLeastOne(height: nat -> nat): nat -> nat {
    (row: nat) => if height(row) < 1 then 1 else height(row)
  }

  datatype ScrollPosition = ScrollPosition(offset: nat, visible: nat, total: nat)

  /** Where a view sits, for its scrollbar; `None` when everything fits. */
  function ScrollPositionRows(top: Top, total: nat, screenRows: nat, height: nat -> nat): Option<ScrollPosition> {
    var tall := AtLeastOne(height);
    var row := Min(top.row, total);
    var above := Before(row, tall);
    var all := Before(total, tall);
    if all > screenRows && screenRows > 0 then Some(ScrollPosition(above + top.skip, screenRows, all)) else None
  }

  lemma TallIsPositive(height: nat -> nat)
    ensures Positive(AtLeastOne(height))
  {
  }

  lemma NoneBefore(height: nat -> nat)
    ensures Before(0, height) == 0
  {
  }

  lemma BeforeNext(row: nat, height: nat -> nat)
    ensures Before(row + 1, height) == Before(row, height) + height(row)
  {
  }

  /** The place `offset` screen rows down, held inside the last screenful. */
  method TopAtScreenRow(offset: nat, total: nat, screenRows: nat, height: nat -> nat) returns (top: Top)
    ensures var tall := AtLeastOne(height);
      && Abs(top, tall) == Min(offset, Max(0, Before(total, tall) - screenRows))
      && (total > 0 ==> top.row < total)
      && (total > 0 && screenRows >= 1 ==> Normal(top, tall))
  {
    hide Before, AtLeastOne;
    var tall := AtLeastOne(height);
    TallIsPositive(height);
    var last := LastTop(total, screenRows, tall);
    var left: nat := offset;
    NoneBefore(tall);
    for row := 0 to total
      invariant left + Before(row, tall) == offset
    {
      BeforeNext(row, tall);
      if left < tall(row) {
        EarlierIsMin(Top(row, left), last, total, tall);
        return Earlier(Top(row, left), last);
      }
      left := left - tall(row);
    }
    return last;
  }

  /** Dropping the scrollbar where it is leaves the view where it is, for every top within its row and not past the
      last screenful; and the offset it shows is never past that. */
  lemma DropIsInverse(top: Top, dropped: Top, total: nat, screenRows: nat, height: nat -> nat)
    requires top.row < total && Normal(top, AtLeastOne(height)) && screenRows >= 1
    requires Abs(top, AtLeastOne(height)) <= Max(0, Before(total, AtLeastOne(height)) - screenRows)
    requires var position := ScrollPositionRows(top, total, screenRows, height);
      && position.Some?
      && Abs(dropped, AtLeastOne(height))
        == Min(position.value.offset, Max(0, Before(total, AtLeastOne(height)) - screenRows))
      && Normal(dropped, AtLeastOne(height))
    ensures dropped == top
  {
    OrderIsAbs(dropped, top, AtLeastOne(height));
  }

  /** A view at rest has a scrollbar just when not every screen row fits; it says how far down the view starts, how much
      of the rows is in it and how many there are, and never that it reaches past their end. */
  lemma ScrollbarSays(top: Top, total: nat, screenRows: nat, height: nat -> nat)
    requires top.row < total && Normal(top, AtLeastOne(height)) && screenRows >= 1
    requires Abs(top, AtLeastOne(height)) <= Max(0, Before(total, AtLeastOne(height)) - screenRows)
    ensures var position, all := ScrollPositionRows(top, total, screenRows, height), Before(total, AtLeastOne(height));
      && (position.Some? <==> screenRows < all)
      && (position.Some? ==>
            && position.value == ScrollPosition(Abs(top, AtLeastOne(height)), screenRows, all)
            && position.value.offset + position.value.visible <= position.value.total)
  {
  }
}

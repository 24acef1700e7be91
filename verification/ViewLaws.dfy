/** What every placement of a view keeps, counted in screen rows. */
module ViewLaws {
  import opened Text
  import opened ScreenRows
  import opened PlaceView

  /** The furthest down a view may start. */
  function Furthest(total: nat, screenRows: nat, height: nat -> nat): nat {
    Max(0, Before(total, height) - screenRows)
  }

  lemma CursorIsInRows(cursor: Top, total: nat, height: nat -> nat)
    requires cursor.row < total && Normal(cursor, height)
    ensures Abs(cursor, height) < Before(total, height)
  {
    BeforeGrows(cursor.row + 1, total, height);
  }

  /** Whether following or placing, the cursor's first screen row is inside the pane. */
  lemma CursorShown(
    top: Top, wheel: int, aim: ViewAim, cursor: CursorRows, total: nat, screenRows: nat, margin: nat,
    height: nat -> nat)
    requires screenRows >= 1 && total > 0 && Positive(height) && !aim.Held? && CursorIn(cursor, total, height)
    ensures
      var start := PlacedAbs(top, wheel, aim, cursor, total, screenRows, margin, height);
      var c := Abs(cursor.first, height);
      start <= c < start + screenRows
  {
    hide Before, HeldTo, Abs;
    CursorIsInRows(cursor.first, total, height);
  }

  /** Following shows a cursor whole exactly where its rows and one margin fit the pane, or where it ends within the
      first paneful. A cursor that fits the pane only without the margin is cut off anywhere else. */
  lemma CursorShownWholeIff(
    top: Top, wheel: int, cursor: CursorRows, total: nat, screenRows: nat, margin: nat, height: nat -> nat)
    requires screenRows >= 1 && total > 0 && Positive(height) && CursorIn(cursor, total, height)
    ensures
      var start := PlacedAbs(top, wheel, Follow, cursor, total, screenRows, margin, height);
      var f, l := Abs(cursor.first, height), Abs(cursor.last, height);
      start <= f && l < start + screenRows <==>
        l - f < screenRows - ClampMargin(margin, screenRows) || l < screenRows
  {
    hide Before, HeldTo, Abs;
    CursorIsInRows(cursor.first, total, height);
    CursorIsInRows(cursor.last, total, height);
  }

  /** A row of five screen rows in a pane of five, with a margin of two: it fits, and its last two are not shown. */
  lemma FittingCursorCut(height: nat -> nat)
    requires forall row :: height(row) == if row == 2 then 5 else 1
    ensures
      var cursor := CursorRows(Top(2, 0), Top(2, 4));
      var start := PlacedAbs(Top(0, 0), 0, Follow, cursor, 20, 5, 2, height);
      && CursorIn(cursor, 20, height)
      && Abs(cursor.last, height) - Abs(cursor.first, height) < 5
      && !(start <= Abs(cursor.first, height) && Abs(cursor.last, height) < start + 5)
  {
    var cursor := CursorRows(Top(2, 0), Top(2, 4));
    assert Before(2, height) == Before(1, height) + 1 == Before(0, height) + 2;
    CursorShownWholeIff(Top(0, 0), 0, cursor, 20, 5, 2, height);
  }

  /** Whatever the aim, the view starts no further down than the last screenful. */
  lemma NeverPastTheEnd(
    top: Top, wheel: int, aim: ViewAim, cursor: CursorRows, total: nat, screenRows: nat, margin: nat,
    height: nat -> nat)
    requires total > 0 && Positive(height)
    ensures PlacedAbs(top, wheel, aim, cursor, total, screenRows, margin, height) <= Furthest(total, screenRows, height)
  {
    hide Before, HeldTo, Abs, Followed;
  }

  /** A start that keeps screen rows `f` to `l` inside the margins, where the view can still scroll that way. */
  predicate KeepsMargins(start: nat, f: nat, l: nat, low: nat, kept: nat, furthest: nat) {
    && start <= furthest
    && (start + kept <= f || start == 0)
    && (l <= start + low || start == furthest)
  }

  function Distance(a: nat, b: nat): nat { if a < b then b - a else a - b }

  /** Where following rows `f` to `l` takes a view that starts at `t`. */
  function FollowedBoth(t: nat, f: nat, l: nat, low: nat, kept: nat, furthest: nat): nat {
    Min(Followed(Followed(t, l, low, kept), f, low, kept), furthest)
  }

  lemma FollowIsLeast(t: nat, f: nat, l: nat, low: nat, kept: nat, furthest: nat, other: nat)
    requires kept <= low && f <= l <= furthest + low + kept && l - f <= low - kept
    ensures KeepsMargins(FollowedBoth(t, f, l, low, kept, furthest), f, l, low, kept, furthest)
    ensures KeepsMargins(other, f, l, low, kept, furthest) ==>
      Distance(t, FollowedBoth(t, f, l, low, kept, furthest)) <= Distance(t, other)
  {
  }

  lemma FollowShowsFirst(t: nat, f: nat, l: nat, low: nat, kept: nat, furthest: nat)
    requires kept <= low && f <= l && l - f > low - kept
    ensures FollowedBoth(t, f, l, low, kept, furthest) == Min(Max(0, f - kept), furthest)
  {
  }

  /** Following a cursor whose rows fit between the margins makes the least move that keeps all of them there, the top
      and the last screenful being as far as a view goes. A taller cursor has its first row brought to the top margin,
      wherever the view was. */
  lemma LeastMove(
    top: Top, wheel: int, cursor: CursorRows, total: nat, screenRows: nat, margin: nat, height: nat -> nat, other: nat)
    requires screenRows >= 1 && total > 0 && Positive(height) && CursorIn(cursor, total, height)
    ensures
      var turned := TurnedAbs(top, wheel, total, screenRows, height);
      var start := PlacedAbs(top, wheel, Follow, cursor, total, screenRows, margin, height);
      var kept := ClampMargin(margin, screenRows);
      var low, furthest := screenRows - 1 - kept, Furthest(total, screenRows, height);
      var f, l := Abs(cursor.first, height), Abs(cursor.last, height);
      && (l - f <= low - kept ==>
            && KeepsMargins(start, f, l, low, kept, furthest)
            && (KeepsMargins(other, f, l, low, kept, furthest) ==> Distance(turned, start) <= Distance(turned, other)))
      && (l - f > low - kept ==> start == Min(Max(0, f - kept), furthest))
  {
    hide Before, HeldTo, Abs, Followed;
    CursorIsInRows(cursor.last, total, height);
    var turned := TurnedAbs(top, wheel, total, screenRows, height);
    var kept := ClampMargin(margin, screenRows);
    var low, furthest := screenRows - 1 - kept, Furthest(total, screenRows, height);
    var f, l := Abs(cursor.first, height), Abs(cursor.last, height);
    if l - f <= low - kept {
      FollowIsLeast(turned, f, l, low, kept, furthest, other);
    } else {
      FollowShowsFirst(turned, f, l, low, kept, furthest);
    }
  }

  /** Where the wheel leaves the view, before it is brought to the cursor. */
  function TurnedAbs(top: Top, wheel: int, total: nat, screenRows: nat, height: nat -> nat): nat
    requires total > 0 && Positive(height)
  {
    var start := Abs(HeldTo(top, total, height), height);
    if wheel < 0 then Min(start - wheel, Furthest(total, screenRows, height)) else Max(0, start - wheel)
  }

  // ------------------------------------------------------------------------
  // Placing again
  // ------------------------------------------------------------------------

  lemma FollowAgain(t: nat, last: nat, first: nat, low: nat, kept: nat, furthest: nat)
    requires kept <= low && first <= last
    ensures var r := Min(Followed(Followed(t, last, low, kept), first, low, kept), furthest);
      Min(Followed(Followed(r, last, low, kept), first, low, kept), furthest) == r
  {
  }

  /** A view already held to its rows stays where it is. */
  lemma HeldToItself(start: Top, total: nat, height: nat -> nat)
    requires total > 0 && Positive(height) && start.row < total && Normal(start, height)
    ensures HeldTo(start, total, height) == start
  {
  }

  /** Placing a placed view again, with the wheel at rest, moves nothing. */
  lemma PlaceIsIdempotent(
    once: RowWindow, twice: RowWindow, top: Top, wheel: int, aim: ViewAim, cursor: CursorRows, total: nat,
    screenRows: nat, margin: nat, height: nat -> nat)
    requires screenRows >= 1 && total > 0 && (!aim.Held? ==> CursorIn(cursor, total, AtLeastOne(height)))
    requires Placed(once, top, wheel, aim, cursor, total, screenRows, margin, height)
    requires Placed(twice, Top(once.start, once.skip), 0, aim, cursor, total, screenRows, margin, height)
    ensures twice.start == once.start && twice.skip == once.skip
  {
    hide Before, LaidOut, Followed, Abs;
    var tall := AtLeastOne(height);
    var start := Top(once.start, once.skip);
    HeldToItself(start, total, tall);
    NeverPastTheEnd(top, wheel, aim, cursor, total, screenRows, margin, tall);
    var kept := ClampMargin(margin, screenRows);
    if aim.Follow? {
      FollowAgain(TurnedAbs(top, wheel, total, screenRows, tall), Abs(cursor.last, tall), Abs(cursor.first, tall),
                  screenRows - 1 - kept, kept, Furthest(total, screenRows, tall));
    }
    OrderIsAbs(start, Top(twice.start, twice.skip), tall);
  }

  // ------------------------------------------------------------------------
  // Going to the rows shown
  // ------------------------------------------------------------------------

  /** The place on screen row `screen` of a view, in `row`. */
  function PlaceOn(row: nat, screen: nat, start: Top, height: nat -> nat): Top
    requires IsOn(row, screen, start, height)
  {
    Top(row, Abs(start, height) + screen - Before(row, height))
  }

  /** A screen row inside the margins, or held there by an end of the rows, is followed without a move. */
  lemma FollowStays(start: nat, c: nat, low: nat, kept: nat, furthest: nat)
    requires KeepsMargins(start, c, c, low, kept, furthest) && start <= c && kept <= low
    ensures Min(Followed(Followed(start, c, low, kept), c, low, kept), furthest) == start
  {
  }

  /** The reported top, middle and bottom screen rows are each where following them moves nothing. */
  lemma ShownKeepMargins(
    w: RowWindow, start: Top, cursor: nat, screen: nat, total: nat, screenRows: nat, margin: nat, height: nat -> nat)
    requires screenRows >= 1 && Positive(height) && start.row < total && Normal(start, height)
    requires LaidOut(w, start, cursor, total, screenRows, margin, height)
    requires Abs(start, height) <= Furthest(total, screenRows, height)
    requires screen == w.shownAt.top || screen == w.shownAt.middle || screen == w.shownAt.bottom
    ensures var t, kept := Abs(start, height), ClampMargin(margin, screenRows);
      KeepsMargins(t, t + screen, t + screen, screenRows - 1 - kept, kept, Furthest(total, screenRows, height))
  {
    hide IsOn, Before, Abs, Filled;
    FilledOfAll(start, w.count, total, height);
    StartOfRows(start, height);
    var t, filled, furthest := Abs(start, height), Filled(start, w.count, height), Furthest(total, screenRows, height);
    if filled < screenRows {
      assert t == 0 && furthest == 0;
    }
  }

  lemma FilledOfAll(start: Top, count: nat, total: nat, height: nat -> nat)
    requires Normal(start, height) && count >= 1 && start.row + count <= total
    ensures Filled(start, count, height) == Before(start.row + count, height) - Abs(start, height)
  {
    BeforeGrows(start.row + 1, start.row + count, height);
  }

  lemma StartOfRows(start: Top, height: nat -> nat)
    requires Positive(height)
    ensures Abs(start, height) == 0 <==> start == Top(0, 0)
  {
    if start.row > 0 {
      BeforeGrows(1, start.row, height);
      assert Before(1, height) == height(0);
    }
  }

  /** Going to the top, middle or bottom row a layout reports scrolls nothing. */
  lemma GoingThereScrollsNothing(
    w: RowWindow, again: RowWindow, top: Top, wheel: int, aim: ViewAim, cursor: CursorRows, row: nat, screen: nat,
    total: nat, screenRows: nat, margin: nat, height: nat -> nat)
    requires screenRows >= 1 && total > 0
    requires Placed(w, top, wheel, aim, cursor, total, screenRows, margin, height)
    requires screen == w.shownAt.top || screen == w.shownAt.middle || screen == w.shownAt.bottom
    requires IsOn(row, screen, Top(w.start, w.skip), AtLeastOne(height))
    requires var there := PlaceOn(row, screen, Top(w.start, w.skip), AtLeastOne(height));
      Placed(again, Top(w.start, w.skip), 0, Follow, CursorRows(there, there), total, screenRows, margin, height)
    ensures again.start == w.start && again.skip == w.skip
  {
    hide Followed, LaidOut, Before, IsOn;
    var tall := AtLeastOne(height);
    var start := Top(w.start, w.skip);
    NeverPastTheEnd(top, wheel, aim, cursor, total, screenRows, margin, tall);
    ShownKeepMargins(w, start, cursor.first.row, screen, total, screenRows, margin, tall);
    HeldToItself(start, total, tall);
    var kept := ClampMargin(margin, screenRows);
    FollowStays(Abs(start, tall), Abs(start, tall) + screen, screenRows - 1 - kept, kept,
                Furthest(total, screenRows, tall));
    OrderIsAbs(start, Top(again.start, again.skip), tall);
  }

  /** Following from where a view rests keeps it there exactly when the cursor's rows are between the margins or held by
      an end, or when it is too tall to be and its first row is already as near the top margin as it goes. */
  lemma FollowRestsIff(start: Top, cursor: CursorRows, total: nat, screenRows: nat, margin: nat, height: nat -> nat)
    requires screenRows >= 1 && total > 0 && Positive(height) && CursorIn(cursor, total, height)
    requires start.row < total && Normal(start, height) && Abs(start, height) <= Furthest(total, screenRows, height)
    ensures
      var t, kept := Abs(start, height), ClampMargin(margin, screenRows);
      var low, furthest := screenRows - 1 - kept, Furthest(total, screenRows, height);
      var f, l := Abs(cursor.first, height), Abs(cursor.last, height);
      PlacedAbs(start, 0, Follow, cursor, total, screenRows, margin, height) == t <==>
        if l - f <= low - kept then KeepsMargins(t, f, l, low, kept, furthest)
        else t == Min(Max(0, f - kept), furthest)
  {
    hide Before, HeldTo, Abs, PlacedAbs;
    HeldToItself(start, total, height);
    LeastMove(start, 0, cursor, total, screenRows, margin, height, Abs(start, height));
  }

  /** A row of three screen rows whose first is scrolled past, in a pane of five with no margin: it is on the pane's top
      screen row, and going to it scrolls back to its first. */
  lemma WrappedTopScrolls(height: nat -> nat)
    requires forall row :: height(row) == if row == 0 then 3 else 1
    ensures
      var start, row := Top(0, 1), CursorRows(Top(0, 0), Top(0, 2));
      && IsOn(0, 0, start, height) && CursorIn(row, 20, height)
      && Abs(start, height) == 1 <= Furthest(20, 5, height)
      && PlacedAbs(start, 0, Follow, row, 20, 5, 0, height) == 0
  {
    assert Before(1, height) == 3;
    BeforeRises(20, height);
  }

  lemma {:induction false} BeforeRises(n: nat, height: nat -> nat)
    requires Positive(height)
    ensures Before(n, height) >= n
  {
    if n > 0 {
      BeforeRises(n - 1, height);
    }
  }

  // ------------------------------------------------------------------------
  // The cursor in the window
  // ------------------------------------------------------------------------

  /** A placement that follows a row or puts it somewhere paints it, and its first screen row inside the pane. */
  lemma PlacedPaintsCursor(
    w: RowWindow, top: Top, wheel: int, aim: ViewAim, cursor: CursorRows, total: nat, screenRows: nat, margin: nat,
    height: nat -> nat)
    requires screenRows >= 1 && total > 0 && !aim.Held? && CursorIn(cursor, total, AtLeastOne(height))
    requires cursor.first.skip == 0
    requires Placed(w, top, wheel, aim, cursor, total, screenRows, margin, height)
    ensures w.start <= cursor.first.row < w.start + w.count && w.cursor < screenRows
  {
    hide Before, IsOn, PlacedAbs;
    var tall, start, c := AtLeastOne(height), Top(w.start, w.skip), cursor.first.row;
    CursorShown(top, wheel, aim, cursor, total, screenRows, margin, tall);
    if c < w.start {
      NormalBefore(cursor.first, start, tall);
    } else if w.start + w.count <= c {
      BeforeGrows(w.start + w.count, c, tall);
    }
  }

  // ------------------------------------------------------------------------
  // Where a placement puts the cursor
  // ------------------------------------------------------------------------

  /** Whether `kept` rows are as many as a margin asks for, held to under half of so many. */
  predicate HeldMargin(kept: int, margin: nat, rows: nat) {
    && 0 <= kept <= margin && 2 * kept < rows
    && (kept == margin || 2 * (kept + 1) >= rows)
  }

  /** Whether so many of some rows, the one in the middle left out, halve them: as many after it, or one fewer. */
  predicate Halves(above: int, rows: int) {
    0 <= above - (rows - 1 - above) <= 1
  }

  /** Whether `picker` is two fifths of the rows, to the nearest row. */
  predicate TwoFifths(picker: nat, rows: nat) {
    -5 < 10 * picker - 4 * rows < 5
  }

  /** Whether a cursor's screen row with `above` others above it, in a pane of `rows`, is where a placement asks: the
      margin from the top, the margin from the bottom, halfway down, or halfway down what a picker over the pane's last
      two fifths leaves free. */
  ghost predicate LandsAt(place: Place, above: int, margin: nat, rows: nat) {
    match place
    case TopOfPane => HeldMargin(above, margin, rows)
    case Bottom => HeldMargin(rows - 1 - above, margin, rows)
    case Middle => Halves(above, rows)
    case CenterInUncovered => forall picker: nat | TwoFifths(picker, rows) :: Halves(above, Max(rows - picker, 1))
  }

  lemma RowsAboveLand(place: Place, rows: nat, margin: nat)
    requires rows >= 1
    ensures LandsAt(place, RowsAbove(place, rows, margin), margin, rows)
    ensures exists picker: nat :: TwoFifths(picker, rows)
  {
    NearestIsPicker(PickerRows(rows), rows);
    match place
    case TopOfPane => MarginHeld(margin, rows);
    case Bottom => MarginHeld(margin, rows);
    case Middle => HalfHalves(rows);
    case CenterInUncovered =>
      forall picker: nat | TwoFifths(picker, rows)
        ensures Halves(RowsAbove(place, rows, margin), Max(rows - picker, 1)) {
        NearestIsPicker(picker, rows);
        HalfHalves(Max(rows - picker, 1));
      }
  }

  lemma NearestIsPicker(picker: nat, rows: nat)
    ensures TwoFifths(picker, rows) <==> picker == PickerRows(rows)
  {
    var p, left := PickerRows(rows), (4 * rows + 5) % 10;
    assert 4 * rows + 5 == 10 * p + left;
    hide PickerRows;
    assert left == 2 * (2 * rows + 2 - 5 * p) + 1;
    if picker < p {
      assert 10 * picker + 10 <= 10 * p;
    } else if picker > p {
      assert 10 * picker >= 10 * p + 10;
    }
  }

  lemma MarginHeld(margin: nat, rows: nat)
    requires rows >= 1
    ensures HeldMargin(ClampMargin(margin, rows), margin, rows)
  {
  }

  lemma HalfHalves(rows: nat)
    requires rows >= 1
    ensures Halves(rows / 2, rows)
  {
  }

  /** No other number of rows is where the placement asks. */
  lemma LandsAtOne(place: Place, a: int, b: int, margin: nat, rows: nat)
    requires rows >= 1 && LandsAt(place, a, margin, rows) && LandsAt(place, b, margin, rows)
    ensures a == b
  {
    RowsAboveLand(place, rows, margin);
  }

  /** A placement puts the cursor's first screen row where it asks, wherever the view was, when the cursor is a paneful
      from either end of the rows; nearer, it comes as close as the ends let it. */
  lemma PlacedLands(
    w: RowWindow, top: Top, wheel: int, place: Place, cursor: CursorRows, total: nat, screenRows: nat, margin: nat,
    height: nat -> nat)
    requires screenRows >= 1 && total > 0
    requires Placed(w, top, wheel, PlaceAt(place), cursor, total, screenRows, margin, height)
    ensures
      var tall := AtLeastOne(height);
      var start, c := Abs(Top(w.start, w.skip), tall), Abs(cursor.first, tall);
      && (screenRows <= c && c + screenRows <= Before(total, tall) ==> LandsAt(place, c - start, margin, screenRows))
      && exists above :: LandsAt(place, above, margin, screenRows)
           && start == Min(Max(0, c - above), Furthest(total, screenRows, tall))
  {
    hide Before, LaidOut, Abs, RowsAbove, LandsAt;
    RowsAboveLand(place, screenRows, margin);
  }
}

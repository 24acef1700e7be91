/** Laying a view out: held to its rows, turned by the wheel, brought to its cursor, and filled. */
module PlaceView {
  import opened Text
  import opened ScreenRows

  datatype Shown = Shown(bottom: nat, middle: nat, top: nat)

  /** The rows to paint: how many, from where, on which screen row the cursor's row is, and which rows show where. */
  datatype RowWindow = RowWindow(count: nat, cursor: nat, shown: Shown, shownAt: Shown, skip: nat, start: nat)

  const EMPTY_WINDOW := RowWindow(0, 0, Shown(0, 0, 0), Shown(0, 0, 0), 0, 0)

  /** Where a placement puts the cursor's screen row. */
  datatype Place = Bottom | CenterInUncovered | Middle | TopOfPane

  datatype ViewAim = Follow | Held | PlaceAt(place: Place)

  /** A cursor's first and last screen rows. */
  datatype CursorRows = CursorRows(first: Top, last: Top)

  // ------------------------------------------------------------------------
  // Placements
  // ------------------------------------------------------------------------

  /** Two fifths of the pane, rounded to the nearest row, half a row up. */
  function PickerRows(screenRows: nat): nat {
    (4 * screenRows + 5) / 10
  }

  function RowsAbove(place: Place, screenRows: nat, margin: nat): (rows: nat)
    ensures rows < Max(screenRows, 1)
  {
    var tall := Max(screenRows, 1);
    var kept := ClampMargin(margin, tall);
    match place
    case Bottom => tall - 1 - kept
    case CenterInUncovered => Max(tall - PickerRows(tall), 1) / 2
    case Middle => tall / 2
    case TopOfPane => kept
  }

  // ------------------------------------------------------------------------
  // Filling the pane
  // ------------------------------------------------------------------------

  /** The screen rows the first `n` rows from `top` fill. */
  function Filled(top: Top, n: nat, height: nat -> nat): nat {
    if n == 0 then 0 else Max(0, Before(top.row + n, height) - Abs(top, height))
  }

  /** Whether `row` is the one on screen row `screen` of a view from `top`. */
  predicate IsOn(row: nat, screen: nat, top: Top, height: nat -> nat) {
    Before(row, height) <= Abs(top, height) + screen < Before(row + 1, height)
  }

  /** Rows enough to fill the pane and no more, and which of them are on its top, middle and bottom screen rows. */
  ghost predicate LaidOut(w: RowWindow, top: Top, cursor: nat, total: nat, screenRows: nat, margin: nat,
    height: nat -> nat) {
    var filled := Filled(top, w.count, height);
    var last := Max(Min(filled, screenRows) - 1, 0);
    var kept := ClampMargin(margin, screenRows);
    && w.start == top.row && w.skip == top.skip
    && w.start + w.count <= total
    && (forall n | 0 <= n < w.count :: Filled(top, n, height) < screenRows)
    && (w.start + w.count == total || filled >= screenRows)
    && w.cursor == (if w.start <= cursor < w.start + w.count then Filled(top, cursor - w.start, height) else 0)
    && w.shownAt.top == (if w.start == 0 && w.skip == 0 then 0 else Min(kept, last))
    && w.shownAt.middle == last / 2
    && w.shownAt.bottom == Max(0, last - (if w.start + w.count == total && filled <= screenRows then 0 else kept))
    && (screenRows >= 1 ==>
          && w.count >= 1 && w.shownAt.top <= last && w.shownAt.bottom <= last < filled
          && IsOn(w.shown.top, w.shownAt.top, top, height)
          && IsOn(w.shown.middle, w.shownAt.middle, top, height)
          && IsOn(w.shown.bottom, w.shownAt.bottom, top, height))
  }

  method LayOutRows(top: Top, cursor: nat, total: nat, screenRows: nat, margin: nat, height: nat -> nat)
    returns (window: RowWindow)
    requires Positive(height) && Normal(top, height) && top.row < total
    ensures window.start == top.row && window.skip == top.skip
    ensures LaidOut(window, top, cursor, total, screenRows, margin, height)
  {
    hide Filled, IsOn, Before, Abs;
    var ends, filled, cursorAt := FillRows(top, cursor, total, screenRows, height);
    var count := |ends|;
    var last: nat := Max(Min(filled, screenRows) - 1, 0);
    var kept := ClampMargin(margin, screenRows);
    var topMargin := if top.row == 0 && top.skip == 0 then 0 else Min(kept, last);
    var bottomMargin := if top.row + count == total && filled <= screenRows then 0 else kept;
    var shownAt := Shown(Max(0, last - bottomMargin), last / 2, topMargin);
    var shownBottom := RowOn(ends, shownAt.bottom, top, height);
    var shownMiddle := RowOn(ends, shownAt.middle, top, height);
    var shownTop := RowOn(ends, shownAt.top, top, height);
    FilledPositive(top, count, height);
    NothingFilled(top, height);
    return RowWindow(count, cursorAt, Shown(shownBottom, shownMiddle, shownTop), shownAt, top.skip, top.row);
  }

  lemma NothingFilled(top: Top, height: nat -> nat)
    ensures Filled(top, 0, height) == 0
  {
  }

  /** The rows from `top` on until the pane is full, each with the screen row past its last, and where the cursor's
      row starts. */
  method FillRows(top: Top, cursor: nat, total: nat, screenRows: nat, height: nat -> nat)
    returns (ends: seq<(nat, nat)>, filled: nat, cursorAt: nat)
    requires Normal(top, height) && top.row < total
    ensures EndsAre(ends, top, height) && top.row + |ends| <= total && filled == Filled(top, |ends|, height)
    ensures forall n | 0 <= n < |ends| :: Filled(top, n, height) < screenRows
    ensures top.row + |ends| == total || filled >= screenRows
    ensures cursorAt == if top.row <= cursor < top.row + |ends| then Filled(top, cursor - top.row, height) else 0
  {
    hide Filled;
    ends, filled, cursorAt := [], 0, 0;
    NothingFilled(top, height);
    var row := top.row;
    while row < total && filled < screenRows
      invariant top.row <= row <= total && |ends| == row - top.row
      invariant filled == Filled(top, row - top.row, height)
      invariant forall n | 0 <= n < row - top.row :: Filled(top, n, height) < screenRows
      invariant EndsAre(ends, top, height)
      invariant cursorAt == if top.row <= cursor < row then Filled(top, cursor - top.row, height) else 0
    {
      if row == cursor {
        cursorAt := filled;
      }
      FilledNext(top, row - top.row, height);
      filled := filled + (height(row) - (if row == top.row then top.skip else 0));
      ends := ends + [(row, filled)];
      row := row + 1;
    }
  }

  /** Each row painted, with the screen row just past its last. */
  ghost predicate EndsAre(ends: seq<(nat, nat)>, top: Top, height: nat -> nat) {
    forall i | 0 <= i < |ends| :: ends[i] == (top.row + i, Filled(top, i + 1, height))
  }

  lemma FilledNext(top: Top, n: nat, height: nat -> nat)
    requires Normal(top, height)
    ensures Filled(top, n + 1, height)
      == Filled(top, n, height) + height(top.row + n) - if n == 0 then top.skip else 0
  {
    if n > 0 {
      BeforeGrows(top.row + 1, top.row + n, height);
    }
  }

  lemma FilledPositive(top: Top, n: nat, height: nat -> nat)
    requires Normal(top, height)
    ensures n > 0 ==> Filled(top, n, height) > 0
  {
    if n > 0 {
      BeforeGrows(top.row + 1, top.row + n, height);
    }
  }

  /** The first row that ends past a screen row: the one on it. */
  method RowOn(ends: seq<(nat, nat)>, screen: nat, top: Top, height: nat -> nat) returns (row: nat)
    requires Normal(top, height) && EndsAre(ends, top, height)
    ensures ends != [] && screen < ends[|ends| - 1].1 ==> IsOn(row, screen, top, height)
  {
    for i := 0 to |ends|
      invariant forall j | 0 <= j < i :: ends[j].1 <= screen
    {
      if ends[i].1 > screen {
        FilledPositive(top, i, height);
        FilledPositive(top, i + 1, height);
        assert i > 0 ==> ends[i - 1].1 == Filled(top, i, height);
        return ends[i].0;
      }
    }
    return top.row;
  }

  // ------------------------------------------------------------------------
  // The whole placement
  // ------------------------------------------------------------------------

  /** A view's start held to the rows there are. */
  function HeldTo(top: Top, total: nat, height: nat -> nat): Top
    requires total > 0 && Positive(height)
  {
    var start := Min(top.row, total - 1);
    Top(start, Min(top.skip, height(start) - 1))
  }

  /** Where a view ends up, counted in screen rows from the very first. */
  function PlacedAbs(
    top: Top, wheel: int, aim: ViewAim, cursor: CursorRows, total: nat, screenRows: nat, margin: nat,
    height: nat -> nat): nat
    requires total > 0 && Positive(height)
  {
    var furthest := Max(0, Before(total, height) - screenRows);
    var start := Abs(HeldTo(top, total, height), height);
    var turned := if wheel < 0 then Min(start - wheel, furthest) else Max(0, start - wheel);
    var rows := Max(screenRows, 1);
    var kept := ClampMargin(margin, rows);
    var aimed := match aim
      case Held => turned
      case PlaceAt(place) => Max(0, Abs(cursor.first, height) - RowsAbove(place, screenRows, margin))
      case Follow =>
        Followed(Followed(turned, Abs(cursor.last, height), rows - 1 - kept, kept), Abs(cursor.first, height),
          rows - 1 - kept, kept);
    Min(aimed, furthest)
  }

  /** A cursor on rows there are, its first screen row no later than its last. */
  ghost predicate CursorIn(cursor: CursorRows, total: nat, height: nat -> nat) {
    && cursor.first.row < total && Normal(cursor.first, height)
    && cursor.last.row < total && Normal(cursor.last, height)
    && Abs(cursor.first, height) <= Abs(cursor.last, height)
  }

  ghost predicate Placed(
    w: RowWindow, top: Top, wheel: int, aim: ViewAim, cursor: CursorRows, total: nat, screenRows: nat, margin: nat,
    height: nat -> nat)
  {
    if total == 0 then w == EMPTY_WINDOW
    else
      var tall := AtLeastOne(height);
      var start := Top(w.start, w.skip);
      && start.row < total && Normal(start, tall)
      && Abs(start, tall) == PlacedAbs(top, wheel, aim, cursor, total, screenRows, margin, tall)
      && LaidOut(w, start, cursor.first.row, total, screenRows, margin, tall)
  }

  method PlaceView(
    top: Top, wheel: int, aim: ViewAim, cursor: CursorRows, total: nat, screenRows: nat, margin: nat,
    height: nat -> nat)
    returns (window: RowWindow)
    requires screenRows >= 1
    requires total > 0 && !aim.Held? ==> CursorIn(cursor, total, AtLeastOne(height))
    ensures Placed(window, top, wheel, aim, cursor, total, screenRows, margin, height)
  {
    hide Before, LaidOut, ClampMargin, Followed, RowsAbove, Abs;
    if total == 0 {
      return EMPTY_WINDOW;
    }
    var tall := AtLeastOne(height);
    var view := HeldTo(top, total, tall);
    view := WheelScroll(view, wheel, total, screenRows, tall);
    match aim {
      case Follow =>
        view := FollowScreenRow(view, cursor.last, screenRows, margin, tall);
        view := FollowScreenRow(view, cursor.first, screenRows, margin, tall);
      case Held =>
      case PlaceAt(place) =>
        view := ScreenRowsAbove(cursor.first, RowsAbove(place, screenRows, margin), tall);
    }
    var last := LastTop(total, screenRows, tall);
    EarlierIsMin(view, last, total, tall);
    view := Earlier(view, last);
    window := LayOutRows(view, cursor.first.row, total, screenRows, margin, tall);
  }
}

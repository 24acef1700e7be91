/** The window an editor's rows are read through, kept between paints. */
module Viewport {
  import opened Text
  import opened ScreenRows
  import opened PlaceView
  import ViewLaws

  /** The height of a row as the last paint laid it out: one for a row it did not. */
  function LaidHeight(laidOut: seq<nat>, from: nat): nat -> nat {
    (row: nat) => if from <= row < from + |laidOut| then laidOut[row - from] else 1
  }

  /** Whether a view is within its row and not past the last screenful, by the heights last laid out. */
  ghost predicate AtRest(start: Top, total: nat, rows: nat, laidOut: seq<nat>, from: nat) {
    var tall := AtLeastOne(LaidHeight(laidOut, from));
    && rows >= 1 && start.row < total && Normal(start, tall)
    && Abs(start, tall) <= ViewLaws.Furthest(total, rows, tall)
  }

  class Viewport {
    var held: bool
    var laidOut: seq<nat>
    var laidOutFrom: nat
    var margin: nat
    var place: Option<Place>
    var rows: nat
    var scroll: nat
    var shown: Shown
    var skip: nat
    var wheel: int

    constructor ()
      ensures !held && laidOut == [] && laidOutFrom == 0 && margin == 0 && place == None && rows == 0
      ensures scroll == 0 && skip == 0 && wheel == 0 && shown == Shown(0, 0, 0)
    {
      held, laidOut, laidOutFrom, margin, place, rows := false, [], 0, 0, None, 0;
      scroll, shown, skip, wheel := 0, Shown(0, 0, 0), 0, 0;
    }

    method SetRows(to: nat)
      modifies this`rows
      ensures rows == to
    {
      rows := to;
    }

    /** Start the window at the top of a row. */
    method SetScroll(to: nat)
      modifies this`scroll, this`skip
      ensures scroll == to && skip == 0
    {
      scroll, skip := to, 0;
    }

    /** Turn the wheel; the view then stays where it is put. */
    method Wheel(lines: int)
      modifies this`wheel, this`held
      ensures wheel == old(wheel) + lines && held
    {
      wheel, held := wheel + lines, true;
    }

    method SetMargin(to: nat)
      modifies this`margin
      ensures margin == to
    {
      margin := to;
    }

    method Request(to: Place)
      modifies this`place
      ensures place == Some(to)
    {
      place := Some(to);
    }

    method Release()
      modifies this`held
      ensures !held
    {
      held := false;
    }

    /** Move the window, stopping at the last start that fills the pane. Over rows that never wrap the view is then at
        rest, moved by `delta` screen rows or to the end it met. */
    method ScrollBy(delta: int, total: nat)
      modifies this`scroll, this`skip, this`held
      ensures scroll == Min(Max(0, old(scroll) + delta), Max(0, total - rows)) && skip == 0 && held
      ensures (forall h | h in laidOut :: h <= 1) ==>
        var tall := AtLeastOne(LaidHeight(laidOut, laidOutFrom));
        && (total > 0 && rows >= 1 ==> Rests(total))
        && Abs(Top(scroll, skip), tall)
          == Min(Max(0, Abs(Top(old(scroll), 0), tall) + delta), ViewLaws.Furthest(total, rows, tall))
    {
      hide AtLeastOne, LaidHeight, Abs, Before, AtRest;
      var to: nat := Min(Max(0, scroll + delta), Max(0, total - rows));
      if forall h | h in laidOut :: h <= 1 {
        FlatRows(scroll, to, total, rows, laidOut, laidOutFrom);
      }
      SetScroll(to);
      held := true;
    }

    function Position(total: nat): Option<ScrollPosition>
      reads this
    {
      ScrollPositionRows(Top(scroll, skip), total, rows, LaidHeight(laidOut, laidOutFrom))
    }

    ghost predicate Rests(total: nat)
      reads this
    {
      AtRest(Top(scroll, skip), total, rows, laidOut, laidOutFrom)
    }

    /** Start the window `at` screen rows down, as the scrollbar counts them. Dropped where the scrollbar says the view
        is, a view at rest stays where it is. */
    method ScrollTo(at: nat, total: nat)
      modifies this`scroll, this`skip, this`held
      ensures held
      ensures Abs(Top(scroll, skip), AtLeastOne(LaidHeight(laidOut, laidOutFrom)))
        == Min(at, ViewLaws.Furthest(total, rows, AtLeastOne(LaidHeight(laidOut, laidOutFrom))))
      ensures old(Rests(total)) && old(Position(total)).Some? && at == old(Position(total)).value.offset
        ==> scroll == old(scroll) && skip == old(skip)
      ensures total > 0 && rows >= 1 ==> Rests(total)
    {
      var height := LaidHeight(laidOut, laidOutFrom);
      var top := TopAtScreenRow(at, total, rows, height);
      ghost var before := Top(scroll, skip);
      var shown := Position(total);
      if AtRest(before, total, rows, laidOut, laidOutFrom) && shown.Some? && at == shown.value.offset {
        DropIsInverse(before, top, total, rows, height);
      }
      scroll, skip, held := top.row, top.skip, true;
    }

    /** Lay the rows out and start the window there: where a placement asked, or where the wheel turned it to, or moved
        the least that shows the cursor's row. Afterwards the view is at rest by the heights it measured, though only
        the rows it laid out are among them. */
    method Place(cursor: nat, total: nat, visible: nat, height: nat -> nat) returns (window: RowWindow,
      showsCursor: bool)
      requires visible >= 1
      requires total > 0 && (place.Some? || !held) ==> cursor < total
      modifies this
      ensures Placed(window, Top(old(scroll), old(skip)), old(wheel), AimOf(old(place), old(held)),
                     WholeRow(cursor, total, height), total, visible, old(margin), height)
      ensures scroll == window.start && skip == window.skip && shown == window.shown
      ensures place == None && wheel == 0 && held == old(held) && margin == old(margin) && rows == old(rows)
      ensures laidOutFrom == window.start && laidOut == seq(window.count, (i: nat) => height(window.start + i))
      ensures showsCursor <==>
        window.start <= cursor < window.start + window.count && window.cursor < visible
      ensures total > 0 && (old(place).Some? || !old(held)) ==> showsCursor
      ensures total > 0 && rows == visible ==> Rests(total)
    {
      hide Placed, AtRest;
      var aim := AimOf(place, held);
      place := None;
      var cursorRows := WholeRow(cursor, total, height);
      WholeRowIn(cursor, total, height);
      var turned := wheel;
      wheel := 0;
      window := PlaceView.PlaceView(Top(scroll, skip), turned, aim, cursorRows, total, visible, margin, height);
      PlacedRests(window, Top(scroll, skip), turned, aim, cursorRows, total, visible, margin, height);
      if total > 0 && !aim.Held? {
        ViewLaws.PlacedPaintsCursor(window, Top(scroll, skip), turned, aim, cursorRows, total, visible, margin, height);
      }
      scroll, skip := window.start, window.skip;
      laidOutFrom := window.start;
      laidOut := seq(window.count, (i: nat) => height(window.start + i));
      shown := window.shown;
      showsCursor := window.start <= cursor < window.start + window.count && window.cursor < visible;
    }
  }

  // ------------------------------------------------------------------------
  // Paint after paint
  // ------------------------------------------------------------------------

  /** The wheel's view stays where it is put, wherever the cursor goes, until a key is pressed; the next paint then
      shows the cursor. */
  method WheelHolds(
    view: Viewport, lines: int, cursor: nat, moved: nat, total: nat, visible: nat, margin: nat, height: nat -> nat)
    returns (turned: RowWindow, later: RowWindow, back: RowWindow, shows: bool)
    requires visible >= 1 && view.place == None && moved < total
    modifies view
    ensures var tall := AtLeastOne(height);
      && Abs(Top(turned.start, turned.skip), tall)
        == Min(ViewLaws.TurnedAbs(Top(old(view.scroll), old(view.skip)), old(view.wheel) + lines, total, visible, tall),
               ViewLaws.Furthest(total, visible, tall))
      && later.start == turned.start && later.skip == turned.skip
    ensures shows
    ensures !view.held && view.Rests(total)
  {
    hide Before, LaidOut, AtRest;
    var tall := AtLeastOne(height);
    view.SetRows(visible);
    view.SetMargin(margin);
    view.Wheel(lines);
    var at := Top(view.scroll, view.skip);
    ghost var wheel := view.wheel;
    var shown;
    turned, shown := view.Place(cursor, total, visible, height);
    later, shown := view.Place(moved, total, visible, height);
    HeldAgain(turned, later, at, wheel, cursor, moved, total, visible, margin, height);
    view.Release();
    back, shows := view.Place(moved, total, visible, height);
  }

  /** A held view painted again is painted from the same place, whatever row its cursor is on. */
  lemma HeldAgain(
    once: RowWindow, twice: RowWindow, top: Top, wheel: int, cursor: nat, moved: nat, total: nat, visible: nat,
    margin: nat, height: nat -> nat)
    requires visible >= 1 && total > 0
    requires Placed(once, top, wheel, Held, WholeRow(cursor, total, height), total, visible, margin, height)
    requires Placed(twice, Top(once.start, once.skip), 0, Held, WholeRow(moved, total, height), total, visible, margin,
                    height)
    ensures twice.start == once.start && twice.skip == once.skip
    ensures var tall := AtLeastOne(height);
      Abs(Top(once.start, once.skip), tall)
        == Min(ViewLaws.TurnedAbs(top, wheel, total, visible, tall), ViewLaws.Furthest(total, visible, tall))
  {
    hide Before, LaidOut, Abs;
    var tall, start := AtLeastOne(height), Top(once.start, once.skip);
    ViewLaws.HeldToItself(start, total, tall);
    OrderIsAbs(start, Top(twice.start, twice.skip), tall);
  }

  /** A row asked for somewhere in the pane is put there at the next paint, wherever the wheel was turned and whether or
      not the view is held, as near as the ends of the rows let it. */
  method RequestPlaces(view: Viewport, to: Place, cursor: nat, total: nat, visible: nat, height: nat -> nat)
    returns (window: RowWindow, shows: bool)
    requires visible >= 1 && cursor < total
    modifies view
    ensures
      var tall := AtLeastOne(height);
      var start, c := Abs(Top(window.start, window.skip), tall), Before(cursor, tall);
      && (visible <= c && c + visible <= Before(total, tall) ==>
            ViewLaws.LandsAt(to, c - start, old(view.margin), visible))
      && exists above :: ViewLaws.LandsAt(to, above, old(view.margin), visible)
           && start == Min(Max(0, c - above), ViewLaws.Furthest(total, visible, tall))
    ensures shows && view.place == None
  {
    hide Before, LaidOut, Placed, ViewLaws.LandsAt;
    ghost var at, wheel, margin := Top(view.scroll, view.skip), view.wheel, view.margin;
    view.Request(to);
    window, shows := view.Place(cursor, total, visible, height);
    WholeRowAbs(cursor, total, height);
    ViewLaws.PlacedLands(window, at, wheel, to, WholeRow(cursor, total, height), total, visible, margin, height);
  }

  /** Going to a row scrolls nothing exactly when all of it is between the margins or held by an end, or when it is too
      tall to be and its first screen row is already as near the top margin as it goes. */
  lemma GoingToRowStaysIff(
    w: RowWindow, again: RowWindow, top: Top, wheel: int, aim: ViewAim, cursor: CursorRows, row: nat, total: nat,
    screenRows: nat, margin: nat, height: nat -> nat)
    requires screenRows >= 1 && row < total
    requires Placed(w, top, wheel, aim, cursor, total, screenRows, margin, height)
    requires Placed(again, Top(w.start, w.skip), 0, Follow, WholeRow(row, total, height), total, screenRows, margin,
                    height)
    ensures
      var tall := AtLeastOne(height);
      var t, kept := Abs(Top(w.start, w.skip), tall), ClampMargin(margin, screenRows);
      var low, furthest := screenRows - 1 - kept, ViewLaws.Furthest(total, screenRows, tall);
      var f, l := Before(row, tall), Before(row + 1, tall) - 1;
      again.start == w.start && again.skip == w.skip <==>
        if l - f <= low - kept then ViewLaws.KeepsMargins(t, f, l, low, kept, furthest)
        else t == Min(Max(0, f - kept), furthest)
  {
    hide LaidOut, PlacedAbs, ViewLaws.Furthest, ViewLaws.KeepsMargins;
    var tall, start := AtLeastOne(height), Top(w.start, w.skip);
    WholeRowIn(row, total, height);
    WholeRowAbs(row, total, height);
    hide Before, Abs;
    ViewLaws.NeverPastTheEnd(top, wheel, aim, cursor, total, screenRows, margin, tall);
    ViewLaws.FollowRestsIff(start, WholeRow(row, total, height), total, screenRows, margin, tall);
    OrderIsAbs(start, Top(again.start, again.skip), tall);
  }

  lemma WholeRowAbs(row: nat, total: nat, height: nat -> nat)
    requires row < total
    ensures var whole, tall := WholeRow(row, total, height), AtLeastOne(height);
      Abs(whole.first, tall) == Before(row, tall) && Abs(whole.last, tall) == Before(row + 1, tall) - 1
  {
  }

  /** Over rows that never wrap a row's number is the screen rows before it. */
  lemma FlatRows(was: nat, to: nat, total: nat, rows: nat, laidOut: seq<nat>, from: nat)
    requires (forall h | h in laidOut :: h <= 1) && to <= Max(0, total - rows)
    ensures var tall := AtLeastOne(LaidHeight(laidOut, from));
      && (total > 0 && rows >= 1 ==> AtRest(Top(to, 0), total, rows, laidOut, from))
      && Abs(Top(was, 0), tall) == was && Abs(Top(to, 0), tall) == to
      && ViewLaws.Furthest(total, rows, tall) == Max(0, total - rows)
  {
    hide Before;
    var tall := AtLeastOne(LaidHeight(laidOut, from));
    AllOnes(laidOut, from);
    OneEach(total, tall);
    OneEach(was, tall);
    OneEach(to, tall);
  }

  lemma AllOnes(laidOut: seq<nat>, from: nat)
    requires forall h | h in laidOut :: h <= 1
    ensures forall row :: AtLeastOne(LaidHeight(laidOut, from))(row) == 1
  {
    forall row: nat ensures LaidHeight(laidOut, from)(row) <= 1 {
      if from <= row < from + |laidOut| {
        assert laidOut[row - from] in laidOut;
      }
    }
  }

  lemma {:induction false} OneEach(n: nat, height: nat -> nat)
    requires forall row :: height(row) == 1
    ensures Before(n, height) == n
  {
    if n > 0 {
      OneEach(n - 1, height);
    }
  }

  function AimOf(place: Option<Place>, held: bool): ViewAim {
    match place
    case Some(to) => PlaceAt(to)
    case None => if held then Held else Follow
  }

  /** A list's cursor is its whole row. */
  function WholeRow(cursor: nat, total: nat, height: nat -> nat): CursorRows {
    if total == 0 then CursorRows(Top(0, 0), Top(0, 0))
    else CursorRows(Top(cursor, 0), Top(cursor, AtLeastOne(height)(cursor) - 1))
  }

  lemma WholeRowIn(cursor: nat, total: nat, height: nat -> nat)
    ensures cursor < total ==> CursorIn(WholeRow(cursor, total, height), total, AtLeastOne(height))
  {
  }

  /** The heights of the rows laid out are all that tells how far they reach. */
  lemma {:induction false} MeasuredAlike(from: nat, n: nat, a: nat -> nat, b: nat -> nat)
    requires forall row | from <= row < from + n :: a(row) == b(row)
    ensures Before(from + n, a) - Before(from, a) == Before(from + n, b) - Before(from, b)
  {
    if n > 0 {
      MeasuredAlike(from, n - 1, a, b);
    }
  }

  /** What a window reaches, as its rows were measured. */
  lemma ReachMeasured(
    w: RowWindow, start: Top, cursor: nat, total: nat, visible: nat, margin: nat, tall: nat -> nat,
    measured: nat -> nat)
    requires visible >= 1 && Positive(tall) && Positive(measured) && start.row < total && Normal(start, tall)
    requires LaidOut(w, start, cursor, total, visible, margin, tall)
    requires Abs(start, tall) <= ViewLaws.Furthest(total, visible, tall)
    requires forall row | w.start <= row < w.start + w.count :: tall(row) == measured(row)
    ensures Abs(start, measured) <= ViewLaws.Furthest(total, visible, measured)
  {
    hide Before, IsOn, Filled;
    ViewLaws.FilledOfAll(start, w.count, total, tall);
    MeasuredAlike(w.start, w.count, tall, measured);
    BeforeGrows(w.start + w.count, total, measured);
    ViewLaws.StartOfRows(start, tall);
    ViewLaws.StartOfRows(start, measured);
  }

  /** A view just placed is at rest by the heights of the rows it laid out, every other row counted as one. */
  lemma PlacedRests(
    w: RowWindow, top: Top, wheel: int, aim: ViewAim, cursor: CursorRows, total: nat, visible: nat, margin: nat,
    height: nat -> nat)
    requires visible >= 1 && Placed(w, top, wheel, aim, cursor, total, visible, margin, height)
    ensures total > 0 ==>
      AtRest(Top(w.start, w.skip), total, visible, seq(w.count, (i: nat) => height(w.start + i)), w.start)
  {
    hide Before, IsOn, LaidOut, PlacedAbs, Abs, ViewLaws.Furthest;
    if total > 0 {
      var tall, start := AtLeastOne(height), Top(w.start, w.skip);
      var laidOut := seq(w.count, (i: nat) => height(w.start + i));
      var measured := AtLeastOne(LaidHeight(laidOut, w.start));
      ViewLaws.NeverPastTheEnd(top, wheel, aim, cursor, total, visible, margin, tall);
      LaidOutSome(w, start, cursor.first.row, total, visible, margin, tall);
      ReachMeasured(w, start, cursor.first.row, total, visible, margin, tall, measured);
    }
  }

  lemma LaidOutSome(w: RowWindow, start: Top, cursor: nat, total: nat, visible: nat, margin: nat, height: nat -> nat)
    requires visible >= 1 && LaidOut(w, start, cursor, total, visible, margin, height)
    ensures w.start == start.row && w.count >= 1
  {
    hide Before, IsOn, Filled, Abs;
  }
}

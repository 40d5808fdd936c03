/**
 Keyboard navigation over a paged table: the key switch of `_fnKey` and the paging loops of
 `_fnSetFocus`.

 Cells are numbered row by row; the keys that walk through the table are proved to go to the
 next and to the previous number, and the page shown afterwards to be one that holds the cell.
 */
module KeyTable {
  import opened Wrappers

  datatype Key = Return | Esc | Left | ShiftTab | Up | Home | PageUp | Tab | Right | Down | End | PageDown | Other

  const PAGE_STEP := 10

  // ---------- the grid ----------

  predicate InGrid(x: int, y: int, width: int, height: int)
  {
    0 <= x < width && 0 <= y < height
  }

  /** The number of a cell, counting row by row. */
  function Number(x: int, y: int, width: int): int
  {
    y * width + x
  }

  lemma NumberBounds(x: int, y: int, width: int, height: int)
    requires InGrid(x, y, width, height)
    ensures 0 <= Number(x, y, width) < width * height
    ensures Number(x, y, width) == 0 <==> x == 0 && y == 0
    ensures Number(x, y, width) == width * height - 1 <==> x == width - 1 && y == height - 1
  {
    RowStart(y, width);
    RowStart(height - 1 - y, width);
    assert width * height == y * width + (height - 1 - y) * width + width by {
      assert height == y + (height - 1 - y) + 1;
    }
  }

  lemma RowStart(y: int, width: int)
    requires y >= 0 && width > 0
    ensures y * width >= 0 && (y * width == 0 <==> y == 0) && (y > 0 ==> y * width >= width)
  {
  }

  /** Different cells have different numbers. */
  lemma NumbersDiffer(x: int, y: int, x': int, y': int, width: int, height: int)
    requires InGrid(x, y, width, height) && InGrid(x', y', width, height)
    requires Number(x, y, width) == Number(x', y', width)
    ensures x == x' && y == y'
  {
    if y < y' {
      Further(y, y', width);
    } else if y' < y {
      Further(y', y, width);
    }
  }

  lemma Further(y: int, y': int, width: int)
    requires y < y' && width > 0
    ensures y' * width >= y * width + width
  {
    RowStart(y' - y, width);
    assert (y' - y) * width == y' * width - y * width;
  }

  lemma NextRow(y: int, width: int)
    ensures (y + 1) * width == y * width + width
  {
  }

  // ---------- paging ----------

  /** `_fnCalculateEnd` of DataTables: only a length of -1 shows everything. */
  function DisplayEnd(start: int, length: int, total: int): int
  {
    if start + length > total || length == -1 then total else start + length
  }

  predicate Shows(start: int, length: int, total: int, row: int)
  {
    0 <= start <= row < DisplayEnd(start, length, total)
  }

  /** One pass of the loop that pages forwards. */
  function PassForwards(start: int, length: int, total: int): int
  {
    if length >= 0 then if start + length < total then start + length else start else 0
  }

  /** One pass of the loop that pages backwards. */
  function PassBackwards(start: int, length: int): int
  {
    if length < 0 || start - length < 0 then 0 else start - length
  }

  /** Where the two loops stand, one after the other. */
  datatype Paging = Forwards(start: int) | Backwards(start: int) | Ended(start: int)

  /** The test of a loop, and its pass or the end of it. */
  function Turn(p: Paging, length: int, total: int, row: int): Paging
  {
    match p
    case Forwards(start) =>
      if row >= DisplayEnd(start, length, total) then Forwards(PassForwards(start, length, total)) else Backwards(start)
    case Backwards(start) => if row < start then Backwards(PassBackwards(start, length)) else Ended(start)
    case Ended(_) => p
  }

  function After(p: Paging, length: int, total: int, row: int, n: nat): Paging
    decreases n
  {
    if n == 0 then p else After(Turn(p, length, total, row), length, total, row, n - 1)
  }

  ghost predicate LoopsEnd(start: int, length: int, total: int, row: int)
  {
    exists n: nat :: After(Forwards(start), length, total, row, n).Ended?
  }

  ghost predicate LoopsShow(start: int, length: int, total: int, row: int)
  {
    exists n: nat ::
      var p := After(Forwards(start), length, total, row, n);
      p.Ended? && Shows(p.start, length, total, row)
  }

  /** The page lengths DataTables gives a meaning to. */
  predicate IsPageLength(length: int)
  {
    length > 0 || length == -1
  }

  /** From whatever page, the loops end with the row shown exactly for such a length. */
  lemma LoopsShowIff(start: int, length: int, total: int, row: int)
    requires start >= 0 && 0 <= row < total
    ensures LoopsShow(start, length, total, row) <==> IsPageLength(length)
  {
    if IsPageLength(length) {
      var n := TurnsLeft(Forwards(start), length, total, row);
    } else {
      forall n: nat ensures var p := After(Forwards(start), length, total, row, n);
                            !(p.Ended? && Shows(p.start, length, total, row)) {
        StaysBad(Forwards(start), length, total, row, n);
      }
    }
  }

  /** They end at all exactly for such a length, or for one below -1 if the row lies before the end. */
  lemma LoopsEndIff(start: int, length: int, total: int, row: int)
    requires start >= 0 && 0 <= row < total
    ensures LoopsEnd(start, length, total, row) <==>
      IsPageLength(length) || (length < -1 && row < DisplayEnd(start, length, total))
  {
    if IsPageLength(length) {
      var n := TurnsLeft(Forwards(start), length, total, row);
    } else if length < -1 && row < DisplayEnd(start, length, total) {
      assert After(Forwards(start), length, total, row, 3) == After(Backwards(start), length, total, row, 2)
        == After(Backwards(0), length, total, row, 1) == After(Ended(0), length, total, row, 0);
    } else {
      var stuck :=
        if length == 0 then if row >= DisplayEnd(start, 0, total) then Forwards(start) else Backwards(start)
        else Forwards(0);
      forall n: nat ensures !After(Forwards(start), length, total, row, n).Ended? {
        Stuck(stuck, length, total, row, if n > 0 then n - 1 else 0);
      }
    }
  }

  lemma {:induction false} TurnsLeft(p: Paging, length: int, total: int, row: int) returns (n: nat)
    requires IsPageLength(length) && 0 <= row < total && p.start >= 0
    requires p.Backwards? ==> row < DisplayEnd(p.start, length, total)
    requires p.Ended? ==> Shows(p.start, length, total, row)
    ensures After(p, length, total, row, n).Ended? && Shows(After(p, length, total, row, n).start, length, total, row)
    decreases if p.Forwards? then 2 else if p.Backwards? then 1 else 0,
      if p.Forwards? then if p.start < total then total - p.start else 0 else p.start
  {
    if p.Ended? {
      n := 0;
    } else {
      var m := TurnsLeft(Turn(p, length, total, row), length, total, row);
      n := m + 1;
    }
  }

  lemma {:induction false} OneMoreTurn(p: Paging, length: int, total: int, row: int, n: nat)
    ensures After(p, length, total, row, n + 1) == Turn(After(p, length, total, row, n), length, total, row)
    decreases n
  {
    if n > 0 {
      OneMoreTurn(Turn(p, length, total, row), length, total, row, n - 1);
    }
  }

  lemma {:induction false} Stuck(p: Paging, length: int, total: int, row: int, n: nat)
    requires Turn(p, length, total, row) == p
    ensures After(p, length, total, row, n) == p
  {
    if n > 0 {
      Stuck(p, length, total, row, n - 1);
    }
  }

  /** For other lengths no page shows the row at all. */
  lemma {:induction false} StaysBad(p: Paging, length: int, total: int, row: int, n: nat)
    requires !IsPageLength(length) && 0 <= row < total && p.start >= 0
    ensures var q := After(p, length, total, row, n); q.start >= 0 && !Shows(q.start, length, total, row)
    decreases n
  {
    if n > 0 {
      StaysBad(Turn(p, length, total, row), length, total, row, n - 1);
    }
  }

  /** A length of 0 keeps the first loop going for a row on or behind the page, the second for one before it. */
  lemma LengthZeroNeverEnds()
    ensures !LoopsEnd(0, 0, 10, 3) && !LoopsEnd(5, 0, 10, 3)
  {
    LoopsEndIff(0, 0, 10, 3);
    LoopsEndIff(5, 0, 10, 3);
  }

  /** A length of -2 keeps the first loop going on the first page; from a later one the loops end off the row. */
  lemma LengthBelowMinusOneIsWrong()
    ensures !LoopsEnd(0, -2, 10, 3)
    ensures LoopsEnd(8, -2, 10, 3) && !LoopsShow(8, -2, 10, 3)
  {
    LoopsEndIff(0, -2, 10, 3);
    LoopsEndIff(8, -2, 10, 3);
    LoopsShowIff(8, -2, 10, 3);
  }

  /** A page that starts at a multiple of the length and holds the row starts at the row's multiple. */
  lemma PageOf(row: int, p: int, length: int)
    requires length > 0 && row >= 0 && p * length <= row < p * length + length
    ensures p * length == row - row % length
  {
    var q := row / length;
    assert row == q * length + row % length;
    if q < p {
      Further(q, p, length);
    } else if p < q {
      Further(p, q, length);
    }
  }

  class Navigator {
    /** `_nOldFocus`, by its place, and the place remembered. */
    var oldFocus: Option<(int, int)>
    var oldX: int
    var oldY: int
    /** `_iDisplayStart` and `_iDisplayLength` */
    var displayStart: int
    var displayLength: int

    constructor (displayLength: int)
      ensures oldFocus == None && displayStart == 0 && this.displayLength == displayLength
    {
      oldFocus, oldX, oldY, displayStart := None, 0, 0, 0;
      this.displayLength := displayLength;
    }

    predicate Shown(row: int, total: int)
      reads this`displayStart, this`displayLength
    {
      Shows(displayStart, displayLength, total, row)
    }

    /**
     The paging loops, which end where the turns do: the row is shown, without moving if it was.
     Pages that start at a multiple of the length still do.
     */
    method ShowRow(row: int, total: int)
      requires 0 <= row < total && displayStart >= 0 && IsPageLength(displayLength)
      modifies this`displayStart
      ensures Shown(row, total)
      ensures exists n: nat ::
        After(Forwards(old(displayStart)), displayLength, total, row, n) == Ended(displayStart)
      ensures displayLength > 0 && old(displayStart) % displayLength == 0 ==>
        displayStart == row - row % displayLength
      ensures old(Shown(row, total)) ==> displayStart == old(displayStart)
    {
      ghost var pages := if displayLength > 0 then displayStart / displayLength else 0;
      ghost var aligned := displayLength > 0 && displayStart % displayLength == 0;
      ghost var from := displayStart;
      ghost var n := 0;
      pages, n := PageForwards(row, total, aligned, pages);
      pages, n := PageBackwards(row, total, aligned, pages, from, n);
      if aligned {
        PageOf(row, pages, displayLength);
      }
    }

    method PageForwards(row: int, total: int, ghost aligned: bool, ghost was: int)
      returns (ghost pages: int, ghost n: nat)
      requires 0 <= row < total && displayStart >= 0 && IsPageLength(displayLength)
      requires aligned ==> displayLength > 0 && displayStart == was * displayLength
      modifies this`displayStart
      ensures displayStart >= 0 && row < DisplayEnd(displayStart, displayLength, total)
      ensures After(Forwards(old(displayStart)), displayLength, total, row, n) == Backwards(displayStart)
      ensures displayStart == old(displayStart) || displayStart <= row
      ensures old(row < DisplayEnd(displayStart, displayLength, total)) ==> displayStart == old(displayStart)
      ensures aligned ==> displayStart == pages * displayLength
    {
      pages, n := was, 0;
      var end := DisplayEnd(displayStart, displayLength, total);
      while row >= end
        invariant displayStart >= 0 && end == DisplayEnd(displayStart, displayLength, total)
        invariant After(Forwards(old(displayStart)), displayLength, total, row, n) == Forwards(displayStart)
        invariant displayStart == old(displayStart) || displayStart <= row
        invariant old(row < DisplayEnd(displayStart, displayLength, total)) ==> displayStart == old(displayStart)
        invariant aligned ==> displayStart == pages * displayLength
        decreases total - displayStart
      {
        OneMoreTurn(Forwards(old(displayStart)), displayLength, total, row, n);
        displayStart := PassForwards(displayStart, displayLength, total);
        pages, n := pages + 1, n + 1;
        end := DisplayEnd(displayStart, displayLength, total);
      }
      OneMoreTurn(Forwards(old(displayStart)), displayLength, total, row, n);
      n := n + 1;
    }

    /** `from` is the page the first loop started on, which took `turns` turns. */
    method PageBackwards(row: int, total: int, ghost aligned: bool, ghost was: int, ghost from: int, ghost turns: nat)
      returns (ghost pages: int, ghost n: nat)
      requires 0 <= row < DisplayEnd(displayStart, displayLength, total) && displayStart >= 0 && row < total
      requires IsPageLength(displayLength) && (aligned ==> displayLength > 0 && displayStart == was * displayLength)
      requires After(Forwards(from), displayLength, total, row, turns) == Backwards(displayStart)
      modifies this`displayStart
      ensures Shown(row, total)
      ensures After(Forwards(from), displayLength, total, row, n) == Ended(displayStart)
      ensures old(displayStart) <= row ==> displayStart == old(displayStart)
      ensures aligned ==> displayStart == pages * displayLength && row < displayStart + displayLength
    {
      pages, n := was, turns;
      while row < displayStart
        invariant displayStart >= 0 && row < DisplayEnd(displayStart, displayLength, total)
        invariant After(Forwards(from), displayLength, total, row, n) == Backwards(displayStart)
        invariant old(displayStart) <= row ==> displayStart == old(displayStart)
        invariant aligned ==> displayStart == pages * displayLength
      {
        OneMoreTurn(Forwards(from), displayLength, total, row, n);
        if aligned {
          OnePageBack(pages, displayLength, displayStart);
        }
        displayStart := PassBackwards(displayStart, displayLength);
        pages, n := pages - 1, n + 1;
      }
      OneMoreTurn(Forwards(from), displayLength, total, row, n);
      n := n + 1;
    }

    /** `_fnSetFocus`, as far as it concerns the position and the page. */
    method SetFocus(x: int, y: int, total: int)
      requires 0 <= y < total && displayStart >= 0 && IsPageLength(displayLength)
      modifies this`oldFocus, this`oldX, this`oldY, this`displayStart
      ensures oldFocus == Some((x, y))
      ensures old(oldFocus) != Some((x, y)) ==> oldX == x && oldY == y && Shown(y, total)
      ensures old(oldFocus) == Some((x, y)) ==>
        oldX == old(oldX) && oldY == old(oldY) && displayStart == old(displayStart)
    {
      if oldFocus == Some((x, y)) {
        return;
      }
      ShowRow(y, total);
      oldFocus := Some((x, y));
      oldX, oldY := x, y;
    }

    /**
     `_fnKey` for a focused cell at (x, y) of the grid.  In the order of the numbers the walking
     keys go one on and one back, up and down a row; the others go to the bounds of the column, or
     ten rows, cut off at them.  Where there is no such cell the focus stays, and tab and
     shift-tab leave the table if it stands in a form.
     */
    method OnKey(key: Key, x: int, y: int, width: int, height: int, form: bool, escHandled: bool)
      returns (left: bool)
      requires InGrid(x, y, width, height) && oldFocus == Some((x, y)) && displayStart >= 0 && IsPageLength(displayLength)
      modifies this`oldFocus, this`oldX, this`oldY, this`displayStart
      ensures InGrid(oldX, oldY, width, height)
      ensures left <==>
        (key == Esc && !escHandled) || (form && key == Tab && Number(x, y, width) + 1 == width * height) ||
        (form && key == ShiftTab && Number(x, y, width) == 0)
      ensures oldFocus == if left then None else Some((oldX, oldY))
      ensures !left && (oldX != x || oldY != y) ==> Shown(oldY, height)
      ensures key == Right || key == Tab ==>
        Number(oldX, oldY, width) == if Number(x, y, width) + 1 < width * height then Number(x, y, width) + 1
                                     else Number(x, y, width)
      ensures key == Left || key == ShiftTab ==>
        Number(oldX, oldY, width) == if Number(x, y, width) > 0 then Number(x, y, width) - 1 else Number(x, y, width)
      ensures key == Up || key == Home || key == PageUp ==>
        oldX == x && oldY == Clamp(y - (match key case Up => 1 case PageUp => PAGE_STEP case _ => height), height)
      ensures key == Down || key == End || key == PageDown ==>
        oldX == x && oldY == Clamp(y + (match key case Down => 1 case PageDown => PAGE_STEP case _ => height), height)
      ensures key == Return || key == Esc || key == Other ==> oldX == x && oldY == y
    {
      oldX, oldY := x, y;
      left := false;
      NumberBounds(x, y, width, height);
      NextRow(y, width);
      NextRow(y - 1, width);
      var x', y' := x, y;
      match key {
        case Return => return;
        case Esc =>
          if !escHandled {
            oldFocus := None;
            return true;
          }
        case Left =>
          if x > 0 {
            x' := x - 1;
          } else if y > 0 {
            x', y' := width - 1, y - 1;
          } else {
            return;
          }
        case ShiftTab =>
          if x > 0 {
            x' := x - 1;
          } else if y > 0 {
            x', y' := width - 1, y - 1;
          } else {
            if form {
              oldFocus := None;
              left := true;
            }
            return;
          }
        case Up =>
          if y > 0 {
            y' := y - 1;
          } else {
            return;
          }
        case Home => y' := 0;
        case PageUp =>
          y' := y - 10;
          if y' < 0 {
            y' := 0;
          }
        case Tab =>
          if x < width - 1 {
            x' := x + 1;
          } else if y < height - 1 {
            x', y' := 0, y + 1;
          } else {
            if form {
              oldFocus := None;
              left := true;
            }
            return;
          }
        case Right =>
          if x < width - 1 {
            x' := x + 1;
          } else if y < height - 1 {
            x', y' := 0, y + 1;
          } else {
            return;
          }
        case Down =>
          if y < height - 1 {
            y' := y + 1;
          } else {
            return;
          }
        case End => y' := height - 1;
        case PageDown =>
          y' := y + 10;
          if y' > height - 1 {
            y' := height - 1;
          }
        case Other => return;
      }
      SetFocus(x', y', height);
    }
  }

  function Clamp(y: int, height: int): int
  {
    if y < 0 then 0 else if y > height - 1 then height - 1 else y
  }

  lemma OnePageBack(p: int, length: int, start: int)
    requires length > 0 && start > 0 && start == p * length
    ensures PassBackwards(start, length) == (p - 1) * length
  {
    if p > 0 {
      RowStart(p, length);
    } else {
      RowStart(-p, length);
    }
    assert (p - 1) * length == p * length - length;
    assert (-p) * length == -(p * length);
  }
}

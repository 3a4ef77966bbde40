/** The Gantt chart's date window and row layout: which part of an assignment
    is drawn as a bar, where each row sits, which rows are on screen, and the
    flags of each day cell (ui/tabs/calendar.py, update_gantt_chart). */
module Window {

  import opened Records

  /** Days shown at once: six weeks. */
  const DateRange: int := 42
  /** Height of one row block and the vertical gap between rows, in chart units. */
  const BlockHeight: int := 22
  const RowGap: int := 3
  /** Rows on screen at once. */
  const VisibleRows: nat := 10

  /** The South African public holidays of 2025, as day ordinals
      (1 Jan, 21 Mar, 18 Apr, 21 Apr, 28 Apr, 1 May, 16 Jun, 11 Aug,
      24 Sep, 16 Dec, 25 Dec, 26 Dec). */
  const Holidays: seq<int> := [739252, 739331, 739359, 739362, 739369, 739372,
                               739418, 739474, 739518, 739601, 739610, 739611]

  /** Last day of the window that starts on winStart. */
  function WindowEnd(winStart: int): (e: int)
    ensures e - winStart + 1 == DateRange
  {
    winStart + DateRange - 1
  }

  predicate InWindow(winStart: int, d: int) {
    winStart <= d <= WindowEnd(winStart)
  }

  /** A clipped bar: its first day and how many days it covers. */
  datatype Span = Span(first: int, width: int)

  predicate Covers(sp: Span, d: int) {
    sp.first <= d < sp.first + sp.width
  }

  function Max(a: int, b: int): int { if a < b then b else a }
  function Min(a: int, b: int): int { if a < b then a else b }

  /** The part of the assignment [start, end] that falls inside the window, or
      None when they share no day. */
  function Clip(start: int, end: int, winStart: int): (r: Option<Span>)
    ensures r.Some? <==> Max(start, winStart) <= Min(end, WindowEnd(winStart))
    ensures r.Some? ==> 1 <= r.value.width <= DateRange
  {
    var s := Max(start, winStart);
    var e := Min(end, WindowEnd(winStart));
    if s <= e then Some(Span(s, e - s + 1)) else None
  }

  /** A bar covers exactly the days of the assignment that lie in the window,
      and an assignment gets no bar exactly when it has no such day. */
  lemma ClipCovers(start: int, end: int, winStart: int, d: int)
    ensures Clip(start, end, winStart).Some? ==>
              (Covers(Clip(start, end, winStart).value, d) <==> start <= d <= end && InWindow(winStart, d))
    ensures Clip(start, end, winStart).None? ==> !(start <= d <= end && InWindow(winStart, d))
  {
  }

  /** Clipping against two consecutive windows gives bars that never share a day,
      and together they cover exactly the assignment's days in the twelve weeks. */
  lemma ConsecutiveWindows(start: int, end: int, winStart: int, d: int)
    ensures var a, b := Clip(start, end, winStart), Clip(start, end, winStart + DateRange);
            && !(a.Some? && b.Some? && Covers(a.value, d) && Covers(b.value, d))
            && ((a.Some? && Covers(a.value, d)) || (b.Some? && Covers(b.value, d))
                <==> start <= d <= end && winStart <= d <= winStart + 2 * DateRange - 1)
  {
  }

  /** Rows drawn: one per project, but never fewer than a screenful. */
  function NumRows(numProjects: nat, visibleRows: nat): (n: nat)
    ensures n >= numProjects && n >= visibleRows
    ensures n == numProjects || n == visibleRows
  {
    if numProjects < visibleRows then visibleRows else numProjects
  }

  /** The bottom edge of every row; row 0 is at the top. */
  function YPositions(numRows: nat): (y: seq<int>)
    ensures |y| == numRows
  {
    seq(numRows, i requires 0 <= i < numRows => (numRows - 1 - i) * (BlockHeight + RowGap))
  }

  /** The last row sits at 0 and each row is one block and one gap above the
      next, so every row lies between 0 and the top row's edge. */
  lemma YPositionsSpacing(numRows: nat)
    ensures numRows > 0 ==> YPositions(numRows)[numRows - 1] == 0
    ensures forall i :: 0 <= i < numRows - 1 ==> YPositions(numRows)[i] == YPositions(numRows)[i + 1] + BlockHeight + RowGap
    ensures forall i :: 0 <= i < numRows ==> 0 <= YPositions(numRows)[i] <= (numRows - 1) * (BlockHeight + RowGap)
  {
  }

  /** Python's s[lo:hi] for non-negative bounds: both are clamped to the length,
      and a slice whose end is before its start is empty. */
  function PySlice<T>(s: seq<T>, lo: nat, hi: nat): (r: seq<T>)
    ensures lo <= hi <= |s| ==> r == s[lo..hi]
    ensures lo <= |s| <= hi ==> r == s[lo..]
    ensures |r| <= hi - lo || hi < lo
    ensures hi <= lo || lo >= |s| ==> r == []
  {
    var a := Min(lo, |s|);
    var b := Min(hi, |s|);
    if a <= b then s[a..b] else []
  }

  /** The rows on screen: from the scroll offset, at most visibleRows of them. */
  function FirstRow(scrollOffset: nat): nat { scrollOffset }

  function EndRow(scrollOffset: nat, visibleRows: nat, numRows: nat): (e: nat)
    ensures e <= numRows && e <= scrollOffset + visibleRows
    ensures e == numRows || e == scrollOffset + visibleRows
  {
    Min(scrollOffset + visibleRows, numRows)
  }

  /** The bottom edges of the rows on screen. */
  lemma VisibleSlice(numProjects: nat, scrollOffset: nat)
    ensures var n := NumRows(numProjects, VisibleRows);
            var v := PySlice(YPositions(n), FirstRow(scrollOffset), EndRow(scrollOffset, VisibleRows, n));
            && |v| <= VisibleRows
            && (|v| > 0 <==> scrollOffset < n)
            && forall k :: 0 <= k < |v| ==> v[k] == YPositions(n)[scrollOffset + k]
  {
  }

  /** Python's date.weekday(): Monday is 0, Sunday is 6. Day 1 is a Monday. */
  function Weekday(d: int): (w: int)
    ensures 0 <= w < 7
  {
    (d + 6) % 7
  }

  predicate IsWeekend(d: int) { Weekday(d) >= 5 }

  predicate IsHoliday(d: int) { d in Holidays }

  /** One day cell of one row: its day, its bottom edge and the three shadings
      drawn over it. */
  datatype Cell = Cell(day: int, y: int, alternating: bool, weekend: bool, holiday: bool)

  /** The cell of window column i in the row whose bottom edge is y. */
  function DayCell(winStart: int, i: int, y: int): (c: Cell)
    ensures c.day == winStart + i && c.y == y
    ensures c.alternating <==> i % 2 == 0
    ensures c.weekend <==> Weekday(winStart + i) == 5 || Weekday(winStart + i) == 6
    ensures c.holiday <==> winStart + i in Holidays
  {
    var d := winStart + i;
    Cell(d, y, i % 2 == 0, IsWeekend(d), IsHoliday(d))
  }

  /** The first n cells of the row with bottom edge y. */
  function RowCells(winStart: int, y: int, n: nat): (r: seq<Cell>)
    ensures |r| == n
  {
    seq(n, i requires 0 <= i < n => DayCell(winStart, i, y))
  }

  /** The cells of rows lo up to hi, row after row, each a full window. */
  function GridCells(winStart: int, yPos: seq<int>, lo: nat, hi: nat): (r: seq<Cell>)
    requires lo <= hi <= |yPos|
    ensures |r| == (hi - lo) * DateRange
    decreases hi
  {
    if hi == lo then [] else GridCells(winStart, yPos, lo, hi - 1) + RowCells(winStart, yPos[hi - 1], DateRange)
  }

  lemma {:induction false} RowCellsAt(winStart: int, y: int, n: nat, i: nat)
    requires i < n
    ensures RowCells(winStart, y, n)[i] == DayCell(winStart, i, y)
  {
    if i < n - 1 {
      RowCellsAt(winStart, y, n - 1, i);
    }
  }

  /** Cell k of the grid is column k % 42 of row lo + k / 42. */
  lemma {:induction false} GridCellsAt(winStart: int, yPos: seq<int>, lo: nat, hi: nat, r: nat, i: nat)
    requires lo <= hi <= |yPos| && lo + r < hi && i < DateRange
    ensures GridCells(winStart, yPos, lo, hi)[r * DateRange + i] == DayCell(winStart, i, yPos[lo + r])
    decreases hi
  {
    var g := GridCells(winStart, yPos, lo, hi - 1);
    if lo + r < hi - 1 {
      GridCellsAt(winStart, yPos, lo, hi - 1, r, i);
      assert r * DateRange + i < |g|;
    } else {
      assert |g| == r * DateRange;
      RowCellsAt(winStart, yPos[hi - 1], DateRange, i);
    }
  }

  /** Weekend days among the n days starting at d. */
  function WeekendCount(d: int, n: nat): nat
  {
    if n == 0 then 0 else WeekendCount(d, n - 1) + (if IsWeekend(d + n - 1) then 1 else 0)
  }

  lemma {:induction false} WeekendCountSplit(d: int, m: nat, n: nat)
    ensures WeekendCount(d, m + n) == WeekendCount(d, m) + WeekendCount(d + m, n)
  {
    if n > 0 {
      WeekendCountSplit(d, m, n - 1);
    }
  }

  lemma ModUnique(x: int, q: int, r: int)
    requires 0 <= r < 7 && x == 7 * q + r
    ensures x % 7 == r
  {
  }

  /** k days after d the weekday has advanced by k, modulo the week. */
  lemma WeekdayAfter(d: int, k: nat)
    requires k < 7
    ensures Weekday(d + k) == (Weekday(d) + k) % 7
  {
    var q, w := (d + 6) / 7, (d + 6) % 7;
    assert d + k + 6 == 7 * q + (w + k);
    if w + k < 7 {
      ModUnique(d + k + 6, q, w + k);
    } else {
      ModUnique(d + k + 6, q + 1, w + k - 7);
    }
  }

  /** Any seven consecutive days hold one Saturday and one Sunday. */
  lemma {:induction false} WeekendsPerWeek(d: int)
    ensures WeekendCount(d, 7) == 2
  {
    WeekdayAfter(d, 1); WeekdayAfter(d, 2); WeekdayAfter(d, 3);
    WeekdayAfter(d, 4); WeekdayAfter(d, 5); WeekdayAfter(d, 6);
    var w := Weekday(d);
    var c := WeekendCount(d, 7);
    assert WeekendCount(d, 1) == (if IsWeekend(d) then 1 else 0);
    assert WeekendCount(d, 2) == WeekendCount(d, 1) + (if IsWeekend(d + 1) then 1 else 0);
    assert WeekendCount(d, 3) == WeekendCount(d, 2) + (if IsWeekend(d + 2) then 1 else 0);
    assert WeekendCount(d, 4) == WeekendCount(d, 3) + (if IsWeekend(d + 3) then 1 else 0);
    assert WeekendCount(d, 5) == WeekendCount(d, 4) + (if IsWeekend(d + 4) then 1 else 0);
    assert WeekendCount(d, 6) == WeekendCount(d, 5) + (if IsWeekend(d + 5) then 1 else 0);
    assert c == WeekendCount(d, 6) + (if IsWeekend(d + 6) then 1 else 0);
    assert c == (if w >= 5 then 1 else 0) + (if (w + 1) % 7 >= 5 then 1 else 0)
              + (if (w + 2) % 7 >= 5 then 1 else 0) + (if (w + 3) % 7 >= 5 then 1 else 0)
              + (if (w + 4) % 7 >= 5 then 1 else 0) + (if (w + 5) % 7 >= 5 then 1 else 0)
              + (if (w + 6) % 7 >= 5 then 1 else 0);
    assert w == 0 || w == 1 || w == 2 || w == 3 || w == 4 || w == 5 || w == 6;
  }

  /** Every window, wherever it starts, shows exactly twelve weekend days. */
  lemma {:induction false} WindowWeekends(winStart: int)
    ensures WeekendCount(winStart, DateRange) == 12
  {
    var k := 0;
    while k < 6
      invariant 0 <= k <= 6
      invariant WeekendCount(winStart, 7 * k) == 2 * k
    {
      WeekendCountSplit(winStart, 7 * k, 7);
      WeekendsPerWeek(winStart + 7 * k);
      k := k + 1;
    }
  }
}

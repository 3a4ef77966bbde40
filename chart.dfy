/** What one redraw of the Gantt chart produces (ui/tabs/calendar.py,
    update_gantt_chart): the bars of the visible projects, clipped to the date
    window, and the colour registry after the pass; and the day cells of the
    visible rows. */
module Chart {

  import opened Records
  import opened Window
  import opened Colors

  /** A drawn bar: its first day, its width in days, the bottom edge of its row,
      its colour, the assignment row it shows and the project's row index. */
  datatype Bar = Bar(first: int, width: int, y: int, color: string, assignment: Assignment, projectIdx: nat)

  /** The projects the chart lists: those whose status is "Active", in table order. */
  function ActiveProjects(ps: seq<Project>): (r: seq<Project>)
    ensures |r| <= |ps|
  {
    if ps == [] then []
    else (if ps[0].status == Active then [ps[0]] else []) + ActiveProjects(ps[1..])
  }

  /** A project is listed exactly when it is in the table and active. */
  lemma {:induction false} ActiveProjectsMembers(ps: seq<Project>, p: Project)
    ensures p in ActiveProjects(ps) <==> p in ps && p.status == Active
  {
    if ps != [] {
      ActiveProjectsMembers(ps[1..], p);
      assert p in ps <==> p == ps[0] || p in ps[1..];
    }
  }

  /** The bar of one assignment of a row: none when it shares no day with the window. */
  function BarOf(a: Assignment, winStart: int, y: int, color: string, idx: nat): (r: seq<Bar>)
    ensures |r| == 1 <==> Clip(a.start, a.end, winStart).Some?
    ensures |r| <= 1
    ensures |r| == 1 ==>
      && r[0].assignment == a && r[0].y == y && r[0].color == color && r[0].projectIdx == idx
      && Clip(a.start, a.end, winStart) == Some(Span(r[0].first, r[0].width))
  {
    match Clip(a.start, a.end, winStart)
    case Some(sp) => [Bar(sp.first, sp.width, y, color, a, idx)]
    case None => []
  }

  /** The bars of one project row, in the order of the project's assignments. */
  function ProjectBars(pas: seq<Assignment>, winStart: int, y: int, color: string, idx: nat): (r: seq<Bar>)
    ensures |r| <= |pas|
  {
    if pas == [] then []
    else BarOf(pas[0], winStart, y, color, idx) + ProjectBars(pas[1..], winStart, y, color, idx)
  }

  /** A row has one bar per assignment that shares a day with the window, and
      each bar is that assignment's clipped span in the row's place and colour. */
  lemma {:induction false} ProjectBarsMembers(pas: seq<Assignment>, winStart: int, y: int, color: string, idx: nat)
    ensures forall b :: b in ProjectBars(pas, winStart, y, color, idx) ==>
              && b.assignment in pas && b.y == y && b.color == color && b.projectIdx == idx
              && Clip(b.assignment.start, b.assignment.end, winStart) == Some(Span(b.first, b.width))
    ensures forall a :: a in pas ==>
              (Clip(a.start, a.end, winStart).Some? <==>
               exists b :: b in ProjectBars(pas, winStart, y, color, idx) && b.assignment == a)
  {
    if pas != [] {
      ProjectBarsMembers(pas[1..], winStart, y, color, idx);
      var here := BarOf(pas[0], winStart, y, color, idx);
      var rest := ProjectBars(pas[1..], winStart, y, color, idx);
      assert ProjectBars(pas, winStart, y, color, idx) == here + rest;
      assert forall a :: a in pas <==> a == pas[0] || a in pas[1..];
      forall a | a in pas && Clip(a.start, a.end, winStart).Some?
        ensures exists b: Bar :: b in here + rest && b.assignment == a
      {
        if a == pas[0] {
          assert here[0] in here + rest;
        } else {
          var b :| b in rest && b.assignment == a;
          assert b in here + rest;
        }
      }
    }
  }

  /** One more assignment at the end of a row adds its bar, if any, at the end. */
  lemma {:induction false} ProjectBarsSnoc(pas: seq<Assignment>, a: Assignment, winStart: int, y: int, color: string, idx: nat)
    ensures ProjectBars(pas + [a], winStart, y, color, idx)
         == ProjectBars(pas, winStart, y, color, idx) + BarOf(a, winStart, y, color, idx)
  {
    if pas == [] {
      assert [a][1..] == [];
    } else {
      assert (pas + [a])[0] == pas[0] && (pas + [a])[1..] == pas[1..] + [a];
      ProjectBarsSnoc(pas[1..], a, winStart, y, color, idx);
    }
  }

  /** The registry after the bar loop has visited project rows lo up to hi,
      starting from registry st. */
  function DrawColors(projects: seq<Project>, lo: nat, hi: nat, st: ColorState): (r: ColorState)
    requires hi <= |projects|
    ensures st.index <= r.index
    ensures lo <= hi ==> r.index <= st.index + (hi - lo)
    decreases hi
  {
    if hi <= lo then st else Register(DrawColors(projects, lo, hi - 1, st), projects[hi - 1].id)
  }

  /** The bars the loop draws for project rows lo up to hi: each row's bars in
      the colour its project has once the row has been visited. */
  function DrawBars(projects: seq<Project>, assignments: seq<Assignment>, lo: nat, hi: nat,
                    winStart: int, yPos: seq<int>, st: ColorState): (r: seq<Bar>)
    requires hi <= |projects| && hi <= |yPos|
    decreases hi
  {
    if hi <= lo then []
    else
      var pid := projects[hi - 1].id;
      var c := DrawColors(projects, lo, hi, st);
      DrawBars(projects, assignments, lo, hi - 1, winStart, yPos, st)
        + ProjectBars(OfProject(assignments, pid), winStart, yPos[hi - 1], c.colors[pid], hi - 1)
  }

  /** A pass draws at most one bar per assignment for each visited row. */
  lemma {:induction false} DrawBarsCount(projects: seq<Project>, assignments: seq<Assignment>, lo: nat, hi: nat,
                                         winStart: int, yPos: seq<int>, st: ColorState)
    requires lo <= hi <= |projects| && hi <= |yPos|
    ensures |DrawBars(projects, assignments, lo, hi, winStart, yPos, st)| <= (hi - lo) * |assignments|
    decreases hi
  {
    if hi > lo {
      DrawBarsCount(projects, assignments, lo, hi - 1, winStart, yPos, st);
      assert (hi - lo) * |assignments| == (hi - 1 - lo) * |assignments| + |assignments|;
    }
  }

  /** Visiting one more row registers its project and appends its bars in the
      colour the project then has. */
  lemma DrawStep(projects: seq<Project>, assignments: seq<Assignment>, lo: nat, p: nat,
                 winStart: int, yPos: seq<int>, st: ColorState)
    requires lo <= p < |projects| && p < |yPos|
    ensures DrawColors(projects, lo, p + 1, st) == Register(DrawColors(projects, lo, p, st), projects[p].id)
    ensures DrawBars(projects, assignments, lo, p + 1, winStart, yPos, st)
         == DrawBars(projects, assignments, lo, p, winStart, yPos, st)
            + ProjectBars(OfProject(assignments, projects[p].id), winStart, yPos[p],
                          DrawColors(projects, lo, p + 1, st).colors[projects[p].id], p)
  {
  }

  /** The registry after a pass depends only on the ids of the visited rows. */
  lemma {:induction false} DrawColorsSameIds(p1: seq<Project>, p2: seq<Project>, lo: nat, hi: nat, st: ColorState)
    requires hi <= |p1| && hi <= |p2|
    requires forall k :: lo <= k < hi ==> p1[k].id == p2[k].id
    ensures DrawColors(p1, lo, hi, st) == DrawColors(p2, lo, hi, st)
    decreases hi
  {
    if hi > lo {
      DrawColorsSameIds(p1, p2, lo, hi - 1, st);
    }
  }

  /** Registry ext extends registry st: it knows every project st knows, with the same colour. */
  predicate Extends(ext: ColorState, st: ColorState) {
    forall p :: p in st.colors ==> p in ext.colors && ext.colors[p] == st.colors[p]
  }

  /** Visiting more rows recolours no project. */
  lemma {:induction false} DrawColorsGrows(projects: seq<Project>, lo: nat, k: nat, hi: nat, st: ColorState)
    requires k <= hi <= |projects|
    ensures Extends(DrawColors(projects, lo, hi, st), DrawColors(projects, lo, k, st))
    decreases hi
  {
    if k < hi && lo < hi {
      DrawColorsGrows(projects, lo, k, hi - 1, st);
    }
  }

  /** Every visited row's project has a colour after the pass. */
  lemma {:induction false} DrawColorsVisited(projects: seq<Project>, lo: nat, hi: nat, st: ColorState)
    requires hi <= |projects|
    ensures forall j :: lo <= j < hi ==> projects[j].id in DrawColors(projects, lo, hi, st).colors
    decreases hi
  {
    if lo < hi {
      DrawColorsVisited(projects, lo, hi - 1, st);
    }
  }

  /** Visiting more rows recolours no project, a pass recolours none of the
      projects it started with, and every visited row's project has a colour. */
  lemma DrawColorsExtends(projects: seq<Project>, lo: nat, k: nat, hi: nat, st: ColorState)
    requires k <= hi <= |projects|
    ensures Extends(DrawColors(projects, lo, hi, st), DrawColors(projects, lo, k, st))
    ensures Extends(DrawColors(projects, lo, hi, st), st)
    ensures forall j :: lo <= j < hi ==> projects[j].id in DrawColors(projects, lo, hi, st).colors
  {
    DrawColorsGrows(projects, lo, k, hi, st);
    DrawColorsGrows(projects, lo, 0, hi, st);
    DrawColorsVisited(projects, lo, hi, st);
  }

  /** A redraw colours only the projects of the rows it visits. */
  lemma {:induction false} DrawColorsOnlyVisible(projects: seq<Project>, lo: nat, hi: nat, st: ColorState)
    requires hi <= |projects|
    ensures forall p :: p in DrawColors(projects, lo, hi, st).colors ==>
              p in st.colors || exists k :: lo <= k < hi && projects[k].id == p
    decreases hi
  {
    if hi > lo {
      DrawColorsOnlyVisible(projects, lo, hi - 1, st);
      var prev := DrawColors(projects, lo, hi - 1, st);
      forall p | p in DrawColors(projects, lo, hi, st).colors
        ensures p in st.colors || exists k :: lo <= k < hi && projects[k].id == p
      {
        if p == projects[hi - 1].id {
        } else if p !in st.colors {
          assert p in prev.colors;
          var k :| lo <= k < hi - 1 && projects[k].id == p;
          assert lo <= k < hi;
        }
      }
    }
  }

  /** The counter goes up by one for each project a redraw colours, so a
      counter that matched the number of coloured projects still does. */
  lemma {:induction false} DrawColorsCount(projects: seq<Project>, lo: nat, hi: nat, st: ColorState)
    requires hi <= |projects|
    requires |st.colors.Keys| == st.index
    ensures |DrawColors(projects, lo, hi, st).colors.Keys| == DrawColors(projects, lo, hi, st).index
    decreases hi
  {
    if hi > lo {
      var prev := DrawColors(projects, lo, hi - 1, st);
      assert |prev.colors.Keys| == prev.index by {
        DrawColorsCount(projects, lo, hi - 1, st);
      }
      RegisterCount(prev, projects[hi - 1].id);
    }
  }

  /** Every colour a redraw gives is a palette entry. */
  lemma {:induction false} DrawColorsInPalette(projects: seq<Project>, lo: nat, hi: nat, st: ColorState)
    requires hi <= |projects|
    requires forall p :: p in st.colors ==> InPalette(st.colors[p])
    ensures forall p :: p in DrawColors(projects, lo, hi, st).colors ==>
              InPalette(DrawColors(projects, lo, hi, st).colors[p])
    decreases hi
  {
    if hi > lo {
      DrawColorsInPalette(projects, lo, hi - 1, st);
      var prev := DrawColors(projects, lo, hi - 1, st);
      var pid := projects[hi - 1].id;
      var r := Register(prev, pid);
      forall p | p in r.colors
        ensures InPalette(r.colors[p])
      {
        if p in prev.colors {
          assert r.colors[p] == prev.colors[p];
          assert InPalette(prev.colors[p]);
        } else {
          var i := prev.index % |Palette|;
          assert 0 <= i < |Palette| && r.colors[p] == Palette[i];
          assert InPalette(Palette[i]);
        }
      }
    }
  }

  /** A redraw keeps a consistent registry consistent. */
  lemma DrawColorsConsistent(projects: seq<Project>, lo: nat, hi: nat, st: ColorState)
    requires hi <= |projects|
    ensures Consistent(st) ==> Consistent(DrawColors(projects, lo, hi, st))
  {
    if Consistent(st) {
      DrawColorsCount(projects, lo, hi, st);
      DrawColorsInPalette(projects, lo, hi, st);
    }
  }

  /** A pass that finds every visited project coloured leaves the registry alone. */
  lemma {:induction false} DrawColorsFixed(projects: seq<Project>, lo: nat, hi: nat, st: ColorState)
    requires hi <= |projects|
    requires forall k :: lo <= k < hi ==> projects[k].id in st.colors
    ensures DrawColors(projects, lo, hi, st) == st
    decreases hi
  {
    if hi > lo {
      DrawColorsFixed(projects, lo, hi - 1, st);
    }
  }

  /** Every bar stands in a visited project row, shows one of that project's
      assignments and is exactly its clipped span, in the colour the project
      has once the redraw is over. */
  lemma {:induction false} DrawBarsSound(projects: seq<Project>, assignments: seq<Assignment>, lo: nat, hi: nat,
                                         winStart: int, yPos: seq<int>, st: ColorState)
    requires hi <= |projects| && hi <= |yPos|
    ensures forall b :: b in DrawBars(projects, assignments, lo, hi, winStart, yPos, st) ==>
              && lo <= b.projectIdx < hi
              && b.assignment in assignments
              && b.assignment.projectId == projects[b.projectIdx].id
              && b.y == yPos[b.projectIdx]
              && Clip(b.assignment.start, b.assignment.end, winStart) == Some(Span(b.first, b.width))
              && projects[b.projectIdx].id in DrawColors(projects, lo, hi, st).colors
              && b.color == DrawColors(projects, lo, hi, st).colors[projects[b.projectIdx].id]
    decreases hi
  {
    if hi > lo {
      var c := DrawColors(projects, lo, hi, st);
      var prev := DrawBars(projects, assignments, lo, hi - 1, winStart, yPos, st);
      var pid := projects[hi - 1].id;
      var pas := OfProject(assignments, pid);
      var row := ProjectBars(pas, winStart, yPos[hi - 1], c.colors[pid], hi - 1);
      DrawBarsSound(projects, assignments, lo, hi - 1, winStart, yPos, st);
      DrawColorsExtends(projects, lo, hi - 1, hi, st);
      ProjectBarsMembers(pas, winStart, yPos[hi - 1], c.colors[pid], hi - 1);
      assert DrawBars(projects, assignments, lo, hi, winStart, yPos, st) == prev + row;
      forall b | b in row
        ensures b.assignment in assignments && b.assignment.projectId == pid
      {
        OfProjectMembers(assignments, pid, b.assignment);
      }
    }
  }

  /** Every assignment of a visited project that shares a day with the window
      gets a bar in that project's row. */
  lemma {:induction false} DrawBarsComplete(projects: seq<Project>, assignments: seq<Assignment>, lo: nat, hi: nat,
                                            winStart: int, yPos: seq<int>, st: ColorState, k: nat, a: Assignment)
    requires hi <= |projects| && hi <= |yPos|
    requires lo <= k < hi && a in assignments && a.projectId == projects[k].id
    requires Clip(a.start, a.end, winStart).Some?
    ensures exists b :: b in DrawBars(projects, assignments, lo, hi, winStart, yPos, st)
                        && b.assignment == a && b.projectIdx == k
    decreases hi
  {
    var prev := DrawBars(projects, assignments, lo, hi - 1, winStart, yPos, st);
    var pid := projects[hi - 1].id;
    var c := DrawColors(projects, lo, hi, st);
    var pb := ProjectBars(OfProject(assignments, pid), winStart, yPos[hi - 1], c.colors[pid], hi - 1);
    var d := DrawBars(projects, assignments, lo, hi, winStart, yPos, st);
    assert d == prev + pb;
    if k < hi - 1 {
      DrawBarsComplete(projects, assignments, lo, hi - 1, winStart, yPos, st, k, a);
      var b :| b in prev && b.assignment == a && b.projectIdx == k;
      assert b in d;
    } else {
      OfProjectMembers(assignments, pid, a);
      ProjectBarsMembers(OfProject(assignments, pid), winStart, yPos[hi - 1], c.colors[pid], hi - 1);
      var b :| b in pb && b.assignment == a;
      assert b in d;
    }
  }

  /** Redrawing from a registry that extends the one a redraw left behind gives
      the same bars: a project's bars keep their colour from one redraw to the next. */
  lemma {:induction false} RedrawKeepsBars(projects: seq<Project>, assignments: seq<Assignment>, lo: nat, hi: nat,
                                           winStart: int, yPos: seq<int>, st: ColorState, st2: ColorState)
    requires hi <= |projects| && hi <= |yPos|
    requires Extends(st2, DrawColors(projects, lo, hi, st))
    ensures DrawBars(projects, assignments, lo, hi, winStart, yPos, st2)
         == DrawBars(projects, assignments, lo, hi, winStart, yPos, st)
    decreases hi
  {
    if hi > lo {
      var pid := projects[hi - 1].id;
      var c1 := DrawColors(projects, lo, hi, st);
      var c2 := DrawColors(projects, lo, hi, st2);
      DrawColorsExtends(projects, lo, hi - 1, hi, st);
      RedrawKeepsBars(projects, assignments, lo, hi - 1, winStart, yPos, st, st2);
      DrawColorsExtends(projects, lo, hi, hi, st2);
      assert pid in c1.colors;
      assert c2.colors[pid] == st2.colors[pid] == c1.colors[pid];
    }
  }

  /** Redrawing from the registry a redraw left behind changes nothing. */
  lemma RedrawIsFixedPoint(projects: seq<Project>, assignments: seq<Assignment>, lo: nat, hi: nat,
                           winStart: int, yPos: seq<int>, st: ColorState)
    requires hi <= |projects| && hi <= |yPos|
    ensures var c := DrawColors(projects, lo, hi, st);
            && DrawColors(projects, lo, hi, c) == c
            && DrawBars(projects, assignments, lo, hi, winStart, yPos, c)
               == DrawBars(projects, assignments, lo, hi, winStart, yPos, st)
  {
    var c := DrawColors(projects, lo, hi, st);
    DrawColorsExtends(projects, lo, hi, hi, st);
    DrawColorsFixed(projects, lo, hi, c);
    RedrawKeepsBars(projects, assignments, lo, hi, winStart, yPos, st, c);
  }

  /** Every bar is between one and 42 days wide, lies inside the window and
      inside its assignment's dates. */
  lemma BarBounds(b: Bar, winStart: int)
    requires Clip(b.assignment.start, b.assignment.end, winStart) == Some(Span(b.first, b.width))
    ensures 1 <= b.width <= DateRange
    ensures InWindow(winStart, b.first) && InWindow(winStart, b.first + b.width - 1)
    ensures b.assignment.start <= b.first && b.first + b.width - 1 <= b.assignment.end
  {
    assert Covers(Span(b.first, b.width), b.first);
    assert Covers(Span(b.first, b.width), b.first + b.width - 1);
  }

  /** Everything one redraw leaves on the canvas and in the tab: the bottom edge
      of every row, the day cells and row backgrounds of the visible rows, the
      bars and the colour registry. */
  datatype Picture = Picture(yPos: seq<int>, bars: seq<Bar>, colors: ColorState)

  /** update_gantt_chart for the listed projects and assignments, the window
      from winStart and the first visible row scrollOffset, from registry st. */
  function Render(projects: seq<Project>, assignments: seq<Assignment>, winStart: int, scrollOffset: nat,
                  st: ColorState): (r: Picture)
    ensures |r.yPos| == NumRows(|projects|, VisibleRows)
    ensures forall k :: 0 <= k < |r.bars| ==>
              && scrollOffset <= r.bars[k].projectIdx < scrollOffset + VisibleRows
              && r.bars[k].projectIdx < |projects|
              && r.bars[k].y == r.yPos[r.bars[k].projectIdx]
  {
    var n := NumRows(|projects|, VisibleRows);
    var yPos := YPositions(n);
    var last := Min(EndRow(scrollOffset, VisibleRows, n), |projects|);
    DrawBarsSound(projects, assignments, FirstRow(scrollOffset), last, winStart, yPos, st);
    Picture(yPos, DrawBars(projects, assignments, FirstRow(scrollOffset), last, winStart, yPos, st),
            DrawColors(projects, FirstRow(scrollOffset), last, st))
  }

  /** A redraw lays out a row for every project and at least a screenful, and
      only adds to the registry, keeping it consistent. */
  lemma RenderColors(projects: seq<Project>, assignments: seq<Assignment>, winStart: int, scrollOffset: nat,
                     st: ColorState)
    ensures |Render(projects, assignments, winStart, scrollOffset, st).yPos| >= |projects|
    ensures |Render(projects, assignments, winStart, scrollOffset, st).yPos| >= VisibleRows
    ensures Extends(Render(projects, assignments, winStart, scrollOffset, st).colors, st)
    ensures Consistent(st) ==> Consistent(Render(projects, assignments, winStart, scrollOffset, st).colors)
  {
    var n := NumRows(|projects|, VisibleRows);
    var last := Min(EndRow(scrollOffset, VisibleRows, n), |projects|);
    DrawColorsExtends(projects, FirstRow(scrollOffset), last, last, st);
    DrawColorsConsistent(projects, FirstRow(scrollOffset), last, st);
  }

  /** Moving the window on six weeks and back again, redrawing each time,
      leaves the chart exactly as one redraw of the first window leaves it:
      which project gets which colour does not depend on the window. */
  lemma RenderBackAndForth(projects: seq<Project>, assignments: seq<Assignment>, winStart: int, scrollOffset: nat,
                           st: ColorState)
    ensures Render(projects, assignments, winStart, scrollOffset,
                   Render(projects, assignments, winStart + DateRange, scrollOffset, st).colors)
         == Render(projects, assignments, winStart, scrollOffset, st)
  {
    var n := NumRows(|projects|, VisibleRows);
    RedrawIsFixedPoint(projects, assignments, FirstRow(scrollOffset), Min(EndRow(scrollOffset, VisibleRows, n), |projects|),
                       winStart, YPositions(n), st);
  }

  /** Alternate-row backgrounds for rows lo up to hi: the bottom edge of each even row. */
  function RowBackgrounds(yPos: seq<int>, lo: nat, hi: nat): (r: seq<int>)
    requires lo <= hi <= |yPos|
    ensures |r| == (hi + 1) / 2 - (lo + 1) / 2
    decreases hi
  {
    if hi == lo then []
    else RowBackgrounds(yPos, lo, hi - 1) + (if (hi - 1) % 2 == 0 then [yPos[hi - 1]] else [])
  }

  /** Each background is the bottom edge of an even row among rows lo up to
      hi, and every even row has one. */
  lemma {:induction false} RowBackgroundsRows(yPos: seq<int>, lo: nat, hi: nat)
    requires lo <= hi <= |yPos|
    ensures forall y :: y in RowBackgrounds(yPos, lo, hi) ==> exists k :: lo <= k < hi && k % 2 == 0 && yPos[k] == y
    ensures forall k :: lo <= k < hi && k % 2 == 0 ==> yPos[k] in RowBackgrounds(yPos, lo, hi)
    decreases hi
  {
    if hi > lo {
      RowBackgroundsRows(yPos, lo, hi - 1);
    }
  }

  /** The day cells and row backgrounds of the visible rows lo up to hi
      (empty when lo is not below hi), built row by row and day by day. */
  method BuildGrid(winStart: int, yPos: seq<int>, lo: nat, hi: nat) returns (cells: seq<Cell>, backgrounds: seq<int>)
    requires hi <= |yPos|
    ensures cells == GridCells(winStart, yPos, Min(lo, hi), hi)
    ensures backgrounds == RowBackgrounds(yPos, Min(lo, hi), hi)
  {
    cells, backgrounds := [], [];
    var row := lo;
    while row < hi
      invariant lo <= row && (row <= hi || row == lo)
      invariant cells == GridCells(winStart, yPos, Min(lo, hi), Min(row, hi))
      invariant backgrounds == RowBackgrounds(yPos, Min(lo, hi), Min(row, hi))
    {
      var y := yPos[row];
      if row % 2 == 0 {
        backgrounds := backgrounds + [y];
      }
      var i := 0;
      while i < DateRange
        invariant 0 <= i <= DateRange
        invariant cells == GridCells(winStart, yPos, lo, row) + RowCells(winStart, y, i)
      {
        cells := cells + [DayCell(winStart, i, y)];
        i := i + 1;
      }
      row := row + 1;
    }
  }

  /** Cell number r * 42 + i of the grid is day winStart + i of visible row lo + r,
      shaded for even window columns, weekends and public holidays. */
  lemma GridCellMeaning(winStart: int, yPos: seq<int>, lo: nat, hi: nat, r: nat, i: nat)
    requires lo <= hi <= |yPos| && lo + r < hi && i < DateRange
    ensures var c := GridCells(winStart, yPos, lo, hi)[r * DateRange + i];
            && c.day == winStart + i && c.y == yPos[lo + r]
            && (c.alternating <==> i % 2 == 0)
            && (c.weekend <==> Weekday(c.day) >= 5)
            && (c.holiday <==> c.day in Holidays)
  {
    GridCellsAt(winStart, yPos, lo, hi, r, i);
  }
}

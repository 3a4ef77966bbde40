/** The calendar tab (ui/tabs/calendar.py, class CalendarTab): the date window
    and scroll position it keeps, the chart it redraws, and the project
    create, edit and delete actions it runs against the store. */
module Calendar {

  import opened Records
  import opened Window
  import opened Colors
  import opened Validation
  import opened Store
  import opened Chart

  /** The artisans table after every listed artisan has joined team tid. */
  function WithTeamAll(arts: seq<Artisan>, ids: seq<int>, tid: int): (r: seq<Artisan>)
    ensures |r| == |arts|
    decreases |ids|
  {
    if ids == [] then arts else WithTeam(WithTeamAll(arts, ids[..|ids| - 1], tid), ids[|ids| - 1], tid)
  }

  /** Joining a team changes only the team of the listed artisans. */
  lemma {:induction false} WithTeamAllAt(arts: seq<Artisan>, ids: seq<int>, tid: int, i: nat)
    requires i < |arts|
    ensures WithTeamAll(arts, ids, tid)[i] == if arts[i].id in ids then arts[i].(teamId := Some(tid)) else arts[i]
    decreases |ids|
  {
    if ids != [] {
      var init := ids[..|ids| - 1];
      WithTeamAllAt(arts, init, tid, i);
      assert forall x :: x in ids <==> x in init || x == ids[|ids| - 1] by {
        assert ids == init + [ids[|ids| - 1]];
      }
    }
  }

  /** Editing a project keeps the chart's rows: the active projects stay the
      same ids in the same order, since the UPDATE keeps every id and status. */
  lemma {:induction false} EditKeepsChartRows(ps: seq<Project>, pid: int, name: string, start: int, end: int,
                                              jobNumber: string, description: string)
    ensures var a, b := ActiveProjects(UpdatedProjects(ps, pid, name, start, end, jobNumber, description)), ActiveProjects(ps);
            |a| == |b| && forall k :: 0 <= k < |a| ==> a[k].id == b[k].id
    decreases |ps|
  {
    if ps != [] {
      var u := UpdatedProjects(ps, pid, name, start, end, jobNumber, description);
      assert u[1..] == UpdatedProjects(ps[1..], pid, name, start, end, jobNumber, description);
      assert u[0].id == ps[0].id && u[0].status == ps[0].status;
      EditKeepsChartRows(ps[1..], pid, name, start, end, jobNumber, description);
    }
  }

  /** So the edited project, and every other, keeps the colour a redraw gives it. */
  lemma EditKeepsColors(ps: seq<Project>, pid: int, name: string, start: int, end: int,
                        jobNumber: string, description: string, lo: nat, hi: nat, st: ColorState)
    requires hi <= |ActiveProjects(ps)|
    ensures hi <= |ActiveProjects(UpdatedProjects(ps, pid, name, start, end, jobNumber, description))|
    ensures DrawColors(ActiveProjects(UpdatedProjects(ps, pid, name, start, end, jobNumber, description)), lo, hi, st)
         == DrawColors(ActiveProjects(ps), lo, hi, st)
  {
    EditKeepsChartRows(ps, pid, name, start, end, jobNumber, description);
    DrawColorsSameIds(ActiveProjects(UpdatedProjects(ps, pid, name, start, end, jobNumber, description)),
                      ActiveProjects(ps), lo, hi, st);
  }

  class CalendarTab {
    const db: Database
    /** First day of the six-week window. */
    var startDate: int
    /** First project row on screen. */
    var scrollOffset: nat
    var projectColors: map<int, string>
    var projectColorIndex: nat
    /** The active projects and all assignments as last loaded from the store. */
    var projects: seq<Project>
    var assignments: seq<Assignment>
    /** What the last redraw computed: the bottom edge of every row and the bars drawn. */
    var yPos: seq<int>
    var bars: seq<Bar>

    function ColorsNow(): ColorState
      reads this`projectColors, this`projectColorIndex
    {
      ColorState(projectColors, projectColorIndex)
    }

    /** What the last redraw left behind. */
    function PictureNow(): Picture
      reads this`yPos, this`bars, this`projectColors, this`projectColorIndex
    {
      Picture(yPos, bars, ColorsNow())
    }

    /** The last redraw is update_gantt_chart's over the cached lists, the
        current window and scroll offset, starting from registry `before`. */
    ghost predicate Drawn(before: ColorState)
      reads this
    {
      PictureNow() == Render(projects, assignments, startDate, scrollOffset, before)
    }

    /** The cached lists are what load_gantt_data reads from the store. */
    ghost predicate Loaded()
      reads this, db
    {
      projects == ActiveProjects(db.projects) && assignments == db.assignments
    }

    ghost predicate Valid()
      reads this, db
    {
      db.Valid() && Consistent(ColorsNow())
    }

    /** The tab as it opens on `today`: nothing scrolled, no colours given yet,
        and the chart drawn from the store. */
    constructor (db: Database, today: int)
      requires db.Valid()
      ensures this.db == db && Valid() && Loaded() && Drawn(ColorState(map[], 0))
      ensures startDate == today && scrollOffset == 0
    {
      this.db := db;
      startDate := today;
      scrollOffset := 0;
      projectColors, projectColorIndex := map[], 0;
      projects, assignments := [], [];
      yPos, bars := [], [];
      new;
      LoadGanttData();
    }

    /** Look up a project's colour, giving it the next palette entry first if it has none. */
    method ProjectColor(pid: int) returns (color: string)
      modifies this`projectColors, this`projectColorIndex
      ensures ColorsNow() == Register(old(ColorsNow()), pid)
      ensures pid in projectColors && color == projectColors[pid]
    {
      if pid !in projectColors {
        var c := Palette[projectColorIndex % |Palette|];
        projectColors := projectColors[pid := c];
        projectColorIndex := projectColorIndex + 1;
      }
      color := projectColors[pid];
    }

    /** Read the active projects and all assignments, then redraw. */
    method LoadGanttData()
      requires Valid()
      modifies this`projects, this`assignments, this`yPos, this`bars, this`projectColors, this`projectColorIndex
      ensures Valid() && Loaded() && Drawn(old(ColorsNow()))
    {
      projects := ActiveProjects(db.projects);
      assignments := db.assignments;
      UpdateGanttChart();
    }

    /** update_gantt_chart: recompute the rows and the bars of the visible
        projects from the cached lists, colouring projects seen for the first
        time. The day cells and row backgrounds it paints are Chart.BuildGrid
        over the window and the new row edges; they are canvas output only and
        are not kept in the tab. */
    method UpdateGanttChart()
      requires Valid()
      modifies this`yPos, this`bars, this`projectColors, this`projectColorIndex
      ensures Valid() && Drawn(old(ColorsNow()))
    {
      var n := NumRows(|projects|, VisibleRows);
      yPos := YPositions(n);
      var startRow := FirstRow(scrollOffset);
      var endRow := EndRow(scrollOffset, VisibleRows, n);
      var visibleY := PySlice(yPos, startRow, endRow);
      DrawProjectRows(startRow, Min(endRow, |projects|), visibleY);
      DrawColorsConsistent(projects, startRow, Min(endRow, |projects|), old(ColorsNow()));
    }

    /** The bar loop of update_gantt_chart over project rows lo up to hi, whose
        bottom edges visibleY lists from row lo on. */
    method DrawProjectRows(lo: nat, hi: nat, visibleY: seq<int>)
      requires hi <= |projects| && hi <= |yPos|
      requires lo <= hi ==> |visibleY| >= hi - lo && forall k :: lo <= k < hi ==> visibleY[k - lo] == yPos[k]
      modifies this`bars, this`projectColors, this`projectColorIndex
      ensures bars == DrawBars(projects, assignments, lo, hi, startDate, yPos, old(ColorsNow()))
      ensures ColorsNow() == DrawColors(projects, lo, hi, old(ColorsNow()))
    {
      ghost var st0 := ColorsNow();
      bars := [];
      if hi <= lo {
        return;
      }
      var p := lo;
      while p < hi
        invariant lo <= p <= hi
        invariant bars == DrawBars(projects, assignments, lo, p, startDate, yPos, st0)
        invariant ColorsNow() == DrawColors(projects, lo, p, st0)
      {
        var pid := projects[p].id;
        DrawStep(projects, assignments, lo, p, startDate, yPos, st0);
        var color := ProjectColor(pid);
        var y := visibleY[p - lo];
        DrawAssignmentBars(OfProject(assignments, pid), y, color, p);
        p := p + 1;
      }
    }

    /** The bars of one project row, appended in the order of its assignments. */
    method DrawAssignmentBars(pas: seq<Assignment>, y: int, color: string, idx: nat)
      modifies this`bars
      ensures bars == old(bars) + ProjectBars(pas, startDate, y, color, idx)
    {
      var k := 0;
      while k < |pas|
        invariant 0 <= k <= |pas|
        invariant bars == old(bars) + ProjectBars(pas[..k], startDate, y, color, idx)
      {
        var a := pas[k];
        var c := Clip(a.start, a.end, startDate);
        if c.Some? {
          bars := bars + [Bar(c.value.first, c.value.width, y, color, a, idx)];
        }
        ProjectBarsSnoc(pas[..k], a, startDate, y, color, idx);
        assert pas[..k + 1] == pas[..k] + [a];
        k := k + 1;
      }
      assert pas[..|pas|] == pas;
    }

    /** on_scroll: the scroll bar's pixel value picks the first row on screen. */
    method OnScroll(value: nat)
      requires Valid()
      modifies this`scrollOffset, this`yPos, this`bars, this`projectColors, this`projectColorIndex
      ensures Valid() && Drawn(old(ColorsNow()))
      ensures scrollOffset == value / (BlockHeight + RowGap)
      ensures startDate == old(startDate) && projects == old(projects) && assignments == old(assignments)
    {
      scrollOffset := value / (BlockHeight + RowGap);
      UpdateGanttChart();
    }

    /** "Next 6 Weeks": move the window 42 days on and reload. */
    method NextDateRange()
      requires Valid()
      modifies this
      ensures Valid() && Loaded() && Drawn(old(ColorsNow()))
      ensures startDate == old(startDate) + DateRange && scrollOffset == old(scrollOffset)
    {
      startDate := startDate + DateRange;
      LoadGanttData();
    }

    /** "Previous 6 Weeks": move the window 42 days back and reload. */
    method PrevDateRange()
      requires Valid()
      modifies this
      ensures Valid() && Loaded() && Drawn(old(ColorsNow()))
      ensures startDate == old(startDate) - DateRange && scrollOffset == old(scrollOffset)
    {
      startDate := startDate - DateRange;
      LoadGanttData();
    }

    /** start_new_project: check the dialog's data, add the project, a team when
        two artisans and a team name were given, and one assignment per artisan;
        then reload. On an error nothing is written. */
    method StartNewProject(data: NewProjectData) returns (r: Result<int, InputError>)
      requires Valid()
      modifies this, db
      ensures Valid()
      ensures ValidateNew(data).Err? <==> r.Err?
      ensures r.Err? ==> r.error == ValidateNew(data).error && unchanged(this, db)
      ensures r.Ok? ==>
        && r.value == old(db.nextProjectId) && db.nextProjectId == r.value + 1
        && db.nextAssignmentId == old(db.nextAssignmentId) + |ArtisanList(data)|
        && db.nextTeamId == old(db.nextTeamId) + (if MakesTeam(data) then 1 else 0)
        && db.projects == old(db.projects) + [Project(r.value, data.jobName, ValidateNew(data).value.0,
                                                      ValidateNew(data).value.1, Active, data.jobNumber, data.description)]
        && db.assignments == old(db.assignments) + NewAssignments(old(db.nextAssignmentId), ArtisanList(data), r.value,
                                                                 ValidateNew(data).value.0, ValidateNew(data).value.1)
        && (MakesTeam(data) ==>
              && db.teams == old(db.teams) + [Team(old(db.nextTeamId), data.teamName.value)]
              && db.artisans == WithTeamAll(old(db.artisans), ArtisanList(data), old(db.nextTeamId)))
        && (!MakesTeam(data) ==> db.teams == old(db.teams) && db.artisans == old(db.artisans))
        && Loaded() && Drawn(old(ColorsNow()))
        && startDate == old(startDate) && scrollOffset == old(scrollOffset)
    {
      var checked := ValidateNew(data);
      if checked.Err? {
        return Err(checked.error);
      }
      var (s, e) := checked.value;
      var pid := CreateProject(data, s, e);
      LoadGanttData();
      r := Ok(pid);
    }

    /** The store writes of start_new_project, for dates s and e that passed the checks. */
    method CreateProject(data: NewProjectData, s: int, e: int) returns (pid: int)
      requires db.Valid() && Truthy(data.artisanId)
      modifies db
      ensures db.Valid()
      ensures pid == old(db.nextProjectId) && db.nextProjectId == pid + 1
      ensures db.nextAssignmentId == old(db.nextAssignmentId) + |ArtisanList(data)|
      ensures db.nextTeamId == old(db.nextTeamId) + if MakesTeam(data) then 1 else 0
      ensures db.projects == old(db.projects) + [Project(pid, data.jobName, s, e, Active, data.jobNumber, data.description)]
      ensures db.assignments == old(db.assignments) + NewAssignments(old(db.nextAssignmentId), ArtisanList(data), pid, s, e)
      ensures MakesTeam(data) ==>
                && db.teams == old(db.teams) + [Team(old(db.nextTeamId), data.teamName.value)]
                && db.artisans == WithTeamAll(old(db.artisans), ArtisanList(data), old(db.nextTeamId))
      ensures !MakesTeam(data) ==> db.teams == old(db.teams) && db.artisans == old(db.artisans)
    {
      pid := db.AddProject(data.jobName, s, e, Active, data.jobNumber, data.description);
      var ids := ArtisanList(data);
      var teamId: Option<int> := None;
      if |ids| > 1 && NonBlank(data.teamName) {
        var t := db.AddTeam(data.teamName.value);
        teamId := Some(t);
      }
      AddAssignments(ids, pid, s, e, teamId);
    }

    /** The assignment loop of start_new_project and edit_project: one row per
        listed artisan, each artisan also joining the team when one was made
        (edit_project makes none). */
    method AddAssignments(ids: seq<int>, pid: int, s: int, e: int, teamId: Option<int>)
      requires db.Valid()
      modifies db`assignments, db`nextAssignmentId, db`artisans
      ensures db.Valid()
      ensures db.assignments == old(db.assignments) + NewAssignments(old(db.nextAssignmentId), ids, pid, s, e)
      ensures db.nextAssignmentId == old(db.nextAssignmentId) + |ids|
      ensures db.artisans == if Truthy(teamId) then WithTeamAll(old(db.artisans), ids, teamId.value) else old(db.artisans)
    {
      var i := 0;
      while i < |ids|
        invariant 0 <= i <= |ids|
        invariant db.Valid()
        invariant db.assignments == old(db.assignments) + NewAssignments(old(db.nextAssignmentId), ids[..i], pid, s, e)
        invariant db.nextAssignmentId == old(db.nextAssignmentId) + i
        invariant db.artisans == if Truthy(teamId) then WithTeamAll(old(db.artisans), ids[..i], teamId.value) else old(db.artisans)
      {
        var aid := ids[i];
        var added := db.AddAssignment(aid, pid, s, e);
        NewAssignmentsSnoc(old(db.nextAssignmentId), ids[..i], aid, pid, s, e);
        if Truthy(teamId) {
          db.UpdateArtisanTeam(aid, teamId.value);
        }
        assert ids[..i + 1] == ids[..i] + [aid];
        assert ids[..i + 1][..i] == ids[..i];
        i := i + 1;
      }
      assert ids[..|ids|] == ids;
    }

    /** edit_project on the project of a double-clicked bar: check the dialog's
        data, rewrite the project row, delete all its assignments and add one
        per artisan of the dialog's list; then reload. The result is the error
        shown, if any; on an error nothing is written. */
    method EditProject(bar: Assignment, data: EditProjectData) returns (failed: Option<InputError>)
      requires Valid()
      modifies this, db
      ensures Valid()
      ensures ValidateEdit(data).Err? <==> failed.Some?
      ensures failed.Some? ==> failed.value == ValidateEdit(data).error && unchanged(this, db)
      ensures failed.None? ==>
        && db.projects == UpdatedProjects(old(db.projects), bar.projectId, data.jobName, ValidateEdit(data).value.0,
                                          ValidateEdit(data).value.1, data.jobNumber, data.description)
        && db.assignments == Replaced(old(db.assignments), bar.projectId, old(db.nextAssignmentId),
                                      data.assignedArtisans, ValidateEdit(data).value.0, ValidateEdit(data).value.1)
        && db.teams == old(db.teams) && db.artisans == old(db.artisans)
        && db.nextProjectId == old(db.nextProjectId) && db.nextTeamId == old(db.nextTeamId)
        && db.nextAssignmentId == old(db.nextAssignmentId) + |data.assignedArtisans|
        && Loaded() && Drawn(old(ColorsNow()))
        && startDate == old(startDate) && scrollOffset == old(scrollOffset)
    {
      var pid := bar.projectId;
      var checked := ValidateEdit(data);
      if checked.Err? {
        return Some(checked.error);
      }
      var (s, e) := checked.value;
      RewriteProject(pid, data.jobName, s, e, data.jobNumber, data.description, data.assignedArtisans);
      LoadGanttData();
      failed := None;
    }

    /** The store writes of edit_project: the project row is rewritten and its
        assignments replaced by one per listed artisan. */
    method RewriteProject(pid: int, name: string, s: int, e: int, jobNumber: string, description: string, ids: seq<int>)
      requires db.Valid()
      modifies db`projects, db`assignments, db`nextAssignmentId, db`artisans
      ensures db.Valid()
      ensures db.projects == UpdatedProjects(old(db.projects), pid, name, s, e, jobNumber, description)
      ensures db.assignments == Replaced(old(db.assignments), pid, old(db.nextAssignmentId), ids, s, e)
      ensures db.nextAssignmentId == old(db.nextAssignmentId) + |ids|
      ensures db.artisans == old(db.artisans)
    {
      db.UpdateProject(pid, name, s, e, jobNumber, description);
      db.DeleteAssignmentsOf(pid);
      AddAssignments(ids, pid, s, e, None);
    }

    /** delete_project on the project of a double-clicked bar, once the user has
        confirmed: its assignments go first, then its row; then reload. */
    method DeleteProject(bar: Assignment, confirmed: bool)
      requires Valid()
      modifies this, db
      ensures Valid()
      ensures confirmed ==> && db.assignments == WithoutProject(old(db.assignments), bar.projectId)
                            && db.projects == WithoutProjectRow(old(db.projects), bar.projectId)
                            && Loaded() && Drawn(old(ColorsNow()))
      ensures !confirmed ==> unchanged(this, db)
      ensures db.teams == old(db.teams) && db.artisans == old(db.artisans)
      ensures db.nextProjectId == old(db.nextProjectId) && db.nextAssignmentId == old(db.nextAssignmentId)
              && db.nextTeamId == old(db.nextTeamId)
      ensures startDate == old(startDate) && scrollOffset == old(scrollOffset)
    {
      if confirmed {
        RemoveProject(bar.projectId);
        LoadGanttData();
      }
    }

    /** The two DELETE statements of delete_project. */
    method RemoveProject(pid: int)
      requires db.Valid()
      modifies db`assignments, db`projects
      ensures db.Valid()
      ensures db.assignments == WithoutProject(old(db.assignments), pid)
      ensures db.projects == WithoutProjectRow(old(db.projects), pid)
    {
      db.DeleteAssignmentsOf(pid);
      db.DeleteProjectRow(pid);
    }
  }
}

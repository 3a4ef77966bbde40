/** The tables the calendar reads and writes (db/database.py), as sequences of
    rows, with the statements the calendar issues against them. Row ids come
    from per-table counters, as SQLite's AUTOINCREMENT hands them out: a new
    row's id is larger than every id the table has held. */
module Store {

  import opened Records

  /** The rows start_new_project and edit_project add for a project: one per
      listed artisan, in list order, with consecutive ids from firstId. */
  function NewAssignments(firstId: int, artisanIds: seq<int>, pid: int, start: int, end: int): (r: seq<Assignment>)
    ensures |r| == |artisanIds|
    decreases |artisanIds|
  {
    if artisanIds == [] then []
    else [Assignment(firstId, artisanIds[0], pid, start, end)] + NewAssignments(firstId + 1, artisanIds[1..], pid, start, end)
  }

  /** The artisan column of a run of assignment rows. */
  function ArtisanIds(s: seq<Assignment>): (r: seq<int>)
    ensures |r| == |s|
  {
    if s == [] then [] else [s[0].artisanId] + ArtisanIds(s[1..])
  }

  lemma {:induction false} NewAssignmentsSnoc(firstId: int, ids: seq<int>, x: int, pid: int, start: int, end: int)
    ensures NewAssignments(firstId, ids + [x], pid, start, end)
         == NewAssignments(firstId, ids, pid, start, end) + [Assignment(firstId + |ids|, x, pid, start, end)]
    decreases |ids|
  {
    if ids == [] {
      assert ids + [x] == [x];
    } else {
      assert (ids + [x])[0] == ids[0] && (ids + [x])[1..] == ids[1..] + [x];
      NewAssignmentsSnoc(firstId + 1, ids[1..], x, pid, start, end);
    }
  }

  /** The added rows are exactly one per listed artisan, all of the project and
      carrying its dates, with ids from firstId upwards. */
  lemma {:induction false} NewAssignmentsShape(firstId: int, ids: seq<int>, pid: int, start: int, end: int)
    ensures ArtisanIds(NewAssignments(firstId, ids, pid, start, end)) == ids
    ensures OfProject(NewAssignments(firstId, ids, pid, start, end), pid) == NewAssignments(firstId, ids, pid, start, end)
    ensures forall q :: q != pid ==> OfProject(NewAssignments(firstId, ids, pid, start, end), q) == []
    ensures forall a :: a in NewAssignments(firstId, ids, pid, start, end) ==>
              a.projectId == pid && a.start == start && a.end == end && firstId <= a.id < firstId + |ids|
    decreases |ids|
  {
    if ids != [] {
      NewAssignmentsShape(firstId + 1, ids[1..], pid, start, end);
      var r := NewAssignments(firstId, ids, pid, start, end);
      assert r[1..] == NewAssignments(firstId + 1, ids[1..], pid, start, end);
      assert ids == [ids[0]] + ids[1..];
    }
  }

  /** The assignments table after edit_project's delete-then-add on project pid. */
  function Replaced(s: seq<Assignment>, pid: int, firstId: int, ids: seq<int>, start: int, end: int): (r: seq<Assignment>)
    ensures |r| == |s| - |OfProject(s, pid)| + |ids|
  {
    OfWithoutCount(s, pid);
    WithoutProject(s, pid) + NewAssignments(firstId, ids, pid, start, end)
  }

  /** After an edit the project's rows are exactly one per artisan of the
      dialog's list, in its order, with the new dates; every other project's
      rows are as they were, in the same order. */
  lemma EditReplacesProject(s: seq<Assignment>, pid: int, firstId: int, ids: seq<int>, start: int, end: int)
    ensures ArtisanIds(OfProject(Replaced(s, pid, firstId, ids, start, end), pid)) == ids
    ensures forall a :: a in OfProject(Replaced(s, pid, firstId, ids, start, end), pid) ==> a.start == start && a.end == end
    ensures forall q :: q != pid ==> OfProject(Replaced(s, pid, firstId, ids, start, end), q) == OfProject(s, q)
  {
    var w, n := WithoutProject(s, pid), NewAssignments(firstId, ids, pid, start, end);
    NewAssignmentsShape(firstId, ids, pid, start, end);
    OfProjectAppend(w, n, pid);
    OfWithoutProject(s, pid, pid);
    assert OfProject(w + n, pid) == n;
    forall q | q != pid
      ensures OfProject(w + n, q) == OfProject(s, q)
    {
      OfProjectAppend(w, n, q);
      OfWithoutProject(s, pid, q);
    }
  }

  /** After delete_project's first statement no row of the project is left and
      every other project keeps its rows. */
  lemma DeleteRemovesProject(s: seq<Assignment>, pid: int)
    ensures OfProject(WithoutProject(s, pid), pid) == []
    ensures forall q :: q != pid ==> OfProject(WithoutProject(s, pid), q) == OfProject(s, q)
    ensures forall a :: a in s && a.projectId != pid ==> a in WithoutProject(s, pid)
  {
    forall a | a in s && a.projectId != pid
      ensures a in WithoutProject(s, pid)
    {
      WithoutProjectMembers(s, pid, a);
    }
    OfWithoutProject(s, pid, pid);
    forall q | q != pid
      ensures OfProject(WithoutProject(s, pid), q) == OfProject(s, q)
    {
      OfWithoutProject(s, pid, q);
    }
  }

  /** The projects table without the row of project pid. */
  function WithoutProjectRow(ps: seq<Project>, pid: int): (r: seq<Project>)
    ensures |r| <= |ps|
  {
    if ps == [] then [] else (if ps[0].id == pid then [] else [ps[0]]) + WithoutProjectRow(ps[1..], pid)
  }

  /** Deleting the row of project pid keeps every other row and no row with id pid. */
  lemma {:induction false} WithoutProjectRowMembers(ps: seq<Project>, pid: int, p: Project)
    ensures p in WithoutProjectRow(ps, pid) <==> p in ps && p.id != pid
  {
    if ps != [] {
      WithoutProjectRowMembers(ps[1..], pid, p);
      assert p in ps <==> p == ps[0] || p in ps[1..];
    }
  }

  /** The projects table after edit_project's UPDATE of one row; status is kept. */
  function UpdatedProjects(ps: seq<Project>, pid: int, name: string, start: int, end: int,
                           jobNumber: string, description: string): (r: seq<Project>)
    ensures |r| == |ps|
  {
    seq(|ps|, i requires 0 <= i < |ps| =>
      if ps[i].id == pid then ps[i].(name := name, start := start, end := end,
                                     jobNumber := jobNumber, description := description)
      else ps[i])
  }

  /** The UPDATE keeps every row's id and status, gives each row with id pid
      the new name, dates, job number and description, keeps every other row,
      and running it twice is the same as running it once. */
  lemma UpdatedProjectsRows(ps: seq<Project>, pid: int, name: string, start: int, end: int,
                            jobNumber: string, description: string)
    ensures var r := UpdatedProjects(ps, pid, name, start, end, jobNumber, description);
            && (forall i :: 0 <= i < |ps| ==> r[i].id == ps[i].id && r[i].status == ps[i].status)
            && (forall p :: p in r && p.id == pid ==>
                  p.name == name && p.start == start && p.end == end
                  && p.jobNumber == jobNumber && p.description == description)
            && (forall p :: p in ps && p.id != pid ==> p in r)
            && UpdatedProjects(r, pid, name, start, end, jobNumber, description) == r
  {
    var r := UpdatedProjects(ps, pid, name, start, end, jobNumber, description);
    forall p | p in ps && p.id != pid
      ensures p in r
    {
      var i :| 0 <= i < |ps| && ps[i] == p;
      assert r[i] == p;
    }
  }

  /** The artisans table after update_artisan_team. */
  function WithTeam(arts: seq<Artisan>, aid: int, tid: int): (r: seq<Artisan>)
    ensures |r| == |arts|
  {
    seq(|arts|, i requires 0 <= i < |arts| =>
      if arts[i].id == aid then arts[i].(teamId := Some(tid)) else arts[i])
  }

  /** update_artisan_team keeps every artisan's id and name, puts every
      artisan with id aid in team tid, keeps every other artisan, and a second
      update of the same artisan overrides the first. */
  lemma WithTeamRows(arts: seq<Artisan>, aid: int, tid: int, tid2: int)
    ensures var r := WithTeam(arts, aid, tid);
            && (forall i :: 0 <= i < |arts| ==> r[i].id == arts[i].id && r[i].name == arts[i].name)
            && (forall a :: a in r && a.id == aid ==> a.teamId == Some(tid))
            && (forall a :: a in arts && a.id != aid ==> a in r)
            && WithTeam(r, aid, tid2) == WithTeam(arts, aid, tid2)
  {
    var r := WithTeam(arts, aid, tid);
    forall a | a in arts && a.id != aid
      ensures a in r
    {
      var i :| 0 <= i < |arts| && arts[i] == a;
      assert r[i] == a;
    }
  }

  class Database {
    var projects: seq<Project>
    var assignments: seq<Assignment>
    var teams: seq<Team>
    var artisans: seq<Artisan>
    var nextProjectId: int
    var nextAssignmentId: int
    var nextTeamId: int

    /** Every stored id is positive and below its table's counter, so the next
        id handed out is new. */
    ghost predicate Valid()
      reads this
    {
      && (forall p :: p in projects ==> 1 <= p.id < nextProjectId)
      && (forall a :: a in assignments ==> 1 <= a.id < nextAssignmentId)
      && (forall t :: t in teams ==> 1 <= t.id < nextTeamId)
      && 1 <= nextProjectId && 1 <= nextAssignmentId && 1 <= nextTeamId
    }

    /** A store whose project, assignment and team tables are empty. */
    constructor (artisans: seq<Artisan>)
      ensures Valid()
      ensures this.artisans == artisans && projects == [] && assignments == [] && teams == []
    {
      this.artisans := artisans;
      projects, assignments, teams := [], [], [];
      nextProjectId, nextAssignmentId, nextTeamId := 1, 1, 1;
    }

    method AddProject(name: string, start: int, end: int, status: string, jobNumber: string, description: string)
      returns (id: int)
      requires Valid()
      modifies this`projects, this`nextProjectId
      ensures Valid()
      ensures id == old(nextProjectId) && nextProjectId == id + 1
      ensures forall p :: p in old(projects) ==> p.id != id
      ensures projects == old(projects) + [Project(id, name, start, end, status, jobNumber, description)]
    {
      id := nextProjectId;
      projects := projects + [Project(id, name, start, end, status, jobNumber, description)];
      nextProjectId := nextProjectId + 1;
    }

    method AddAssignment(artisanId: int, projectId: int, start: int, end: int) returns (id: int)
      requires Valid()
      modifies this`assignments, this`nextAssignmentId
      ensures Valid()
      ensures id == old(nextAssignmentId) && nextAssignmentId == id + 1
      ensures assignments == old(assignments) + [Assignment(id, artisanId, projectId, start, end)]
    {
      id := nextAssignmentId;
      assignments := assignments + [Assignment(id, artisanId, projectId, start, end)];
      nextAssignmentId := nextAssignmentId + 1;
    }

    method AddTeam(name: string) returns (id: int)
      requires Valid()
      modifies this`teams, this`nextTeamId
      ensures Valid()
      ensures id == old(nextTeamId) && nextTeamId == id + 1 && id >= 1
      ensures teams == old(teams) + [Team(id, name)]
    {
      id := nextTeamId;
      teams := teams + [Team(id, name)];
      nextTeamId := nextTeamId + 1;
    }

    method UpdateArtisanTeam(artisanId: int, teamId: int)
      requires Valid()
      modifies this`artisans
      ensures Valid()
      ensures artisans == WithTeam(old(artisans), artisanId, teamId)
    {
      artisans := WithTeam(artisans, artisanId, teamId);
    }

    /** UPDATE projects SET name, start_date, end_date, job_number, description WHERE id. */
    method UpdateProject(pid: int, name: string, start: int, end: int, jobNumber: string, description: string)
      requires Valid()
      modifies this`projects
      ensures Valid()
      ensures projects == UpdatedProjects(old(projects), pid, name, start, end, jobNumber, description)
    {
      ghost var before := projects;
      projects := UpdatedProjects(projects, pid, name, start, end, jobNumber, description);
      forall p | p in projects
        ensures 1 <= p.id < nextProjectId
      {
        var i :| 0 <= i < |projects| && projects[i] == p;
        assert p.id == before[i].id && before[i] in before;
      }
    }

    /** DELETE FROM assignments WHERE project_id. */
    method DeleteAssignmentsOf(pid: int)
      requires Valid()
      modifies this`assignments
      ensures Valid()
      ensures assignments == WithoutProject(old(assignments), pid)
    {
      ghost var before := assignments;
      assignments := WithoutProject(assignments, pid);
      forall a | a in assignments
        ensures 1 <= a.id < nextAssignmentId
      {
        WithoutProjectMembers(before, pid, a);
      }
    }

    /** DELETE FROM projects WHERE id. */
    method DeleteProjectRow(pid: int)
      requires Valid()
      modifies this`projects
      ensures Valid()
      ensures projects == WithoutProjectRow(old(projects), pid)
    {
      ghost var before := projects;
      projects := WithoutProjectRow(projects, pid);
      forall p | p in projects
        ensures 1 <= p.id < nextProjectId
      {
        WithoutProjectRowMembers(before, pid, p);
      }
    }
  }
}

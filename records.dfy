/** Rows of the scheduling store and the small wrappers the model shares.
    Dates are day ordinals: day 1 is 1 January of year 1 in the proleptic
    Gregorian calendar, as Python's date.toordinal() numbers them. */
module Records {

  datatype Option<+T> = None | Some(value: T)

  datatype Result<+R, +E> = Ok(value: R) | Err(error: E)

  /** A row of the assignments table: (id, artisan_id, project_id, start_date, end_date). */
  datatype Assignment = Assignment(id: int, artisanId: int, projectId: int, start: int, end: int)

  /** A row of the projects table. */
  datatype Project = Project(id: int, name: string, start: int, end: int, status: string,
                             jobNumber: string, description: string)

  /** A row of the teams table. */
  datatype Team = Team(id: int, name: string)

  /** The columns of an artisans row the core touches. */
  datatype Artisan = Artisan(id: int, name: string, teamId: Option<int>)

  const Active: string := "Active"

  /** Python truthiness of an optional row id: None and 0 are both false. */
  predicate Truthy(x: Option<int>) {
    x.Some? && x.value != 0
  }

  /** Python truthiness of an optional string: None and "" are both false. */
  predicate NonBlank(s: Option<string>) {
    s.Some? && s.value != ""
  }

  /** No element occurs twice. */
  predicate NoDup<T(==)>(s: seq<T>) {
    forall i, j :: 0 <= i < j < |s| ==> s[i] != s[j]
  }

  /** The assignments of one project, in table order. */
  function OfProject(s: seq<Assignment>, pid: int): (r: seq<Assignment>)
    ensures |r| <= |s|
    ensures forall k :: 0 <= k < |r| ==> r[k].projectId == pid
  {
    if s == [] then []
    else if s[0].projectId == pid then [s[0]] + OfProject(s[1..], pid)
    else OfProject(s[1..], pid)
  }

  /** The assignments that do not belong to one project, in table order. */
  function WithoutProject(s: seq<Assignment>, pid: int): (r: seq<Assignment>)
    ensures |r| <= |s|
    ensures forall k :: 0 <= k < |r| ==> r[k].projectId != pid
  {
    if s == [] then []
    else if s[0].projectId == pid then WithoutProject(s[1..], pid)
    else [s[0]] + WithoutProject(s[1..], pid)
  }

  /** Selecting a project's rows distributes over concatenation of tables. */
  lemma {:induction false} OfProjectAppend(a: seq<Assignment>, b: seq<Assignment>, pid: int)
    ensures OfProject(a + b, pid) == OfProject(a, pid) + OfProject(b, pid)
  {
    if a == [] {
      assert a + b == b;
    } else {
      assert (a + b)[0] == a[0] && (a + b)[1..] == a[1..] + b;
      OfProjectAppend(a[1..], b, pid);
    }
  }

  /** Every row of the table that belongs to the project is selected, and nothing else. */
  lemma {:induction false} OfProjectMembers(s: seq<Assignment>, pid: int, x: Assignment)
    ensures x in OfProject(s, pid) <==> x in s && x.projectId == pid
  {
    if s != [] {
      OfProjectMembers(s[1..], pid, x);
      assert x in s <==> x == s[0] || x in s[1..];
    }
  }

  /** Removing a project's rows keeps exactly the rows of the other projects. */
  lemma {:induction false} WithoutProjectMembers(s: seq<Assignment>, pid: int, x: Assignment)
    ensures x in WithoutProject(s, pid) <==> x in s && x.projectId != pid
  {
    if s != [] {
      WithoutProjectMembers(s[1..], pid, x);
      assert x in s <==> x == s[0] || x in s[1..];
    }
  }

  /** Removing one project's rows leaves no row of that project and keeps every
      other project's rows exactly, in order. */
  lemma {:induction false} OfWithoutProject(s: seq<Assignment>, pid: int, q: int)
    ensures OfProject(WithoutProject(s, pid), q) == if q == pid then [] else OfProject(s, q)
  {
    if s != [] {
      OfWithoutProject(s[1..], pid, q);
      if s[0].projectId != pid {
        assert ([s[0]] + WithoutProject(s[1..], pid))[1..] == WithoutProject(s[1..], pid);
      }
    }
  }

  /** Every row either belongs to the project or not: the two selections
      together hold as many rows as the table. */
  lemma {:induction false} OfWithoutCount(s: seq<Assignment>, pid: int)
    ensures |OfProject(s, pid)| + |WithoutProject(s, pid)| == |s|
  {
    if s != [] {
      OfWithoutCount(s[1..], pid);
    }
  }
}

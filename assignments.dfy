/**
 * The assignments page: the `coursesById` index, the `filtered` list shown
 * (course filter, search, the upcoming/past tab and its order) and the
 * optimistic delete with rollback.
 */
module Assignments {
  import opened Wrappers
  import opened Text
  import opened Schema
  import opened Lists

  /** An assignment as the API lists it; a missing title or description is "". `dueAt` in milliseconds. */
  datatype Assignment = Assignment(id: int, title: string, description: string, courseId: int, dueAt: int)

  /** A course as the API lists it; a missing name or code is "". */
  datatype Course = Course(id: int, name: string, code: string)

  /**
   * The course selector after `Number(courseId)`: no selection (""), a
   * course id, or a value no course id equals (NaN, a fraction).
   */
  datatype CourseFilter = AnyCourse | CourseNumber(id: int) | NoCourseNumber

  // ---- coursesById ----

  /** The map `new Map()` holds after `set(c.id, c)` for every course in order: a later course replaces an earlier one. */
  function CourseIndex(courses: seq<Course>): map<int, Course> {
    if courses == [] then map[]
    else CourseIndex(courses[..|courses| - 1])[courses[|courses| - 1].id := courses[|courses| - 1]]
  }

  /** The index holds exactly the ids of the courses, each mapped to the last course with that id. */
  lemma CourseIndexLastWins(courses: seq<Course>)
    ensures forall k :: k in CourseIndex(courses) <==> exists c :: c in courses && c.id == k
    ensures forall j :: 0 <= j < |courses| ==>
      CourseIndex(courses)[courses[j].id] == courses[j] || exists i :: j < i < |courses| && courses[i].id == courses[j].id
    ensures forall k :: k in CourseIndex(courses) ==> CourseIndex(courses)[k] in courses && CourseIndex(courses)[k].id == k
  {
    CourseIndexKeys(courses);
    CourseIndexLatest(courses);
    CourseIndexValues(courses);
  }

  lemma {:induction false} CourseIndexKeys(courses: seq<Course>)
    ensures forall k :: k in CourseIndex(courses) <==> exists c :: c in courses && c.id == k
  {
    if courses != [] {
      var front := courses[..|courses| - 1];
      var last := courses[|courses| - 1];
      CourseIndexKeys(front);
      forall k ensures k in CourseIndex(courses) <==> exists c :: c in courses && c.id == k {
        if k in CourseIndex(front) {
          var c :| c in front && c.id == k;
          assert c in courses;
        }
        if exists c :: c in courses && c.id == k {
          var c :| c in courses && c.id == k;
          if c != last {
            var i :| 0 <= i < |courses| && courses[i] == c;
            assert front[i] == c;
          }
        }
      }
    }
  }

  lemma {:induction false} CourseIndexLatest(courses: seq<Course>)
    ensures forall j :: 0 <= j < |courses| ==> courses[j].id in CourseIndex(courses)
    ensures forall j :: 0 <= j < |courses| ==>
      CourseIndex(courses)[courses[j].id] == courses[j] || exists i :: j < i < |courses| && courses[i].id == courses[j].id
  {
    if courses != [] {
      var front := courses[..|courses| - 1];
      var last := courses[|courses| - 1];
      CourseIndexLatest(front);
      CourseIndexKeys(front);
      CourseIndexKeys(courses);
      forall j | 0 <= j < |courses| ensures courses[j].id in CourseIndex(courses) {
        assert courses[j] in courses;
      }
      forall j | 0 <= j < |courses| - 1
        ensures CourseIndex(courses)[courses[j].id] == courses[j] || exists i :: j < i < |courses| && courses[i].id == courses[j].id
      {
        assert front[j] == courses[j];
        if courses[j].id != last.id {
          assert front[j] in front;
          if exists i :: j < i < |front| && front[i].id == front[j].id {
            var i :| j < i < |front| && front[i].id == front[j].id;
            assert courses[i] == front[i];
          }
        }
      }
    }
  }

  lemma {:induction false} CourseIndexValues(courses: seq<Course>)
    ensures forall k :: k in CourseIndex(courses) ==> CourseIndex(courses)[k] in courses && CourseIndex(courses)[k].id == k
  {
    if courses != [] {
      var front := courses[..|courses| - 1];
      CourseIndexValues(front);
      forall k | k in CourseIndex(courses) && k != courses[|courses| - 1].id
        ensures CourseIndex(courses)[k] in courses
      {
        assert CourseIndex(front)[k] in front;
      }
    }
  }

  /** `coursesById`: one `set` per course, in order. */
  method CoursesById(courses: seq<Course>) returns (m: map<int, Course>)
    ensures m == CourseIndex(courses)
  {
    m := map[];
    for i := 0 to |courses|
      invariant m == CourseIndex(courses[..i])
    {
      assert courses[..i + 1][..i] == courses[..i];
      m := m[courses[i].id := courses[i]];
    }
    assert courses[..|courses|] == courses;
  }

  // ---- filtered ----

  predicate InCourse(a: Assignment, f: CourseFilter) {
    match f
    case AnyCourse => true
    case CourseNumber(id) => a.courseId == id
    case NoCourseNumber => false
  }

  /** The search: the lower-cased query `s` inside the title, description, or the course's name or code. */
  predicate MatchesQuery(a: Assignment, s: string, byId: map<int, Course>) {
    || Contains(ToLower(a.title), s)
    || Contains(ToLower(a.description), s)
    || Contains(ToLower(if a.courseId in byId then byId[a.courseId].name else ""), s)
    || Contains(ToLower(if a.courseId in byId then byId[a.courseId].code else ""), s)
  }

  /** The list before the tab applies: course filter, then search (skipped for a blank query). */
  function Searched(assignments: seq<Assignment>, f: CourseFilter, q: string, byId: map<int, Course>): seq<Assignment> {
    var list := if f == AnyCourse then assignments else Filter(assignments, (a: Assignment) => InCourse(a, f));
    if Trim(q) != "" then
      var s := ToLower(Trim(q));
      Filter(list, (a: Assignment) => MatchesQuery(a, s, byId))
    else list
  }

  /** The test of the "upcoming" tab: `isAfter(dueAt, now)`. */
  function IsUpcoming(now: int): Assignment -> bool {
    (a: Assignment) => a.dueAt > now
  }

  /** The test of any other tab: `!isAfter(dueAt, now)`. */
  function IsPast(now: int): Assignment -> bool {
    (a: Assignment) => !(a.dueAt > now)
  }

  /** The entries `deleteAssignment(id)` keeps: `a.id !== id`. */
  function OtherThan(id: int): Assignment -> bool {
    (a: Assignment) => a.id != id
  }

  /** The order of the tab: ascending `dueAt` for upcoming, descending for past. */
  predicate Before(x: Assignment, y: Assignment, ascending: bool) {
    if ascending then x.dueAt <= y.dueAt else x.dueAt >= y.dueAt
  }

  ghost predicate Sorted(s: seq<Assignment>, ascending: bool) {
    forall i, j :: 0 <= i < j < |s| ==> Before(s[i], s[j], ascending)
  }

  /** Puts `x` in front of the first entry it may precede. */
  function Insert(x: Assignment, s: seq<Assignment>, ascending: bool): (r: seq<Assignment>)
    requires Sorted(s, ascending)
    ensures Sorted(r, ascending)
    ensures multiset(r) == multiset(s) + multiset{x}
  {
    if s == [] then [x]
    else if Before(x, s[0], ascending) then [x] + s
    else
      var rest := Insert(x, s[1..], ascending);
      assert multiset(s) == multiset{s[0]} + multiset(s[1..]) by { assert s == [s[0]] + s[1..]; }
      forall y | y in rest ensures Before(s[0], y, ascending) {
        assert y in multiset(rest);
        if y != x {
          var k :| 0 <= k < |s[1..]| && s[1..][k] == y;
          assert s[k + 1] == y;
        }
      }
      SortedCons(s[0], rest, ascending);
      [s[0]] + rest
  }

  /** An entry that may precede every entry of a sorted list extends it. */
  lemma SortedCons(a: Assignment, rest: seq<Assignment>, ascending: bool)
    requires Sorted(rest, ascending)
    requires forall y :: y in rest ==> Before(a, y, ascending)
    ensures Sorted([a] + rest, ascending)
  {
    var r := [a] + rest;
    forall i, j | 0 <= i < j < |r| ensures Before(r[i], r[j], ascending) {
      assert r[j] == rest[j - 1];
      if i > 0 {
        assert r[i] == rest[i - 1];
      }
    }
  }

  /** `list.sort(...)` by `dueAt`, in the tab's direction. */
  function SortByDue(s: seq<Assignment>, ascending: bool): (r: seq<Assignment>)
    ensures Sorted(r, ascending)
    ensures multiset(r) == multiset(s)
  {
    if s == [] then []
    else
      assert s == [s[0]] + s[1..];
      Insert(s[0], SortByDue(s[1..], ascending), ascending)
  }

  /** The `filtered` memo, with the clock reading `now` and the tab `upcoming` (any other tab is "past"). */
  function Filtered(assignments: seq<Assignment>, f: CourseFilter, q: string, upcoming: bool, now: int,
                    byId: map<int, Course>): seq<Assignment>
  {
    var list := Searched(assignments, f, q, byId);
    if upcoming then SortByDue(Filter(list, IsUpcoming(now)), true)
    else SortByDue(Filter(list, IsPast(now)), false)
  }

  /** Before the tab: the entries of the selected course that match the query, each at most as often as in the source list. */
  lemma SearchedSpec(assignments: seq<Assignment>, f: CourseFilter, q: string, byId: map<int, Course>)
    ensures multiset(Searched(assignments, f, q, byId)) <= multiset(assignments)
    ensures forall a :: a in Searched(assignments, f, q, byId) <==>
      a in assignments && InCourse(a, f) && (IsBlank(q) || MatchesQuery(a, ToLower(Trim(q)), byId))
  {
    var list := if f == AnyCourse then assignments else Filter(assignments, (a: Assignment) => InCourse(a, f));
    assert multiset(list) <= multiset(assignments);
    assert forall a :: a in list <==> a in assignments && InCourse(a, f);
  }

  /**
   * The list shown holds exactly the assignments of the selected course
   * that match the query and fall in the tab, none more often than in the
   * source list, ordered by `dueAt` as the tab says.
   */
  lemma FilteredSpec(assignments: seq<Assignment>, f: CourseFilter, q: string, upcoming: bool, now: int,
                     byId: map<int, Course>)
    ensures var r := Filtered(assignments, f, q, upcoming, now, byId);
      && multiset(r) <= multiset(assignments)
      && Sorted(r, upcoming)
      && forall a :: a in r <==>
           && a in assignments && InCourse(a, f)
           && (IsBlank(q) || MatchesQuery(a, ToLower(Trim(q)), byId))
           && (upcoming <==> a.dueAt > now)
  {
    var list := Searched(assignments, f, q, byId);
    SearchedSpec(assignments, f, q, byId);
    var p := if upcoming then IsUpcoming(now) else IsPast(now);
    var tab := Filter(list, p);
    var r := SortByDue(tab, upcoming);
    assert r == Filtered(assignments, f, q, upcoming, now, byId);
    assert multiset(r) == multiset(tab);
    forall a ensures a in r <==> a in tab {
      assert a in r <==> a in multiset(r);
    }
    forall a ensures p(a) <==> (upcoming <==> a.dueAt > now) {
    }
  }

  /** The two tabs split the searched list: every entry is in exactly one of them, as often as it was. */
  lemma TabsPartition(assignments: seq<Assignment>, f: CourseFilter, q: string, now: int, byId: map<int, Course>)
    ensures multiset(Filtered(assignments, f, q, true, now, byId)) + multiset(Filtered(assignments, f, q, false, now, byId))
         == multiset(Searched(assignments, f, q, byId))
  {
    FilterSplits(Searched(assignments, f, q, byId), IsUpcoming(now), IsPast(now));
  }

  /** Without a course and with a blank query, nothing is filtered before the tab. */
  lemma NothingSelected(assignments: seq<Assignment>, q: string, byId: map<int, Course>)
    requires IsBlank(q)
    ensures Searched(assignments, AnyCourse, q, byId) == assignments
  {
  }

  // ---- deleteAssignment ----

  /** The page's list state and the signed-in user (`getUser()` when the page rendered). */
  class AssignmentsPage {
    var assignments: seq<Assignment>
    const user: Option<SessionUser>

    constructor (user: Option<SessionUser>, assignments: seq<Assignment>)
      ensures this.user == user && this.assignments == assignments
    {
      this.user := user;
      this.assignments := assignments;
    }

    /**
     * `deleteAssignment(id)`: only for an admin who confirms. The list
     * without the entry is shown while the request runs (`optimistic`); a
     * failed request (`deleted` false) puts the exact previous list back.
     */
    method DeleteAssignment(id: int, confirmed: bool, deleted: bool) returns (optimistic: seq<Assignment>)
      modifies this`assignments
      ensures user == None || user.value.role != "admin" || !confirmed ==>
        optimistic == assignments == old(assignments)
      ensures user.Some? && user.value.role == "admin" && confirmed ==>
        && optimistic == Filter(old(assignments), OtherThan(id))
        && assignments == if deleted then optimistic else old(assignments)
    {
      if user == None || user.value.role != "admin" {
        return assignments;
      }
      if !confirmed {
        return assignments;
      }
      var prev := assignments;
      assignments := Filter(prev, OtherThan(id));
      optimistic := assignments;
      if !deleted {
        assignments := prev;
      }
    }
  }

  /** The optimistic list drops exactly the entries with the deleted id and keeps the rest in order. */
  lemma {:induction false} RemovalExact(s: seq<Assignment>, id: int)
    ensures forall a :: a in Filter(s, OtherThan(id)) <==> a in s && a.id != id
    ensures (forall a :: a in s ==> a.id != id) ==> Filter(s, OtherThan(id)) == s
    ensures forall k :: 0 <= k <= |s| ==>
      Filter(s, OtherThan(id)) == Filter(s[..k], OtherThan(id)) + Filter(s[k..], OtherThan(id))
  {
    if forall a :: a in s ==> a.id != id {
      FilterAll(s, OtherThan(id));
    }
    forall k | 0 <= k <= |s|
      ensures Filter(s, OtherThan(id)) == Filter(s[..k], OtherThan(id)) + Filter(s[k..], OtherThan(id))
    {
      assert s == s[..k] + s[k..];
      FilterAppend(s[..k], s[k..], OtherThan(id));
    }
  }
}

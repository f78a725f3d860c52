/**
 * The candidate classmates shown on the squad-formation pages and the course intersection of a
 * selection. `commonCourses`, `sameTutorial` and `timeOverlap` arrive precomputed by the
 * database and are plain inputs here.
 */
module Students {
  import opened Common
  import opened Seqs
  import opened Text
  import opened UserFormat

  datatype ClassType = Lec | Tut | Lab

  datatype Enrolment = Enrolment(course: string, classType: ClassType, section: string)

  datatype Student = Student(
    id: string,
    zid: string,
    firstName: string,
    lastName: string,
    degree: Option<string>,
    commonCourses: seq<string>,
    sameTutorial: bool,
    timeOverlap: bool,
    enrolments: seq<Enrolment>)

  /** `students.filter(s => selectedUsers.includes(s.zid))`: selected students in list order. */
  function SelectedStudents(students: seq<Student>, selectedUsers: seq<string>): (r: seq<Student>)
    ensures forall i :: 0 <= i < |r| ==> r[i] in students && r[i].zid in selectedUsers
    ensures forall i :: 0 <= i < |students| && students[i].zid in selectedUsers ==> students[i] in r
    ensures IsSubseq(r, students)
  {
    FilterIsSubseq(students, (s: Student) => s.zid in selectedUsers);
    Filter(students, (s: Student) => s.zid in selectedUsers)
  }

  /** Course `c` is among the common courses of each of the first `n` students of `sel`. */
  predicate InEvery(sel: seq<Student>, n: nat, c: string)
    requires n <= |sel|
  {
    forall k :: 0 <= k < n ==> c in sel[k].commonCourses
  }

  /** `InEvery(sel, n, _)` as a filter predicate. */
  function InEveryOf(sel: seq<Student>, n: nat): string -> bool
    requires n <= |sel|
  {
    c => InEvery(sel, n, c)
  }

  /** The loop's filter `c => courses.includes(c)`. */
  function TakenIn(courses: seq<string>): string -> bool {
    c => c in courses
  }

  /**
   * The value of `intersection` after the loop has processed the first `n` selected students:
   * it starts as the `Set` of the first student's courses and each further student filters it.
   */
  function IntersectPrefix(sel: seq<Student>, n: nat): seq<string>
    requires 1 <= n <= |sel|
  {
    if n == 1 then Dedup(sel[0].commonCourses)
    else
      var courses := sel[n - 1].commonCourses;
      Filter(IntersectPrefix(sel, n - 1), TakenIn(courses))
  }

  /**
   * Closed form of the loop: the first student's distinct courses, in their order, that every
   * one of the first `n` students has.
   */
  lemma {:induction false} IntersectPrefixClosedForm(sel: seq<Student>, n: nat)
    requires 1 <= n <= |sel|
    ensures IntersectPrefix(sel, n) == Filter(Dedup(sel[0].commonCourses), InEveryOf(sel, n))
  {
    if n == 1 {
      ClosedFormBase(sel);
    } else {
      IntersectPrefixClosedForm(sel, n - 1);
      ClosedFormStep(sel, n);
    }
  }

  /** The first student's distinct courses are all theirs. */
  lemma ClosedFormBase(sel: seq<Student>)
    requires 1 <= |sel|
    ensures IntersectPrefix(sel, 1) == Filter(Dedup(sel[0].commonCourses), InEveryOf(sel, 1))
  {
    PrefixOfOne(sel);
    FirstCoursesAllKept(sel);
  }

  lemma PrefixOfOne(sel: seq<Student>)
    requires 1 <= |sel|
    ensures IntersectPrefix(sel, 1) == Dedup(sel[0].commonCourses)
  {
  }

  lemma FirstCoursesAllKept(sel: seq<Student>)
    requires 1 <= |sel|
    ensures Filter(Dedup(sel[0].commonCourses), InEveryOf(sel, 1)) == Dedup(sel[0].commonCourses)
  {
    KeepsFirstStudentsCourses(sel, Dedup(sel[0].commonCourses));
  }

  lemma KeepsFirstStudentsCourses(sel: seq<Student>, d: seq<string>)
    requires 1 <= |sel|
    requires forall i :: 0 <= i < |d| ==> d[i] in sel[0].commonCourses
    ensures Filter(d, InEveryOf(sel, 1)) == d
  {
    var pn := InEveryOf(sel, 1);
    forall i | 0 <= i < |d| ensures pn(d[i]) {
      assert d[i] in sel[0].commonCourses;
    }
    FilterAll(d, pn);
  }

  /** Filtering by the `n`-th student's courses extends the closed form from `n - 1` to `n`. */
  lemma ClosedFormStep(sel: seq<Student>, n: nat)
    requires 2 <= n <= |sel|
    requires IntersectPrefix(sel, n - 1) == Filter(Dedup(sel[0].commonCourses), InEveryOf(sel, n - 1))
    ensures IntersectPrefix(sel, n) == Filter(Dedup(sel[0].commonCourses), InEveryOf(sel, n))
  {
    var d := Dedup(sel[0].commonCourses);
    var pn := InEveryOf(sel, n);
    var p, q := InEveryOf(sel, n - 1), TakenIn(sel[n - 1].commonCourses);
    assert IntersectPrefix(sel, n) == Filter(Filter(d, p), q);
    forall i | 0 <= i < |d| ensures pn(d[i]) == (p(d[i]) && q(d[i])) {
      InEveryStep(sel, n, d[i]);
    }
    FilterFilter(d, p, q, pn);
  }

  /** Having the course for the first `n` students is having it for `n - 1` and the `n`-th. */
  lemma InEveryStep(sel: seq<Student>, n: nat, c: string)
    requires 1 <= n <= |sel|
    ensures InEvery(sel, n, c) == (InEvery(sel, n - 1, c) && c in sel[n - 1].commonCourses)
  {
  }

  /** The loop's result for a non-empty selection: what lines 26-33 of the hook return. */
  function Intersect(sel: seq<Student>): seq<string>
    requires sel != []
  {
    IntersectPrefix(sel, |sel|)
  }

  /** A course is in the intersection iff every selected student has it; none occurs twice. */
  lemma IntersectCharacterised(sel: seq<Student>)
    requires sel != []
    ensures forall c :: c in Intersect(sel) <==> InEvery(sel, |sel|, c)
    ensures NoDups(Intersect(sel))
  {
    IntersectPrefixClosedForm(sel, |sel|);
    ClosedFormMembers(sel, Dedup(sel[0].commonCourses));
  }

  /** Filtering the first student's distinct courses by `InEvery` keeps exactly the shared courses. */
  lemma ClosedFormMembers(sel: seq<Student>, d: seq<string>)
    requires sel != [] && NoDups(d)
    requires forall i :: 0 <= i < |sel[0].commonCourses| ==> sel[0].commonCourses[i] in d
    ensures forall c :: c in Filter(d, InEveryOf(sel, |sel|)) <==> InEvery(sel, |sel|, c)
    ensures NoDups(Filter(d, InEveryOf(sel, |sel|)))
  {
    var p := InEveryOf(sel, |sel|);
    FilterNoDups(d, p);
    forall c | InEvery(sel, |sel|, c) ensures c in Filter(d, p) {
      var k :| 0 <= k < |sel[0].commonCourses| && sel[0].commonCourses[k] == c;
      var j :| 0 <= j < |d| && d[j] == c;
      assert p(d[j]);
    }
  }

  /**
   * `commonCoursesIntersection` of the hook: empty when nothing is selected or no selected zid
   * is among the students, otherwise the loop's result.
   */
  function CommonCoursesIntersection(students: seq<Student>, selectedUsers: seq<string>): seq<string> {
    if |selectedUsers| == 0 then []
    else
      var sel := SelectedStudents(students, selectedUsers);
      if |sel| == 0 then [] else Intersect(sel)
  }

  /** Some selected zid belongs to a listed student. */
  predicate AnySelectedPresent(students: seq<Student>, selectedUsers: seq<string>) {
    exists i :: 0 <= i < |students| && students[i].zid in selectedUsers
  }

  lemma SelectedStudentsEmpty(students: seq<Student>, selectedUsers: seq<string>)
    ensures SelectedStudents(students, selectedUsers) == [] <==> !AnySelectedPresent(students, selectedUsers)
  {
    if AnySelectedPresent(students, selectedUsers) {
      var i :| 0 <= i < |students| && students[i].zid in selectedUsers;
      assert students[i] in SelectedStudents(students, selectedUsers);
    }
  }

  /**
   * Membership in the intersection: a course is in it iff some selected student is listed and
   * every listed selected student has the course. No course occurs twice.
   */
  lemma CommonCoursesIntersectionMembership(students: seq<Student>, selectedUsers: seq<string>, c: string)
    ensures c in CommonCoursesIntersection(students, selectedUsers) <==>
      AnySelectedPresent(students, selectedUsers) &&
      forall i :: 0 <= i < |students| && students[i].zid in selectedUsers ==> c in students[i].commonCourses
    ensures NoDups(CommonCoursesIntersection(students, selectedUsers))
  {
    var sel := SelectedStudents(students, selectedUsers);
    SelectedStudentsEmpty(students, selectedUsers);
    if sel != [] {
      IntersectCharacterised(sel);
      InEverySelected(students, selectedUsers, sel, c);
    }
  }

  /** Every selected student having a course is every listed student with a selected zid having it. */
  lemma InEverySelected(students: seq<Student>, selectedUsers: seq<string>, sel: seq<Student>, c: string)
    requires forall i :: 0 <= i < |sel| ==> sel[i] in students && sel[i].zid in selectedUsers
    requires forall i :: 0 <= i < |students| && students[i].zid in selectedUsers ==> students[i] in sel
    ensures InEvery(sel, |sel|, c) <==>
      forall i :: 0 <= i < |students| && students[i].zid in selectedUsers ==> c in students[i].commonCourses
  {
    if InEvery(sel, |sel|, c) {
      forall i | 0 <= i < |students| && students[i].zid in selectedUsers
        ensures c in students[i].commonCourses
      {
        var k :| 0 <= k < |sel| && sel[k] == students[i];
      }
    }
  }

  /** With nothing selected, or no selected zid among the students, the intersection is empty. */
  lemma CommonCoursesIntersectionEmpty(students: seq<Student>, selectedUsers: seq<string>)
    requires selectedUsers == [] || !AnySelectedPresent(students, selectedUsers)
    ensures CommonCoursesIntersection(students, selectedUsers) == []
  {
    SelectedStudentsEmpty(students, selectedUsers);
  }

  /**
   * Growing the selection never adds a course to the intersection, provided the smaller
   * selection already names a listed student (an empty intersection for an empty selection
   * means "no constraint", not "no course").
   */
  lemma IntersectionShrinks(students: seq<Student>, smaller: seq<string>, larger: seq<string>)
    requires forall i :: 0 <= i < |smaller| ==> smaller[i] in larger
    requires AnySelectedPresent(students, smaller)
    ensures forall k :: 0 <= k < |CommonCoursesIntersection(students, larger)| ==>
      CommonCoursesIntersection(students, larger)[k] in CommonCoursesIntersection(students, smaller)
  {
    forall k | 0 <= k < |CommonCoursesIntersection(students, larger)|
      ensures CommonCoursesIntersection(students, larger)[k] in CommonCoursesIntersection(students, smaller)
    {
      var c := CommonCoursesIntersection(students, larger)[k];
      CommonCoursesIntersectionMembership(students, larger, c);
      CommonCoursesIntersectionMembership(students, smaller, c);
    }
  }

  /**
   * The loop of lines 26-33 (and 97-104 of the meowl page): start from the distinct courses of
   * the first selected student and keep, for each further student, the courses that student has.
   */
  method IntersectCourses(sel: seq<Student>) returns (intersection: seq<string>)
    requires sel != []
    ensures intersection == Intersect(sel)
    ensures forall c :: c in intersection <==> InEvery(sel, |sel|, c)
    ensures NoDups(intersection)
  {
    intersection := Dedup(sel[0].commonCourses);
    var i := 1;
    while i < |sel|
      invariant 1 <= i <= |sel|
      invariant intersection == IntersectPrefix(sel, i)
    {
      var studentCourses := sel[i].commonCourses;
      intersection := Filter(intersection, TakenIn(studentCourses));
      i := i + 1;
    }
    IntersectCharacterised(sel);
  }

  /**
   * The memoised computation of `commonCoursesIntersection` in the hook: the two early returns,
   * then the loop.
   */
  method ComputeCommonCoursesIntersection(students: seq<Student>, selectedUsers: seq<string>)
    returns (r: seq<string>)
    ensures r == CommonCoursesIntersection(students, selectedUsers)
    ensures forall c :: c in r <==>
      AnySelectedPresent(students, selectedUsers) &&
      forall i :: 0 <= i < |students| && students[i].zid in selectedUsers ==> c in students[i].commonCourses
  {
    forall c ensures c in CommonCoursesIntersection(students, selectedUsers) <==>
      AnySelectedPresent(students, selectedUsers) &&
      forall i :: 0 <= i < |students| && students[i].zid in selectedUsers ==> c in students[i].commonCourses
    {
      CommonCoursesIntersectionMembership(students, selectedUsers, c);
    }
    if |selectedUsers| == 0 {
      return [];
    }
    var selectedStudents := SelectedStudents(students, selectedUsers);
    if |selectedStudents| == 0 {
      return [];
    }
    r := IntersectCourses(selectedStudents);
  }

  /** `${first_name} ${last_name}`, the key of the name sort. */
  function FullName(s: Student): string {
    FormatUserName(s.firstName, s.lastName)
  }

  /** The search test shared by both squad pages, with a missing degree searched as "". */
  predicate MatchesSearch(s: Student, query: string) {
    var q := Lower(query);
    || Contains(Lower(s.firstName), q)
    || Contains(Lower(s.lastName), q)
    || Contains(Lower(s.zid), q)
    || Contains(Lower(s.degree.GetOr("")), q)
  }

  /** The search reaches the degree only when no name or zid matched. */
  predicate SearchReachesDegree(s: Student, query: string) {
    var q := Lower(query);
    !Contains(Lower(s.firstName), q) && !Contains(Lower(s.lastName), q) && !Contains(Lower(s.zid), q)
  }

  /** The course filter: no filter, or some common course of the student is filtered on. */
  predicate MatchesCourseFilter(s: Student, filterCourse: seq<string>) {
    |filterCourse| == 0 || exists i :: 0 <= i < |s.commonCourses| && s.commonCourses[i] in filterCourse
  }

  /** The whole list filter: search, course filter and the two flag requirements. */
  predicate KeepStudent(s: Student, query: string, filterCourse: seq<string>, sameTutorialOnly: bool, timeOverlapOnly: bool) {
    && MatchesSearch(s, query)
    && MatchesCourseFilter(s, filterCourse)
    && (sameTutorialOnly ==> s.sameTutorial)
    && (timeOverlapOnly ==> s.timeOverlap)
  }

  /** The empty query matches every student. */
  lemma EmptyQueryMatchesAll(s: Student)
    ensures MatchesSearch(s, "")
  {
    assert OccursAt(Lower(s.firstName), "", 0);
  }

  datatype SortKey = ByCommonCourses | ByName

  /**
   * The sort comparator as "may stay before": `b.commonCourses.length - a.commonCourses.length
   * <= 0`, or `localeCompare(fullName(a), fullName(b)) <= 0` where `collate` stands for the
   * locale's comparison.
   */
  function SortLeq(key: SortKey, collate: (string, string) -> bool): (Student, Student) -> bool {
    match key
    case ByCommonCourses => (a: Student, b: Student) => |a.commonCourses| >= |b.commonCourses|
    case ByName => (a: Student, b: Student) => collate(FullName(a), FullName(b))
  }
}

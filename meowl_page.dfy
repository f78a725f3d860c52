/**
 * The squad-formation page at src/app/discover/meowl/page.tsx, which inlines its own copy of
 * the selection and filter state instead of using the hook. Two differences matter: the
 * intersection has no guard for a selection that names no listed student, and there is no
 * effect that resets the course filter when the selection changes.
 */
module MeowlPage {
  import opened Common
  import opened Seqs
  import opened StableSort
  import opened Students
  import opened SquadFiltersHook

  /**
   * The page's `commonCoursesIntersection`: `None` stands for the TypeError thrown when the
   * selection is non-empty but names no listed student (`selectedStudents[0]` is undefined).
   */
  function PageIntersection(students: seq<Student>, selectedUsers: seq<string>): (r: Option<seq<string>>)
    ensures r.None? <==> |selectedUsers| > 0 && !AnySelectedPresent(students, selectedUsers)
    ensures r.Some? ==> r.value == CommonCoursesIntersection(students, selectedUsers)
  {
    SelectedStudentsEmpty(students, selectedUsers);
    if |selectedUsers| == 0 then Some([])
    else
      var sel := SelectedStudents(students, selectedUsers);
      if |sel| == 0 then None else Some(Intersect(sel))
  }

  /** The memoised computation (lines 93-105): no guard before `selectedStudents[0]`. */
  method ComputePageIntersection(students: seq<Student>, selectedUsers: seq<string>)
    returns (r: Option<seq<string>>)
    ensures r == PageIntersection(students, selectedUsers)
  {
    if |selectedUsers| == 0 {
      return Some([]);
    }
    var selectedStudents := SelectedStudents(students, selectedUsers);
    if |selectedStudents| == 0 {
      return None;
    }
    var intersection := IntersectCourses(selectedStudents);
    return Some(intersection);
  }

  /** Every selected zid is the zid of a listed student. */
  predicate SelectionListed(students: seq<Student>, selectedUsers: seq<string>) {
    forall k :: 0 <= k < |selectedUsers| ==> exists i :: 0 <= i < |students| && students[i].zid == selectedUsers[k]
  }

  /** A selection made only of listed zids never makes the intersection throw. */
  lemma ListedSelectionNeverThrows(students: seq<Student>, selectedUsers: seq<string>)
    requires SelectionListed(students, selectedUsers)
    ensures PageIntersection(students, selectedUsers).Some?
  {
    if |selectedUsers| > 0 {
      var i :| 0 <= i < |students| && students[i].zid == selectedUsers[0];
      assert students[i].zid in selectedUsers;
    }
  }

  /**
   * The page component's state after the classmates have loaded. Selection only ever comes
   * from clicking a listed student's card, so every selected zid is listed.
   */
  class SquadFormation {
    const students: seq<Student>
    var selectedUsers: seq<string>
    var searchQuery: string
    var filterCourse: seq<string>
    var showSameTutorial: bool
    var showTimeOverlap: bool
    var sortBy: SortKey

    ghost predicate Valid()
      reads this
    {
      && NoDups(selectedUsers)
      && NoDups(filterCourse)
      && SelectionListed(students, selectedUsers)
    }

    constructor(students: seq<Student>)
      ensures Valid()
      ensures this.students == students && selectedUsers == [] && searchQuery == "" && filterCourse == []
      ensures !showSameTutorial && !showTimeOverlap && sortBy == ByCommonCourses
    {
      this.students := students;
      selectedUsers := [];
      searchQuery := "";
      filterCourse := [];
      showSameTutorial := false;
      showTimeOverlap := false;
      sortBy := ByCommonCourses;
    }

    /** `commonCoursesIntersection`, which cannot throw in a valid state. */
    function Intersection(): (r: seq<string>)
      reads this
      requires Valid()
      ensures r == CommonCoursesIntersection(students, selectedUsers)
    {
      ListedSelectionNeverThrows(students, selectedUsers);
      PageIntersection(students, selectedUsers).value
    }

    /** `squadCourse`: the single filtered course, else the single shared course, else null. */
    function SquadCourse(): (r: Option<string>)
      reads this
      requires Valid()
      ensures r.Some? <==> |filterCourse| == 1 || |Intersection()| == 1
      ensures |filterCourse| == 1 ==> r == Some(filterCourse[0])
      ensures |filterCourse| != 1 && |Intersection()| == 1 ==> r == Some(Intersection()[0])
    {
      if |filterCourse| == 1 then Some(filterCourse[0])
      else if |Intersection()| == 1 then Some(Intersection()[0])
      else None
    }

    /** `isDisabled` of a course button (line 281). */
    predicate CourseDisabled(course: string)
      reads this
      requires Valid()
    {
      |selectedUsers| > 0 && course !in Intersection()
    }

    function ActiveFilterCount(): (n: nat)
      reads this
      ensures n >= |filterCourse|
      ensures n == 0 <==> filterCourse == [] && !showSameTutorial && !showTimeOverlap
    {
      |filterCourse| + (if showSameTutorial then 1 else 0) + (if showTimeOverlap then 1 else 0)
    }

    /**
     * `toggleUserSelection(zid)` for the zid of a listed card. Unlike the hook, nothing
     * touches the course filter afterwards.
     */
    method ToggleUserSelection(zid: string)
      requires Valid()
      requires exists i :: 0 <= i < |students| && students[i].zid == zid
      modifies this
      ensures Valid()
      ensures selectedUsers == Toggled(old(selectedUsers), zid)
      ensures filterCourse == old(filterCourse) && searchQuery == old(searchQuery) && sortBy == old(sortBy)
      ensures showSameTutorial == old(showSameTutorial) && showTimeOverlap == old(showTimeOverlap)
    {
      ToggledNoDups(selectedUsers, zid);
      selectedUsers := Toggled(selectedUsers, zid);
    }

    /** `onRemove(zid)` of the selected-users bar: drops every copy of the zid. */
    method RemoveSelected(zid: string)
      requires Valid()
      modifies this
      ensures Valid()
      ensures selectedUsers == Filter(old(selectedUsers), id => id != zid)
      ensures zid !in selectedUsers
      ensures filterCourse == old(filterCourse) && searchQuery == old(searchQuery) && sortBy == old(sortBy)
      ensures showSameTutorial == old(showSameTutorial) && showTimeOverlap == old(showTimeOverlap)
    {
      FilterNoDups(selectedUsers, id => id != zid);
      selectedUsers := Filter(selectedUsers, id => id != zid);
    }

    /** `toggleCourseFilter(course)`: refused exactly when the course button is disabled. */
    method ToggleCourseFilter(course: string)
      requires Valid()
      modifies this
      ensures Valid()
      ensures filterCourse == if old(CourseDisabled(course)) then old(filterCourse) else Toggled(old(filterCourse), course)
      ensures selectedUsers == old(selectedUsers) && searchQuery == old(searchQuery) && sortBy == old(sortBy)
      ensures showSameTutorial == old(showSameTutorial) && showTimeOverlap == old(showTimeOverlap)
    {
      if |selectedUsers| > 0 && course !in Intersection() {
        return;
      }
      ToggledNoDups(filterCourse, course);
      filterCourse := Toggled(filterCourse, course);
    }

    /** `deselectAll`: clears the selection and the course filter only. */
    method DeselectAll()
      requires Valid()
      modifies this
      ensures Valid()
      ensures selectedUsers == [] && filterCourse == []
      ensures searchQuery == old(searchQuery) && sortBy == old(sortBy)
      ensures showSameTutorial == old(showSameTutorial) && showTimeOverlap == old(showTimeOverlap)
    {
      selectedUsers := [];
      filterCourse := [];
    }

    /** `clearAllFilters`: no active filter remains; the selection and sort key are kept. */
    method ClearAllFilters()
      requires Valid()
      modifies this
      ensures Valid()
      ensures ActiveFilterCount() == 0 && searchQuery == ""
      ensures selectedUsers == old(selectedUsers) && sortBy == old(sortBy)
    {
      filterCourse := [];
      showSameTutorial := false;
      showTimeOverlap := false;
      searchQuery := "";
    }

    /**
     * `filteredStudents`, sorted in place. A missing degree is searched as the empty string,
     * so no student makes the filter throw.
     */
    method FilteredStudents(collate: (string, string) -> bool) returns (r: seq<Student>)
      ensures r == Listed(students, searchQuery, filterCourse, showSameTutorial, showTimeOverlap, sortBy, collate)
    {
      var filtered := Kept(students, searchQuery, filterCourse, showSameTutorial, showTimeOverlap);
      var a := new Student[|filtered|](i requires 0 <= i < |filtered| => filtered[i]);
      assert a[..] == filtered;
      SortInPlace(a, SortLeq(sortBy, collate));
      r := a[..];
    }
  }

  /**
   * Without the hook's reset effect the page can name a squad course that a selected student
   * does not take: with nothing selected, filter on MATH1081 and COMP1511, select a student who
   * shares only COMP1511, then toggle COMP1511 off. The filter is left holding MATH1081 alone.
   */
  method SquadCourseNotShared() returns (page: SquadFormation)
    ensures page.Valid()
    ensures page.selectedUsers == ["z1"] && |page.students| == 1 && page.students[0].zid == "z1"
    ensures page.SquadCourse() == Some("MATH1081")
    ensures "MATH1081" !in page.students[0].commonCourses
  {
    var zoe := Zoe();
    page := new SquadFormation([zoe]);
    CounterexampleToggles();
    page.ToggleCourseFilter("MATH1081");
    page.ToggleCourseFilter("COMP1511");
    assert page.students[0].zid == "z1";
    page.ToggleUserSelection("z1");
    ZoeSharesOnlyComp();
    page.ToggleCourseFilter("COMP1511");
  }

  /** The one student of the counterexample, who takes COMP1511 only. */
  function Zoe(): (s: Student)
    ensures s.zid == "z1" && s.commonCourses == ["COMP1511"]
  {
    Student("1", "z1", "Zoe", "Ng", None, ["COMP1511"], false, false, [])
  }

  /** The toggles of the counterexample, step by step. */
  lemma CounterexampleToggles()
    ensures Toggled([], "MATH1081") == ["MATH1081"]
    ensures Toggled(["MATH1081"], "COMP1511") == ["MATH1081", "COMP1511"]
    ensures Toggled([], "z1") == ["z1"]
    ensures Toggled(["MATH1081", "COMP1511"], "COMP1511") == ["MATH1081"]
  {
    assert Filter(["MATH1081", "COMP1511"], y => y != "COMP1511") == ["MATH1081"];
  }

  /** With the counterexample's student selected, COMP1511 is the only shared course. */
  lemma ZoeSharesOnlyComp()
    ensures CommonCoursesIntersection([Zoe()], ["z1"]) == ["COMP1511"]
  {
    var zoe := Zoe();
    assert SelectedStudents([zoe], ["z1"]) == [zoe];
    assert Dedup(["COMP1511"]) == ["COMP1511"];
  }
}

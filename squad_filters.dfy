/**
 * The `useSquadFilters` hook (src/hooks/use-squad-filters.ts): the selection and filter state
 * of the squad-formation page, the course intersection that gates course filters, the implied
 * squad course, and the filtered, sorted student list.
 */
module SquadFiltersHook {
  import opened Common
  import opened Seqs
  import opened StableSort
  import opened Students

  /** The students kept by the list filter, in list order. */
  function Kept(students: seq<Student>, query: string, filterCourse: seq<string>,
                sameTutorialOnly: bool, timeOverlapOnly: bool): (r: seq<Student>)
    ensures forall i :: 0 <= i < |r| ==> r[i] in students
    ensures forall i :: 0 <= i < |r| ==> KeepStudent(r[i], query, filterCourse, sameTutorialOnly, timeOverlapOnly)
    ensures forall i :: 0 <= i < |students| && KeepStudent(students[i], query, filterCourse, sameTutorialOnly, timeOverlapOnly) ==>
      students[i] in r
  {
    Filter(students, (s: Student) => KeepStudent(s, query, filterCourse, sameTutorialOnly, timeOverlapOnly))
  }

  /** Some student reaches the degree test without a degree, where `degree.toLowerCase()` throws. */
  predicate DegreeThrows(students: seq<Student>, query: string) {
    exists i :: 0 <= i < |students| && SearchReachesDegree(students[i], query) && students[i].degree.None?
  }

  /** The kept students after the in-place sort by the chosen key. */
  function Listed(students: seq<Student>, query: string, filterCourse: seq<string>,
                  sameTutorialOnly: bool, timeOverlapOnly: bool,
                  sortBy: SortKey, collate: (string, string) -> bool): seq<Student>
  {
    Sort(Kept(students, query, filterCourse, sameTutorialOnly, timeOverlapOnly), SortLeq(sortBy, collate))
  }

  /** The listed students are exactly the kept ones, each as often as in the input. */
  lemma ListedIsPermutationOfKept(students: seq<Student>, query: string, filterCourse: seq<string>,
                                  sameTutorialOnly: bool, timeOverlapOnly: bool,
                                  sortBy: SortKey, collate: (string, string) -> bool)
    ensures multiset(Listed(students, query, filterCourse, sameTutorialOnly, timeOverlapOnly, sortBy, collate))
      == multiset(Kept(students, query, filterCourse, sameTutorialOnly, timeOverlapOnly))
    ensures forall s :: s in Listed(students, query, filterCourse, sameTutorialOnly, timeOverlapOnly, sortBy, collate) <==>
      s in students && KeepStudent(s, query, filterCourse, sameTutorialOnly, timeOverlapOnly)
  {
    var kept := Kept(students, query, filterCourse, sameTutorialOnly, timeOverlapOnly);
    SortPermutation(kept, SortLeq(sortBy, collate));
    var r := Listed(students, query, filterCourse, sameTutorialOnly, timeOverlapOnly, sortBy, collate);
    forall s ensures s in r <==> s in kept {
      assert s in r <==> s in multiset(r);
    }
  }

  /** Sorting by common courses is a total preorder on students. */
  lemma CourseCountOrderIsTotal(collate: (string, string) -> bool)
    ensures TotalPreorder(SortLeq(ByCommonCourses, collate))
  {
  }

  /**
   * Sorting by common courses lists students with more common courses first, and students with
   * equally many stay in their input order.
   */
  lemma ListedByCourseCount(students: seq<Student>, query: string, filterCourse: seq<string>,
                            sameTutorialOnly: bool, timeOverlapOnly: bool,
                            collate: (string, string) -> bool, n: nat)
    ensures var r := Listed(students, query, filterCourse, sameTutorialOnly, timeOverlapOnly, ByCommonCourses, collate);
      forall i, j :: 0 <= i < j < |r| ==> |r[i].commonCourses| >= |r[j].commonCourses|
    ensures var kept := Kept(students, query, filterCourse, sameTutorialOnly, timeOverlapOnly);
      Filter(Listed(students, query, filterCourse, sameTutorialOnly, timeOverlapOnly, ByCommonCourses, collate),
             (s: Student) => |s.commonCourses| == n)
      == Filter(kept, (s: Student) => |s.commonCourses| == n)
  {
    var kept := Kept(students, query, filterCourse, sameTutorialOnly, timeOverlapOnly);
    var leq := SortLeq(ByCommonCourses, collate);
    CourseCountOrderIsTotal(collate);
    SortSorted(kept, leq);
    SortStable(kept, leq, (s: Student) => |s.commonCourses| == n);
  }

  /**
   * With a consistent collation, sorting by name orders the list by full name, and students
   * whose names collate as equal keep their input order.
   */
  lemma ListedByName(students: seq<Student>, query: string, filterCourse: seq<string>,
                     sameTutorialOnly: bool, timeOverlapOnly: bool,
                     collate: (string, string) -> bool, name: string)
    requires TotalPreorder(collate)
    ensures var r := Listed(students, query, filterCourse, sameTutorialOnly, timeOverlapOnly, ByName, collate);
      forall i, j :: 0 <= i < j < |r| ==> collate(FullName(r[i]), FullName(r[j]))
    ensures var kept := Kept(students, query, filterCourse, sameTutorialOnly, timeOverlapOnly);
      var tie := (s: Student) => collate(FullName(s), name) && collate(name, FullName(s));
      Filter(Listed(students, query, filterCourse, sameTutorialOnly, timeOverlapOnly, ByName, collate), tie)
      == Filter(kept, tie)
  {
    var kept := Kept(students, query, filterCourse, sameTutorialOnly, timeOverlapOnly);
    var leq := SortLeq(ByName, collate);
    assert TotalPreorder(leq) by {
      forall a: Student, b: Student ensures leq(a, b) || leq(b, a) {
        assert collate(FullName(a), FullName(b)) || collate(FullName(b), FullName(a));
      }
      forall a: Student, b: Student, c: Student | leq(a, b) && leq(b, c) ensures leq(a, c) {
        assert collate(FullName(a), FullName(b)) && collate(FullName(b), FullName(c));
      }
    }
    SortSorted(kept, leq);
    var tie := (s: Student) => collate(FullName(s), name) && collate(name, FullName(s));
    forall i, j | 0 <= i < |kept| && 0 <= j < |kept| && tie(kept[i]) && tie(kept[j])
      ensures leq(kept[i], kept[j])
    {
      assert collate(FullName(kept[i]), name) && collate(name, FullName(kept[j]));
    }
    SortStable(kept, leq, tie);
  }

  /** The hook's state. `students` is the prop the hook is called with. */
  class SquadFilters {
    var students: seq<Student>
    var selectedUsers: seq<string>
    var searchQuery: string
    var filterCourse: seq<string>
    var showSameTutorial: bool
    var showTimeOverlap: bool
    var sortBy: SortKey

    /**
     * Neither list holds an id twice, and while someone is selected every filtered course is
     * shared by all selected students.
     */
    ghost predicate Valid()
      reads this
    {
      && NoDups(selectedUsers)
      && NoDups(filterCourse)
      && (|selectedUsers| > 0 ==> forall i :: 0 <= i < |filterCourse| ==> filterCourse[i] in Intersection())
    }

    constructor(students: seq<Student>)
      ensures Valid()
      ensures this.students == students && selectedUsers == [] && searchQuery == "" && filterCourse == []
      ensures !showSameTutorial && !showTimeOverlap && sortBy == ByCommonCourses
    {
      this.students := students;
      selectedUsers := [];
      searchQuery := "";
      filterCourse := [];
      showSameTutorial := false;
      showTimeOverlap := false;
      sortBy := ByCommonCourses;
    }

    /** `commonCoursesIntersection`. */
    function Intersection(): seq<string>
      reads this
    {
      CommonCoursesIntersection(students, selectedUsers)
    }

    /** `squadCourse`: the single filtered course, else the single shared course, else null. */
    function SquadCourse(): (r: Option<string>)
      reads this
      ensures r.Some? <==> |filterCourse| == 1 || |Intersection()| == 1
      ensures r.Some? ==> r.value in filterCourse || r.value in Intersection()
      ensures |filterCourse| == 1 ==> r == Some(filterCourse[0])
    {
      if |filterCourse| == 1 then Some(filterCourse[0])
      else if |Intersection()| == 1 then Some(Intersection()[0])
      else None
    }

    /** `activeFilterCount`: filtered courses plus the flags that are on. */
    function ActiveFilterCount(): (n: nat)
      reads this
      ensures n >= |filterCourse|
      ensures n == 0 <==> filterCourse == [] && !showSameTutorial && !showTimeOverlap
    {
      |filterCourse| + (if showSameTutorial then 1 else 0) + (if showTimeOverlap then 1 else 0)
    }

    /**
     * While someone is selected, the squad course (if any) is a course that every selected
     * student who is listed has in common.
     */
    lemma SquadCourseIsShared(c: string)
      requires Valid() && |selectedUsers| > 0 && SquadCourse() == Some(c)
      ensures AnySelectedPresent(students, selectedUsers)
      ensures forall i :: 0 <= i < |students| && students[i].zid in selectedUsers ==> c in students[i].commonCourses
    {
      assert c in Intersection();
      CommonCoursesIntersectionMembership(students, selectedUsers, c);
    }

    /** The effect on `[selectedUsers, commonCoursesIntersection]`. */
    method SyncFilterCourse()
      requires NoDups(selectedUsers)
      modifies this
      ensures Valid()
      ensures filterCourse == if |selectedUsers| == 0 then [] else Intersection()
      ensures students == old(students) && selectedUsers == old(selectedUsers)
      ensures searchQuery == old(searchQuery) && sortBy == old(sortBy)
      ensures showSameTutorial == old(showSameTutorial) && showTimeOverlap == old(showTimeOverlap)
    {
      if |selectedUsers| == 0 {
        filterCourse := [];
      } else {
        filterCourse := Intersection();
        if |Intersection()| > 0 {
          CommonCoursesIntersectionMembership(students, selectedUsers, Intersection()[0]);
        }
      }
    }

    /**
     * `toggleUserSelection(zid)` followed by the effect it triggers: the zid is removed (every
     * copy) or appended, and the course filter is reset to the new intersection.
     */
    method ToggleUserSelection(zid: string)
      requires Valid()
      modifies this
      ensures Valid()
      ensures selectedUsers == Toggled(old(selectedUsers), zid)
      ensures filterCourse == if |selectedUsers| == 0 then [] else Intersection()
      ensures students == old(students) && searchQuery == old(searchQuery) && sortBy == old(sortBy)
      ensures showSameTutorial == old(showSameTutorial) && showTimeOverlap == old(showTimeOverlap)
    {
      ToggledNoDups(selectedUsers, zid);
      selectedUsers := Toggled(selectedUsers, zid);
      SyncFilterCourse();
    }

    /**
     * `toggleCourseFilter(course)`: refused while someone is selected and the course is not
     * shared; otherwise the course's membership in the filter flips.
     */
    method ToggleCourseFilter(course: string)
      requires Valid()
      modifies this
      ensures Valid()
      ensures filterCourse ==
        if |selectedUsers| > 0 && course !in Intersection() then old(filterCourse)
        else Toggled(old(filterCourse), course)
      ensures students == old(students) && selectedUsers == old(selectedUsers)
      ensures searchQuery == old(searchQuery) && sortBy == old(sortBy)
      ensures showSameTutorial == old(showSameTutorial) && showTimeOverlap == old(showTimeOverlap)
    {
      if |selectedUsers| > 0 && course !in Intersection() {
        return;
      }
      ToggledNoDups(filterCourse, course);
      filterCourse := Toggled(filterCourse, course);
    }

    /** `deselectAll`: clears the selection and the course filter only. */
    method DeselectAll()
      requires Valid()
      modifies this
      ensures Valid()
      ensures selectedUsers == [] && filterCourse == []
      ensures students == old(students) && searchQuery == old(searchQuery) && sortBy == old(sortBy)
      ensures showSameTutorial == old(showSameTutorial) && showTimeOverlap == old(showTimeOverlap)
    {
      selectedUsers := [];
      filterCourse := [];
    }

    /** `clearAllFilters`: no active filter remains; the selection and sort key are kept. */
    method ClearAllFilters()
      requires Valid()
      modifies this
      ensures Valid()
      ensures ActiveFilterCount() == 0 && searchQuery == ""
      ensures students == old(students) && selectedUsers == old(selectedUsers) && sortBy == old(sortBy)
    {
      filterCourse := [];
      showSameTutorial := false;
      showTimeOverlap := false;
      searchQuery := "";
    }

    method SetSearchQuery(query: string)
      requires Valid()
      modifies this
      ensures Valid()
      ensures searchQuery == query
      ensures students == old(students) && selectedUsers == old(selectedUsers) && filterCourse == old(filterCourse)
      ensures showSameTutorial == old(showSameTutorial) && showTimeOverlap == old(showTimeOverlap) && sortBy == old(sortBy)
    {
      searchQuery := query;
    }

    method SetShowSameTutorial(on: bool)
      requires Valid()
      modifies this
      ensures Valid()
      ensures showSameTutorial == on
      ensures students == old(students) && selectedUsers == old(selectedUsers) && filterCourse == old(filterCourse)
      ensures searchQuery == old(searchQuery) && showTimeOverlap == old(showTimeOverlap) && sortBy == old(sortBy)
    {
      showSameTutorial := on;
    }

    method SetShowTimeOverlap(on: bool)
      requires Valid()
      modifies this
      ensures Valid()
      ensures showTimeOverlap == on
      ensures students == old(students) && selectedUsers == old(selectedUsers) && filterCourse == old(filterCourse)
      ensures searchQuery == old(searchQuery) && showSameTutorial == old(showSameTutorial) && sortBy == old(sortBy)
    {
      showTimeOverlap := on;
    }

    method SetSortBy(key: SortKey)
      requires Valid()
      modifies this
      ensures Valid()
      ensures sortBy == key
      ensures students == old(students) && selectedUsers == old(selectedUsers) && filterCourse == old(filterCourse)
      ensures searchQuery == old(searchQuery) && showSameTutorial == old(showSameTutorial)
      ensures showTimeOverlap == old(showTimeOverlap)
    {
      sortBy := key;
    }

    /** A new `students` prop recomputes the intersection, and the effect resynchronises. */
    method SetStudents(students: seq<Student>)
      requires Valid()
      modifies this
      ensures Valid()
      ensures this.students == students && selectedUsers == old(selectedUsers)
      ensures filterCourse == if |selectedUsers| == 0 then [] else Intersection()
      ensures searchQuery == old(searchQuery) && sortBy == old(sortBy)
      ensures showSameTutorial == old(showSameTutorial) && showTimeOverlap == old(showTimeOverlap)
    {
      this.students := students;
      SyncFilterCourse();
    }

    /**
     * `filteredStudents`: filter the students, then sort the fresh array in place. The hook
     * lower-cases `degree` without a null check, so a student whose name and zid do not match
     * the query and who has no degree makes the filter throw a TypeError: `None`.
     */
    method FilteredStudents(collate: (string, string) -> bool) returns (r: Option<seq<Student>>)
      ensures r.None? <==> DegreeThrows(students, searchQuery)
      ensures r.Some? ==> r.value == Listed(students, searchQuery, filterCourse, showSameTutorial, showTimeOverlap, sortBy, collate)
    {
      if DegreeThrows(students, searchQuery) {
        return None;
      }
      var filtered := Kept(students, searchQuery, filterCourse, showSameTutorial, showTimeOverlap);
      var a := new Student[|filtered|](i requires 0 <= i < |filtered| => filtered[i]);
      assert a[..] == filtered;
      SortInPlace(a, SortLeq(sortBy, collate));
      r := Some(a[..]);
    }
  }
}

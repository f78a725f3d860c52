/**
 * The gating predicates of the selected-users bar (src/components/squad/SelectedUsersBar.tsx):
 * whether a squad can be formed, the "no common course" warning, and the tooltip shown on the
 * disabled Form Squad button.
 */
module SelectedUsersBar {
  import opened Common
  import opened Students
  import opened SquadFiltersHook

  /** `canFormSquad`: a squad course is known, or the selection shares some course. */
  predicate CanFormSquad(squadCourse: Option<string>, intersection: seq<string>) {
    squadCourse.Some? || |intersection| > 0
  }

  /** `showWarning`: two or more are selected and they share no course. */
  predicate ShowWarning(selectedUsers: seq<string>, intersection: seq<string>) {
    |selectedUsers| >= 2 && |intersection| == 0
  }

  /** The Form Squad button's `disabled`. */
  predicate FormSquadDisabled(squadCourse: Option<string>, intersection: seq<string>) {
    !CanFormSquad(squadCourse, intersection)
  }

  datatype TooltipReason = SelectAtLeastTwo | NoCourseInCommon | SelectSingleCourse

  /** The tooltip text, present only while the button is disabled. */
  function Tooltip(selectedUsers: seq<string>, squadCourse: Option<string>, intersection: seq<string>): (r: Option<TooltipReason>)
    ensures r.Some? <==> FormSquadDisabled(squadCourse, intersection)
    ensures r != Some(SelectSingleCourse)
    ensures r == Some(SelectAtLeastTwo) ==> |selectedUsers| < 2
    ensures r == Some(NoCourseInCommon) <==> ShowWarning(selectedUsers, intersection) && squadCourse.None?
  {
    if CanFormSquad(squadCourse, intersection) then None
    else if |selectedUsers| < 2 then Some(SelectAtLeastTwo)
    else if |intersection| == 0 then Some(NoCourseInCommon)
    else Some(SelectSingleCourse)
  }

  /**
   * Driven by the hook, while someone is selected the button is enabled exactly when the
   * selected students share a course: a squad course alone never enables it.
   */
  lemma HookCanFormSquadIffShared(hook: SquadFilters)
    requires hook.Valid() && |hook.selectedUsers| > 0
    ensures CanFormSquad(hook.SquadCourse(), hook.Intersection()) <==> |hook.Intersection()| > 0
  {
    if hook.SquadCourse().Some? && |hook.filterCourse| == 1 {
      assert hook.filterCourse[0] in hook.Intersection();
    }
  }

  /**
   * The count of selected students does not enter the gate: a single selected student with a
   * common course enables the button, even though the tooltip asks for at least two.
   */
  lemma OneStudentCanFormSquad(students: seq<Student>, k: nat)
    requires k < |students| && |students[k].commonCourses| > 0
    requires forall i :: 0 <= i < |students| && students[i].zid == students[k].zid ==> i == k
    ensures CanFormSquad(None, CommonCoursesIntersection(students, [students[k].zid]))
  {
    var c := students[k].commonCourses[0];
    assert AnySelectedPresent(students, [students[k].zid]);
    CommonCoursesIntersectionMembership(students, [students[k].zid], c);
  }
}

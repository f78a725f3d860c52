/**
 * The Create Squad form opened from the selected-users bar
 * (src/components/squad/squad-form-dialog.tsx). Its asynchronous submit handler is split at
 * the `await`: `BeginSubmit` runs up to the call of `onSubmit`, `FinishSubmit` runs after the
 * call settles.
 */
module SquadFormDialog {
  import opened Common
  import opened Text
  import opened Students
  import opened SquadFiltersHook

  /** The arguments handed to `onSubmit`. */
  datatype SubmitCall = SubmitCall(name: string, description: string, course: string, currentUserId: string)

  /** The guard of `handleSubmit` and the arguments it hands to `onSubmit`. */
  function SubmitArguments(name: string, description: string, course: string, userId: string): (call: Option<SubmitCall>)
    ensures call.Some? <==> Trim(name) != "" && course != ""
    ensures call.Some? ==> call.value == SubmitCall(Trim(name), Trim(description), course, userId)
  {
    var trimmedName := Trim(name);
    if trimmedName == "" || course == "" then None
    else Some(SubmitCall(trimmedName, Trim(description), course, userId))
  }

  /** `squadCourse ? … : …`: a squad course is shown only when it is a non-empty string. */
  predicate Truthy(course: Option<string>) {
    course.Some? && course.value != ""
  }

  /** The courses the user can pick from: the squad course alone, or the shared courses. */
  function CourseChoices(squadCourse: Option<string>, intersection: seq<string>): (r: seq<string>)
    ensures !Truthy(squadCourse) ==> r == intersection
    ensures Truthy(squadCourse) ==> r == [squadCourse.value]
  {
    if Truthy(squadCourse) then [squadCourse.value] else intersection
  }

  /**
   * The form's state. The props `squadCourse`, `intersection` and `selectedCount` change when the
   * bar re-renders the mounted dialog; `useState` keeps `selectedCourse` across those renders.
   */
  class SquadForm {
    var squadCourse: Option<string>
    var intersection: seq<string>
    var selectedCount: nat
    const currentUserId: string
    var name: string
    var description: string
    var selectedCourse: string
    var isSubmitting: bool

    /** The course the form would submit is none or one the form shows for the current props. */
    ghost predicate Valid()
      reads this
    {
      selectedCourse == "" || selectedCourse in CourseChoices(squadCourse, intersection)
    }

    constructor(squadCourse: Option<string>, intersection: seq<string>, selectedCount: nat, currentUserId: string)
      ensures Valid()
      ensures this.squadCourse == squadCourse && this.intersection == intersection
      ensures this.selectedCount == selectedCount && this.currentUserId == currentUserId
      ensures name == "" && description == "" && selectedCourse == squadCourse.GetOr("") && !isSubmitting
    {
      this.squadCourse := squadCourse;
      this.intersection := intersection;
      this.selectedCount := selectedCount;
      this.currentUserId := currentUserId;
      name := "";
      description := "";
      selectedCourse := squadCourse.GetOr("");
      isSubmitting := false;
    }

    /** "Squad Members (n)": the selected students plus the creator. */
    function MemberCount(): (n: nat)
      reads this
      ensures n == selectedCount + 1
    {
      selectedCount + 1
    }

    /** The submit button's `disabled`. */
    predicate SubmitDisabled()
      reads this
    {
      Trim(name) == "" || selectedCourse == "" || isSubmitting
    }

    method SetName(text: string)
      modifies this
      ensures Valid() == old(Valid())
      ensures squadCourse == old(squadCourse) && intersection == old(intersection) && selectedCount == old(selectedCount)
      ensures name == text && description == old(description) && selectedCourse == old(selectedCourse)
      ensures isSubmitting == old(isSubmitting)
    {
      name := text;
    }

    method SetDescription(text: string)
      modifies this
      ensures Valid() == old(Valid())
      ensures squadCourse == old(squadCourse) && intersection == old(intersection) && selectedCount == old(selectedCount)
      ensures description == text && name == old(name) && selectedCourse == old(selectedCourse)
      ensures isSubmitting == old(isSubmitting)
    {
      description := text;
    }

    /** Clicking one of the offered course buttons. */
    method SelectCourse(course: string)
      modifies this
      requires !Truthy(squadCourse) && course in intersection
      ensures Valid()
      ensures squadCourse == old(squadCourse) && intersection == old(intersection) && selectedCount == old(selectedCount)
      ensures selectedCourse == course && name == old(name) && description == old(description)
      ensures isSubmitting == old(isSubmitting)
    {
      selectedCourse := course;
    }

    /**
     * The mounted dialog re-rendered with new props, as written: `useState` ignores the new
     * initial value, so the course chosen under the old props stays selected.
     */
    method ReceiveProps(squadCourse: Option<string>, intersection: seq<string>, selectedCount: nat)
      modifies this
      ensures this.squadCourse == squadCourse && this.intersection == intersection
      ensures this.selectedCount == selectedCount
      ensures name == old(name) && description == old(description) && selectedCourse == old(selectedCourse)
      ensures isSubmitting == old(isSubmitting)
    {
      this.squadCourse, this.intersection, this.selectedCount := squadCourse, intersection, selectedCount;
    }

    /**
     * The re-render as intended: a chosen course that the new props no longer show is replaced
     * by the new initial value, `squadCourse || ""`.
     */
    method ReceivePropsSynced(squadCourse: Option<string>, intersection: seq<string>, selectedCount: nat)
      modifies this
      requires Valid()
      ensures Valid()
      ensures this.squadCourse == squadCourse && this.intersection == intersection
      ensures this.selectedCount == selectedCount
      ensures old(selectedCourse) in CourseChoices(squadCourse, intersection) ==> selectedCourse == old(selectedCourse)
      ensures old(selectedCourse) !in CourseChoices(squadCourse, intersection) ==> selectedCourse == squadCourse.GetOr("")
      ensures name == old(name) && description == old(description) && isSubmitting == old(isSubmitting)
    {
      this.squadCourse, this.intersection, this.selectedCount := squadCourse, intersection, selectedCount;
      if selectedCourse !in CourseChoices(squadCourse, intersection) {
        selectedCourse := squadCourse.GetOr("");
      }
    }

    /**
     * `handleSubmit` up to the `await`: nothing happens without a trimmed name and a course;
     * otherwise the form is marked submitting and `onSubmit` receives the trimmed texts.
     */
    method BeginSubmit() returns (call: Option<SubmitCall>)
      modifies this
      ensures Valid() == old(Valid())
      ensures squadCourse == old(squadCourse) && intersection == old(intersection) && selectedCount == old(selectedCount)
      ensures call == SubmitArguments(old(name), old(description), old(selectedCourse), currentUserId)
      ensures call.Some? ==> isSubmitting
      ensures call.None? ==> isSubmitting == old(isSubmitting)
      ensures name == old(name) && description == old(description) && selectedCourse == old(selectedCourse)
    {
      call := SubmitArguments(name, description, selectedCourse, currentUserId);
      if call.Some? {
        isSubmitting := true;
      }
    }

    /**
     * `handleSubmit` after the `await`: on success the dialog closes and the fields reset; on
     * a thrown error they are kept. Either way the form stops submitting.
     */
    method FinishSubmit(succeeded: bool) returns (closed: bool)
      modifies this
      ensures succeeded || old(Valid()) ==> Valid()
      ensures !succeeded ==> Valid() == old(Valid())
      ensures squadCourse == old(squadCourse) && intersection == old(intersection) && selectedCount == old(selectedCount)
      ensures closed == succeeded
      ensures !isSubmitting
      ensures succeeded ==> name == "" && description == "" && selectedCourse == squadCourse.GetOr("")
      ensures !succeeded ==> name == old(name) && description == old(description) && selectedCourse == old(selectedCourse)
    {
      closed := false;
      if succeeded {
        closed := true;
        name := "";
        description := "";
        selectedCourse := squadCourse.GetOr("");
      }
      isSubmitting := false;
    }
  }

  /**
   * Opened from the hook's page and kept in step with its props by `ReceivePropsSynced`, the
   * form can only submit a course that every selected listed student has in common.
   */
  lemma SubmittedCourseIsShared(form: SquadForm, hook: SquadFilters)
    requires hook.Valid() && |hook.selectedUsers| > 0
    requires form.Valid() && form.squadCourse == hook.SquadCourse() && form.intersection == hook.Intersection()
    requires form.selectedCourse != ""
    ensures forall i :: 0 <= i < |hook.students| && hook.students[i].zid in hook.selectedUsers ==>
      form.selectedCourse in hook.students[i].commonCourses
  {
    if form.selectedCourse in form.intersection {
      CommonCoursesIntersectionMembership(hook.students, hook.selectedUsers, form.selectedCourse);
    } else {
      hook.SquadCourseIsShared(form.selectedCourse);
    }
  }

  /**
   * With the props changed under it, the form as written submits a course the new props do not
   * offer: choose MATH1081 while COMP1511 and MATH1081 are shared, then add a student who shares
   * only COMP1511, so that the dialog shows the COMP1511 badge.
   */
  method StaleCourseSubmitted() returns (form: SquadForm, call: Option<SubmitCall>)
    ensures form.squadCourse == Some("COMP1511") && form.intersection == ["COMP1511"]
    ensures CourseChoices(form.squadCourse, form.intersection) == ["COMP1511"]
    ensures call == Some(SubmitCall("Study", "", "MATH1081", "me"))
    ensures !form.Valid()
  {
    form := new SquadForm(None, ["COMP1511", "MATH1081"], 1, "me");
    form.SelectCourse("MATH1081");
    form.SetName("Study");
    form.ReceiveProps(Some("COMP1511"), ["COMP1511"], 2);
    TrimOfUnpadded("Study");
    assert AllSpace("");
    call := form.BeginSubmit();
  }
}

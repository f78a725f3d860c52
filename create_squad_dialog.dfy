/**
 * The "Form Squad" dialog of src/components/squad/Dialog.tsx. Its asynchronous submit handler
 * is split at the `await createSquad(input)`: `BeginSubmit` validates and builds the input,
 * `FinishSubmit` reacts to the settled call.
 */
module CreateSquadDialog {
  import opened Common
  import opened Seqs
  import opened Text
  import opened Students

  /** `CreateSquadInput`. */
  datatype CreateSquadInput = CreateSquadInput(
    name: string, description: string, course: string, creatorId: string, userIds: seq<string>)

  /** How the awaited `createSquad` call settled. */
  datatype CreateOutcome = Created(squadId: string) | Failed | Threw

  datatype SubmitStart = Rejected(alert: string) | Started(input: CreateSquadInput)

  /** What the handler does after the call: navigate (after `onSuccess`, if any) or alert. */
  datatype SubmitEnd = Navigated(path: string, calledOnSuccess: bool) | Alerted(message: string)

  const FillInAlert := "Please fill in squad name and course"
  const FailedAlert := "Failed to create squad. Please try again."
  const UnexpectedAlert := "An unexpected error occurred. Please try again."

  /** `selectedStudents.map(s => s.id)`: ids of the selected students, in list order. */
  function InvitedIds(students: seq<Student>, selectedUsers: seq<string>): (ids: seq<string>)
    ensures |ids| == |SelectedStudents(students, selectedUsers)|
    ensures forall k :: 0 <= k < |ids| ==> ids[k] == SelectedStudents(students, selectedUsers)[k].id
  {
    var sel := SelectedStudents(students, selectedUsers);
    seq(|sel|, k requires 0 <= k < |sel| => sel[k].id)
  }

  /** Every invited id belongs to a listed student whose zid is selected. */
  lemma InvitedIdsAreSelected(students: seq<Student>, selectedUsers: seq<string>, k: nat)
    requires k < |InvitedIds(students, selectedUsers)|
    ensures exists i :: 0 <= i < |students| && students[i].zid in selectedUsers &&
                        students[i].id == InvitedIds(students, selectedUsers)[k]
  {
    var s := SelectedStudents(students, selectedUsers)[k];
    var i :| 0 <= i < |students| && students[i] == s;
  }

  /** The guard of `handleSubmit` and the input it builds from the trimmed fields. */
  function SubmitInput(name: string, description: string, course: string, creatorId: string,
                       userIds: seq<string>): (r: SubmitStart)
    ensures r.Rejected? <==> Trim(name) == "" || Trim(course) == ""
    ensures r.Rejected? ==> r.alert == FillInAlert
    ensures r.Started? ==> r.input == CreateSquadInput(Trim(name), Trim(description), Trim(course), creatorId, userIds)
  {
    var trimmedName, trimmedCourse := Trim(name), Trim(course);
    if trimmedName == "" || trimmedCourse == "" then Rejected(FillInAlert)
    else Started(CreateSquadInput(trimmedName, Trim(description), trimmedCourse, creatorId, userIds))
  }

  class FormSquadDialog {
    const initialCourse: string
    const selectedUsers: seq<string>
    const creatorUserId: string
    const students: seq<Student>
    const hasOnSuccess: bool
    var open: bool
    var name: string
    var description: string
    var course: string
    var isLoading: bool

    constructor(initialCourse: string, selectedUsers: seq<string>, creatorUserId: string,
                students: seq<Student>, hasOnSuccess: bool)
      ensures this.initialCourse == initialCourse && this.selectedUsers == selectedUsers
      ensures this.creatorUserId == creatorUserId && this.students == students
      ensures this.hasOnSuccess == hasOnSuccess
      ensures !open && name == "" && description == "" && course == initialCourse && !isLoading
    {
      this.initialCourse := initialCourse;
      this.selectedUsers := selectedUsers;
      this.creatorUserId := creatorUserId;
      this.students := students;
      this.hasOnSuccess := hasOnSuccess;
      open := false;
      name := "";
      description := "";
      course := initialCourse;
      isLoading := false;
    }

    /** `totalMembers`: the creator plus every selected zid. */
    function TotalMembers(): (n: nat)
      reads this
      ensures n == |selectedUsers| + 1
    {
      1 + |selectedUsers|
    }

    /** The trigger button's `disabled`. */
    predicate TriggerDisabled()
      reads this
      ensures TriggerDisabled() <==> TotalMembers() == 1
    {
      |selectedUsers| == 0
    }

    /**
     * `handleSubmit` up to the `await`: a blank trimmed name or course raises the alert and
     * stops; otherwise loading starts and the input is built from the trimmed fields.
     */
    method BeginSubmit() returns (r: SubmitStart)
      modifies this
      ensures r == SubmitInput(old(name), old(description), old(course), creatorUserId, InvitedIds(students, selectedUsers))
      ensures r.Rejected? ==> isLoading == old(isLoading)
      ensures r.Started? ==> isLoading
      ensures open == old(open) && name == old(name) && description == old(description) && course == old(course)
    {
      r := SubmitInput(name, description, course, creatorUserId, InvitedIds(students, selectedUsers));
      if r.Started? {
        isLoading := true;
      }
    }

    /**
     * `handleSubmit` after the `await`: success closes the dialog, resets the fields and
     * navigates to the new squad; a failure or an exception keeps the form and alerts. Loading
     * ends on every path.
     */
    method FinishSubmit(outcome: CreateOutcome) returns (r: SubmitEnd)
      modifies this
      ensures !isLoading
      ensures outcome.Created? ==>
        && r == Navigated("/" + outcome.squadId, hasOnSuccess)
        && !open && name == "" && description == "" && course == initialCourse
      ensures outcome.Failed? ==> r == Alerted(FailedAlert)
      ensures outcome.Threw? ==> r == Alerted(UnexpectedAlert)
      ensures !outcome.Created? ==>
        open == old(open) && name == old(name) && description == old(description) && course == old(course)
    {
      match outcome {
        case Created(squadId) =>
          open := false;
          name := "";
          description := "";
          course := initialCourse;
          r := Navigated("/" + squadId, hasOnSuccess);
        case Failed =>
          r := Alerted(FailedAlert);
        case Threw =>
          r := Alerted(UnexpectedAlert);
      }
      isLoading := false;
    }
  }
}

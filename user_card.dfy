/**
 * What a candidate's card shows (src/components/squad/UserCard.tsx): the tutorial and time
 * badges, the common-course badges highlighted when shared by the whole selection, and the
 * first two classes followed by a "+N more" line.
 */
module UserCard {
  import opened Common
  import opened Students

  datatype CourseBadge = CourseBadge(course: string, highlighted: bool)

  datatype ClassRow = ClassRow(enrolment: Enrolment, highlighted: bool)

  datatype CardView = CardView(
    sameTutorialBadge: bool,
    timeMatchBadge: bool,
    courseCount: nat,
    courseBadges: seq<CourseBadge>,
    classRows: seq<ClassRow>,
    moreClasses: Option<nat>)

  /** The rendered card for `student` given the selection's `commonCoursesIntersection`. */
  function RenderCard(student: Student, intersection: seq<string>): (v: CardView)
    ensures !(v.sameTutorialBadge && v.timeMatchBadge)
    ensures v.sameTutorialBadge || v.timeMatchBadge <==> student.sameTutorial || student.timeOverlap
    ensures v.sameTutorialBadge <==> student.sameTutorial
    ensures v.timeMatchBadge <==> student.timeOverlap && !student.sameTutorial
    ensures v.courseCount == |student.commonCourses| == |v.courseBadges|
    ensures forall i :: 0 <= i < |v.courseBadges| ==>
      v.courseBadges[i].course == student.commonCourses[i] &&
      (v.courseBadges[i].highlighted <==> student.commonCourses[i] in intersection)
    ensures |v.classRows| == if |student.enrolments| <= 2 then |student.enrolments| else 2
    ensures forall i :: 0 <= i < |v.classRows| ==>
      v.classRows[i].enrolment == student.enrolments[i] &&
      (v.classRows[i].highlighted <==> student.enrolments[i].course in intersection)
    ensures v.moreClasses.Some? <==> |student.enrolments| > 2
    ensures |v.classRows| + v.moreClasses.GetOr(0) == |student.enrolments|
  {
    var shown := if |student.enrolments| <= 2 then student.enrolments else student.enrolments[..2];
    CardView(
      student.sameTutorial,
      student.timeOverlap && !student.sameTutorial,
      |student.commonCourses|,
      seq(|student.commonCourses|, i requires 0 <= i < |student.commonCourses| =>
        CourseBadge(student.commonCourses[i], student.commonCourses[i] in intersection)),
      seq(|shown|, i requires 0 <= i < |shown| => ClassRow(shown[i], shown[i].course in intersection)),
      if |student.enrolments| > 2 then Some(|student.enrolments| - 2) else None)
  }

  /**
   * Once someone is selected, a highlighted course badge names a course that every selected
   * listed student has.
   */
  lemma HighlightedCourseIsShared(students: seq<Student>, selectedUsers: seq<string>, student: Student, k: nat)
    requires k < |RenderCard(student, CommonCoursesIntersection(students, selectedUsers)).courseBadges|
    requires RenderCard(student, CommonCoursesIntersection(students, selectedUsers)).courseBadges[k].highlighted
    ensures forall i :: 0 <= i < |students| && students[i].zid in selectedUsers ==>
      student.commonCourses[k] in students[i].commonCourses
  {
    CommonCoursesIntersectionMembership(students, selectedUsers, student.commonCourses[k]);
  }
}

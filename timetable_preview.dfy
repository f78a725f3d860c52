/**
 * The last onboarding step, src/app/onboarding/timetable-preview/page.tsx: it loads the saved
 * calendar link from the profile, submits it to the timetable import route once it is known,
 * and lists the distinct courses of the returned schedule. The profile query, the import
 * request and `encodeURIComponent` are parameters.
 */
module TimetablePreview {
  import opened Common
  import opened Seqs
  import opened Text
  import opened ParseIcal

  /** `schedule.map(item => item.course)`. */
  function Courses(schedule: seq<ScheduleEvent>): (r: seq<string>)
    ensures |r| == |schedule|
    ensures forall i :: 0 <= i < |schedule| ==> r[i] == schedule[i].course
  {
    seq(|schedule|, i requires 0 <= i < |schedule| => schedule[i].course)
  }

  /** `Array.from(new Set(schedule.map(item => item.course)))`. */
  function UniqueCourses(schedule: seq<ScheduleEvent>): (r: seq<string>)
    ensures NoDups(r)
    ensures forall c :: c in r <==> exists i :: 0 <= i < |schedule| && schedule[i].course == c
    ensures |r| <= |schedule|
    ensures forall i, j :: 0 <= i < j < |r| ==> IndexOf(Courses(schedule), r[i]) < IndexOf(Courses(schedule), r[j])
  {
    var courses := Courses(schedule);
    var r := Dedup(courses);
    assert forall c :: c in r ==> c in courses;
    assert forall i :: 0 <= i < |schedule| ==> courses[i] in r;
    r
  }

  /** A sequence without repeats has as many distinct elements as entries. */
  lemma {:induction false} NoDupsCardinality(s: seq<string>)
    requires NoDups(s)
    ensures |(set x | x in s)| == |s|
  {
    if s != [] {
      var init := s[..|s| - 1];
      NoDupsCardinality(init);
      assert (set x | x in s) == (set x | x in init) + {s[|s| - 1]};
      assert s[|s| - 1] !in init;
    }
  }

  /** The course count on the page is the number of distinct course names in the schedule. */
  lemma CourseCountIsDistinctCourses(schedule: seq<ScheduleEvent>)
    ensures |UniqueCourses(schedule)| == |(set i | 0 <= i < |schedule| :: schedule[i].course)|
  {
    var r := UniqueCourses(schedule);
    NoDupsCardinality(r);
    assert (set x | x in r) == (set i | 0 <= i < |schedule| :: schedule[i].course);
  }

  /** `profileData.ics_link || " "`: a missing or empty link becomes one space. */
  function IcsLinkOrSpace(icsLink: Option<string>): (r: string)
    ensures r != ""
    ensures icsLink.Some? && icsLink.value != "" ==> r == icsLink.value
    ensures icsLink.None? || icsLink == Some("") ==> r == " "
  {
    if icsLink.Some? && icsLink.value != "" then icsLink.value else " "
  }

  /** How the profile lookup ended. */
  datatype ProfileFetch = NotAuthenticated | ProfileMissing | Profile(icsLink: Option<string>)

  /** How the import request ended: a settled response, or a thrown error. */
  datatype ImportResponse = Status(status: nat, schedule: seq<ScheduleEvent>) | Threw

  const ProfileError := "An error occurred while fetching the iCal link."
  const StatusError := "Failed to fetch timetable data"
  const RequestError := "An error occurred while fetching the timetable."

  /** The import route address for a link. */
  function ImportUrl(icalLink: string, encode: string -> string): (r: string)
    ensures StartsWith(r, "/api/parse-ical?icalUrl=") && r[24..] == encode(icalLink)
  {
    "/api/parse-ical?icalUrl=" + encode(icalLink)
  }

  /** The auto-submit guard: a truthy link, not trimming to one space, while nothing is loading. */
  predicate AutoSubmits(icalLink: string, loading: bool) {
    icalLink != "" && Trim(icalLink) != " " && !loading
  }

  /**
   * A trimmed string never is a single space, so the middle test never fails: the guard is
   * "non-empty and not loading", and the placeholder `" "` itself is submitted.
   */
  lemma AutoSubmitGuardReduces(icalLink: string, loading: bool)
    ensures AutoSubmits(icalLink, loading) <==> icalLink != "" && !loading
    ensures AutoSubmits(" ", false)
  {
    TrimIsNeverSpace(icalLink);
    TrimIsNeverSpace(" ");
  }

  class Preview {
    var icalLink: string
    var loading: bool
    var error: Option<string>
    var schedule: seq<ScheduleEvent>

    constructor()
      ensures icalLink == "" && loading && error.None? && schedule == []
    {
      icalLink := "";
      loading := true;
      error := None;
      schedule := [];
    }

    /** The mount effect `fetchUserProfile` after the profile query settled. */
    method ProfileLoaded(fetched: ProfileFetch)
      modifies this
      ensures !loading && schedule == old(schedule)
      ensures fetched.Profile? ==> icalLink == IcsLinkOrSpace(fetched.icsLink) && error.None?
      ensures !fetched.Profile? ==> icalLink == old(icalLink) && error == Some(ProfileError)
    {
      loading := true;
      error := None;
      match fetched {
        case Profile(icsLink) =>
          icalLink := IcsLinkOrSpace(icsLink);
        case _ =>
          error := Some(ProfileError);
      }
      loading := false;
    }

    /** Whether the `[icalLink]` effect calls `handleSubmit` in the current state. */
    predicate LinkEffectSubmits()
      reads this
      ensures LinkEffectSubmits() <==> icalLink != "" && !loading
    {
      AutoSubmitGuardReduces(icalLink, loading);
      AutoSubmits(icalLink, loading)
    }

    /**
     * `handleSubmit`: a status 200 replaces the schedule, any other settled status records an
     * error and keeps it, a thrown request records the other error. Loading ends on every path.
     */
    method HandleSubmit(request: string -> ImportResponse, encode: string -> string)
      modifies this
      ensures !loading && icalLink == old(icalLink)
      ensures match request(ImportUrl(icalLink, encode))
        case Status(status, returned) =>
          if status == 200 then schedule == returned && error.None?
          else schedule == old(schedule) && error == Some(StatusError)
        case Threw => schedule == old(schedule) && error == Some(RequestError)
    {
      loading := true;
      error := None;
      var response := request(ImportUrl(icalLink, encode));
      match response {
        case Status(status, returned) =>
          if status == 200 {
            schedule := returned;
          } else {
            error := Some(StatusError);
          }
        case Threw =>
          error := Some(RequestError);
      }
      loading := false;
    }

    /** "We found N courses": shown once loading is over without an error. */
    function CourseCount(): (r: Option<nat>)
      reads this
      ensures r.Some? <==> !loading && error.None?
      ensures r.Some? ==> r.value == |UniqueCourses(schedule)| && r.value <= |schedule|
    {
      if !loading && error.None? then Some(|UniqueCourses(schedule)|) else None
    }
  }
}

# Chills, modelled in Dafny

Chills is a web app where university students find classmates who share their courses, form
study squads, import their timetable from an iCalendar feed and chat with their squad. This
project models the app's decision logic and proves properties about it. It has no user
interface, database, network or browser.

Squad formation:
- **Course intersection and filters.** The selected classmates' shared courses are intersected by
  a loop. The course filters stay within that intersection. The squad course is the single
  filtered or single shared course. The classmate list is filtered by search text, course and
  flags, then sorted by course count or by name. The sort is modelled as a stable insertion sort,
  both as a function and as an in-place array method.
- **Two copies of this state.** The shared hook (`SquadFiltersHook`) and the meowl page
  (`MeowlPage`) each hold the logic. The meowl page lacks the hook's resynchronising effect, which
  leads to the finding below.
- **Surrounding components.** These are the selected-users bar, the classmate card, the two squad
  dialogs, and the discover page with its `Set` of selected ids.
- **Server actions.** Squad creation with rollback, answering an invitation (a squad becomes
  active once every invitation is accepted), and a user's squad list. They run over in-memory
  tables.

Timetables:
- **The import route.** It classifies SUMMARY lines and stores enrolments one at a time,
  skipping duplicates.
- **The calendar proxy route.** It blocks private hosts and normalises `webcal://` addresses.
- **The calendar inspector.** Its download stops once the body exceeds 2 MB.
- **The onboarding pages.** These are the profile step and the timetable preview.
- **The weekly dashboard calendar.** It covers Monday arithmetic on day numbers, the columns for
  each weekday, and 12-hour time labels.

Chat:
- **The message list.** Messages are merged, de-duplicated by id and sorted by time.
- **Headers, ownership and the store effect.** The header and "own message" rules and the
  effect that stores new messages are modelled on both sides of an unresolved merge conflict.
- **The member sheet.** It splits members into online and offline.
- **A chat bubble.** The "chill" highlighting follows the ECMAScript `split` algorithm for the
  component's regular expression. The bubble also shows initials and a header.
- **Access helpers and the landing page.** These are the squad access checks and the landing
  page's typewriter.

How the model is written:
- Components whose state changes step by step are classes. Their handlers are methods whose
  `ensures` clauses give the new state. Pure computations are functions, and lemmas relate them.
- Calls into code the model cannot see are parameters: the database, `fetch`, `new URL`,
  `encodeURIComponent`, the iCalendar parser, `localeCompare` and `Number`. Failures are
  booleans or outcome datatypes.

## Model

| member | source | states |
|---|---|---|
| Students.IntersectPrefixClosedForm | src/hooks/use-squad-filters.ts:26-33 | after `n` students the loop holds the first student's distinct courses, in their order, that each of the `n` has |
| Students.IntersectCharacterised | src/hooks/use-squad-filters.ts:26-33 | a course is in the loop's intersection iff every selected student has it; no duplicates |
| Students.IntersectCourses | src/hooks/use-squad-filters.ts:26-33 | the `for` loop over the selected students returns exactly the intersection characterised above |
| Students.CommonCoursesIntersectionMembership | src/hooks/use-squad-filters.ts:20-34 | a course is in `commonCoursesIntersection` iff some selected zid is listed and every listed selected student has the course; no duplicates |
| Students.CommonCoursesIntersectionEmpty | src/hooks/use-squad-filters.ts:21-24 | an empty selection, or one naming no listed student, gives the empty intersection |
| Students.IntersectionShrinks | src/hooks/use-squad-filters.ts:26-31 | growing a selection that already names a listed student never adds a course to the intersection |
| Students.ComputeCommonCoursesIntersection | src/hooks/use-squad-filters.ts:20-34 | the memoised computation with its guards returns `commonCoursesIntersection` and its membership characterisation |
| Students.SelectedStudents | src/hooks/use-squad-filters.ts:23 | the selected students are exactly the listed students whose zid is selected, in list order |
| Students.SelectedStudentsEmpty | src/hooks/use-squad-filters.ts:23-24 | the selected students are empty iff no selected zid belongs to a listed student |
| Students.EmptyQueryMatchesAll | src/hooks/use-squad-filters.ts:89-93 | the empty search matches every student |
| StableSort.SortPermutation | src/hooks/use-squad-filters.ts:109-113 | the sort only reorders: its result is a permutation of its input |
| StableSort.SortSorted | src/hooks/use-squad-filters.ts:109-113 | with a consistent comparator the result is ordered |
| StableSort.SortStable | src/hooks/use-squad-filters.ts:109-113 | elements that compare equal keep their input order (the stability that ES2019 requires of `Array.prototype.sort`) |
| StableSort.SortInPlace | src/hooks/use-squad-filters.ts:109-113 | the in-place array sort leaves the array equal to the sort of its old contents |
| SquadFiltersHook.Kept | src/hooks/use-squad-filters.ts:88-106 | the kept students are exactly the listed ones passing search, course filter and both flag requirements |
| SquadFiltersHook.ListedIsPermutationOfKept | src/hooks/use-squad-filters.ts:87-116 | the listed students are the kept ones, each as often as in the input |
| SquadFiltersHook.CourseCountOrderIsTotal | src/hooks/use-squad-filters.ts:110 | the course-count comparator is a total preorder |
| SquadFiltersHook.ListedByCourseCount | src/hooks/use-squad-filters.ts:109-110 | by course count, more common courses come first, and ties keep list order |
| SquadFiltersHook.ListedByName | src/hooks/use-squad-filters.ts:111-112 | by name, the list is ordered by full name under the collation, and ties keep list order |
| SquadFiltersHook.SquadFilters.constructor | src/hooks/use-squad-filters.ts:12-17 | the initial state: nothing selected, no filters, sort by common courses |
| SquadFiltersHook.SquadFilters.SquadCourse | src/hooks/use-squad-filters.ts:46-50 | a squad course exists iff exactly one course is filtered or exactly one is shared; the filtered one wins |
| SquadFiltersHook.SquadFilters.ActiveFilterCount | src/hooks/use-squad-filters.ts:118 | the count is zero iff no course is filtered and both flags are off; it is at least the number of filtered courses |
| SquadFiltersHook.SquadFilters.SquadCourseIsShared | src/hooks/use-squad-filters.ts:37-50 | while someone is selected, the squad course is taken by every selected listed student |
| SquadFiltersHook.SquadFilters.SyncFilterCourse | src/hooks/use-squad-filters.ts:37-43 | the effect sets the course filter to `[]` for an empty selection, else to the intersection |
| SquadFiltersHook.SquadFilters.ToggleUserSelection | src/hooks/use-squad-filters.ts:53-62 | the zid is removed if present, else appended, and the filter is resynchronised; the invariant is kept |
| SquadFiltersHook.SquadFilters.ToggleCourseFilter | src/hooks/use-squad-filters.ts:65-70 | a course not shared by a non-empty selection is refused; otherwise its membership flips |
| SquadFiltersHook.SquadFilters.DeselectAll | src/hooks/use-squad-filters.ts:73-76 | the selection and course filter are cleared; nothing else changes |
| SquadFiltersHook.SquadFilters.ClearAllFilters | src/hooks/use-squad-filters.ts:79-84 | no active filter and an empty query remain; the selection and sort key are kept |
| SquadFiltersHook.SquadFilters.SetStudents | src/hooks/use-squad-filters.ts:20-43 | a new student list recomputes the intersection and the effect resynchronises the filter |
| SquadFiltersHook.SquadFilters.FilteredStudents | src/hooks/use-squad-filters.ts:87-116 | the filter throws (the TypeError of lower-casing a null degree) exactly when a student whose names and zid miss the query has no degree; otherwise the filter-then-sort-in-place computation returns the listed students |
| MeowlPage.PageIntersection | src/app/discover/meowl/page.tsx:93-105 | the page's intersection throws exactly when the selection is non-empty but names no listed student, and otherwise equals the hook's |
| MeowlPage.ComputePageIntersection | src/app/discover/meowl/page.tsx:93-105 | the loop computes the page's intersection, throw included |
| MeowlPage.ListedSelectionNeverThrows | src/app/discover/meowl/page.tsx:93-105 | a selection made only of listed zids never throws |
| MeowlPage.SquadFormation.ToggleUserSelection | src/app/discover/meowl/page.tsx:113-123 | toggling a listed student's zid flips it in the selection and leaves the course filter as it was |
| MeowlPage.SquadFormation.RemoveSelected | src/app/discover/meowl/page.tsx:442 | every copy of the zid leaves the selection |
| MeowlPage.SquadFormation.ToggleCourseFilter | src/app/discover/meowl/page.tsx:125-130 | refused exactly when the course button is disabled (line 281), else the course flips |
| MeowlPage.SquadFormation.DeselectAll | src/app/discover/meowl/page.tsx:132-135 | the selection and course filter are cleared |
| MeowlPage.SquadFormation.ClearAllFilters | src/app/discover/meowl/page.tsx:137-142 | no active filter and an empty query remain |
| MeowlPage.SquadFormation.SquadCourse | src/app/discover/meowl/page.tsx:107-111 | the single filtered course when exactly one is filtered, else the single shared course when exactly one is shared, else none |
| MeowlPage.SquadFormation.ActiveFilterCount | src/app/discover/meowl/page.tsx:144 | zero iff no course filter and both flags off |
| MeowlPage.SquadFormation.FilteredStudents | src/app/discover/meowl/page.tsx:146-171 | the filter (a missing degree searched as "") and in-place sort give the listed students |
| MeowlPage.SquadCourseNotShared | src/app/discover/meowl/page.tsx:107-142 | a reachable page state whose squad course is not taken by the selected student |
| SelectedUsersBar.Tooltip | src/components/squad/SelectedUsersBar.tsx:52-55 | a tooltip appears iff the button is disabled; "select a single course" never appears; the no-common-course reason appears iff the warning shows and there is no squad course |
| SelectedUsersBar.HookCanFormSquadIffShared | src/components/squad/SelectedUsersBar.tsx:52-53 | driven by the hook, with someone selected, the button is enabled iff the selection shares a course |
| SelectedUsersBar.OneStudentCanFormSquad | src/components/squad/SelectedUsersBar.tsx:52-53 | one selected student with a common course enables the button |
| UserCard.RenderCard | src/components/squad/UserCard.tsx:85-181 | the same-tutorial badge iff the same tutorial, the time badge iff a time overlap without it, so never both; one badge per common course, highlighted iff shared; the first two enrolments, then "+N more" accounting for the rest |
| UserCard.HighlightedCourseIsShared | src/components/squad/UserCard.tsx:134 | a highlighted course is taken by every selected listed student |
| SquadFormDialog.CourseChoices | src/components/squad/squad-form-dialog.tsx:157-179 | a truthy squad course is the only choice; otherwise the shared courses are offered |
| SquadFormDialog.SquadForm.constructor | src/components/squad/squad-form-dialog.tsx:51-54 | empty fields, with the course preset to the squad course or "" |
| SquadFormDialog.SquadForm.MemberCount | src/components/squad/squad-form-dialog.tsx:98 | the selected students plus the creator |
| SquadFormDialog.SquadForm.SetName | src/components/squad/squad-form-dialog.tsx:137 | typing the name changes only the name and keeps the form as valid, or as stale, as it was |
| SquadFormDialog.SquadForm.SetDescription | src/components/squad/squad-form-dialog.tsx:149 | typing the description changes only the description and keeps the form as valid, or as stale, as it was |
| SquadFormDialog.SquadForm.SelectCourse | src/components/squad/squad-form-dialog.tsx:179 | picking an offered course sets it, makes the form valid again and leaves the props alone |
| SquadFormDialog.SquadForm.BeginSubmit | src/components/squad/squad-form-dialog.tsx:56-67 | `onSubmit` is called iff the trimmed name and the course are non-empty, with the trimmed texts and the selected course |
| SquadFormDialog.SquadForm.ReceiveProps | src/components/squad/squad-form-dialog.tsx:47-53 | as written: new props replace the old ones and the selected course stays as it was |
| SquadFormDialog.SquadForm.ReceivePropsSynced | src/components/squad/squad-form-dialog.tsx:47-53 | as intended: a selected course the new props still show is kept, any other is replaced by the squad course or "", so the invariant holds |
| SquadFormDialog.StaleCourseSubmitted | src/components/squad/squad-form-dialog.tsx:53-67 | a reachable form showing only COMP1511 that submits MATH1081 |
| SquadFormDialog.SquadForm.FinishSubmit | src/components/squad/squad-form-dialog.tsx:68-77 | success closes and resets to a valid form; failure keeps the fields and the validity they had, stale course included; submitting ends either way; the props are kept |
| SquadFormDialog.SubmittedCourseIsShared | src/components/squad/squad-form-dialog.tsx:53-72 | with props from the hook kept in step by the synced re-render, the submitted course is taken by every selected listed student |
| CreateSquadDialog.InvitedIds | src/components/squad/Dialog.tsx:61-70 | the ids of the selected students, in list order |
| CreateSquadDialog.InvitedIdsAreSelected | src/components/squad/Dialog.tsx:61-63 | every invited id belongs to a listed student whose zid is selected |
| CreateSquadDialog.FormSquadDialog.TotalMembers | src/components/squad/Dialog.tsx:103 | the creator plus every selected zid |
| CreateSquadDialog.FormSquadDialog.TriggerDisabled | src/components/squad/Dialog.tsx:108 | disabled iff the creator is the only member |
| CreateSquadDialog.FormSquadDialog.BeginSubmit | src/components/squad/Dialog.tsx:51-72 | a blank trimmed name or course alerts; otherwise loading starts with the trimmed input |
| CreateSquadDialog.FormSquadDialog.FinishSubmit | src/components/squad/Dialog.tsx:73-99 | success closes, resets and navigates; failure or exception alerts; loading ends |
| DiscoverPage.SearchResults | src/app/discover/page.tsx:62-77 | the empty query keeps everything; otherwise the matches whose name, zid, degree or a course contains the query, in order |
| DiscoverPage.EmptyQueryShortcut | src/app/discover/page.tsx:63-66 | the early return for the empty query agrees with running the filter |
| DiscoverPage.Discover.ToggleUserSelection | src/app/discover/page.tsx:80-88 | the id's membership flips and no other id's changes |
| DiscoverPage.Discover.FormSquad | src/app/discover/page.tsx:90-102 | a toast iff nothing is selected, else a path under `/squad/create?users=` |
| DiscoverPage.Discover.Loaded | src/app/discover/page.tsx:41-44 | the loaded matches replace the list and loading ends |
| DiscoverPage.ToggleTwiceSameSet | src/app/discover/page.tsx:80-88 | toggling an id twice gives back the same set |
| DiscoverPage.FormSquadRoundTrip | src/app/discover/page.tsx:100-101 | splitting the URL's id list at commas gives back the selection |
| SquadActions.SquadName | src/app/actions/squad.ts:26 | a missing or empty name falls back to "<course> Study Squad" |
| SquadActions.InvitationRows | src/app/actions/squad.ts:59-64 | one pending invitation from the creator per invitee, in order |
| SquadActions.UserSquads | src/app/actions/squad.ts:245 | the squad of every member row of the user whose squad exists is listed, and nothing beyond the rows |
| SquadActions.UserSquadsInRowOrder | src/app/actions/squad.ts:217-245 | the list is exactly one squad per joined row of the user, in row order |
| SquadActions.UserSquadsSound | src/app/actions/squad.ts:217-245 | every listed squad is the squad of one of the user's member rows |
| SquadActions.UserSquadsIgnoresDangling | src/app/actions/squad.ts:245 | a member row pointing at a deleted squad never shows up |
| SquadActions.SquadStore.CreateSquad | src/app/actions/squad.ts:14-82 | unauthorised calls write nothing; each failed insert answers its error, and the later failures delete the squad row; success adds the squad, the creator's row and one invitation per invitee |
| SquadActions.SquadStore.RespondToInvitation | src/app/actions/squad.ts:137-205 | only the signed-in invitee of an existing invitation may answer; accepting adds the member and activates the squad iff all its invitations are accepted; declining sets it pending |
| SquadActions.SquadStore.GetUserSquads | src/app/actions/squad.ts:213-247 | an error iff the query fails, else the squads of the user's member rows in row order |
| ParseIcal.Classify | src/app/api/parse-ical/route.ts:138-144 | Lecture, else Tutorial, else Lab, else Other, by containment |
| ParseIcal.ClassifyEvent | src/app/api/parse-ical/route.ts:128-156 | an event without a SUMMARY, or a course code with no second word, throws; a non-course or "Final" event is skipped; otherwise kept with its class |
| ParseIcal.Schedule | src/app/api/parse-ical/route.ts:128-157 | fails iff some event throws; otherwise every kept event is in it, each with a course code and a location |
| ParseIcal.ScheduleIsMapFilter | src/app/api/parse-ical/route.ts:128-157 | a schedule that does not fail equals mapping every event to its outcome and keeping the kept ones, in calendar order |
| ParseIcal.ScheduleSound | src/app/api/parse-ical/route.ts:128-157 | every scheduled event is the kept form of some calendar event |
| ParseIcal.ScheduleConcat | src/app/api/parse-ical/route.ts:128-157 | the schedule of two runs of events is the two schedules in order |
| ParseIcal.FinalNeverKept | src/app/api/parse-ical/route.ts:146-148 | an event mentioning "Final" is never scheduled |
| ParseIcal.RewriteWebcal | src/app/api/parse-ical/route.ts:109 | only a leading `webcal:` becomes `https:` |
| ParseIcal.RewriteWebcalIdempotent | src/app/api/parse-ical/route.ts:109 | rewriting twice is rewriting once |
| ParseIcal.ImportStep | src/app/api/parse-ical/route.ts:178-224 | the table is unchanged, or one row for the user with a known room is appended, exactly when the room is found, the duplicate query succeeds (never for an `Other` class), no row has that key and the insert succeeds |
| ParseIcal.ImportedAppendsDistinct | src/app/api/parse-ical/route.ts:178-224 | the loop only appends rows for the user, never an `Other` class, and never stores a second row with the same key |
| ParseIcal.Validate | src/app/api/parse-ical/route.ts:102-176 | the early answers of `GET`: 400 for a missing URL or an empty schedule, 401 without a user, 500 for a failed fetch or a throw; no early answer exactly when every step succeeds |
| ParseIcal.EnrolmentTable.Import | src/app/api/parse-ical/route.ts:178-224 | the loop leaves the table as the import function says |
| ParseIcal.EnrolmentTable.Get | src/app/api/parse-ical/route.ts:98-233 | the response of `GET` and the rows it stores |
| IcsProxy.Gatekeep | src/app/api/ics/route.ts:18-42 | 400 for a missing url, an unparsable URL, a non-http(s) protocol or a private host; otherwise the parsed normalised URL is forwarded |
| IcsProxy.Get | src/app/api/ics/route.ts:16-84 | refusals are answered as the gate says; every status is 200, 400, 500 or 502 |
| IcsProxy.PrivateHostNeverFetched | src/app/api/ics/route.ts:40-42 | a private host's answer does not depend on the fetch |
| IcsProxy.TenNetHasNoOctetBound | src/app/api/ics/route.ts:6 | `10.999.0.1` is refused: the digit groups have no octet bound |
| IcsProxy.Block172Edges | src/app/api/ics/route.ts:7 | `172.31.0.1` is refused and `172.32.0.1` is not |
| IcsProxy.UnlistedHostsPass | src/app/api/ics/route.ts:3-10 | `0.0.0.0` and link-local `169.254.1.1` pass the patterns |
| IcsProxy.QuadNotPrivate | src/app/api/ics/route.ts:3-14 | any dotted quad whose leading pieces match no pattern is not private, whatever its length |
| IcsProxy.TenNetQuad | src/app/api/ics/route.ts:6 | any three digit runs after `10.` match |
| IcsInspector.NormalizeIcsUrl | src/app/calendar/ICSInspector.tsx:28-32 | the trimmed text, with a leading `webcal://` replaced by `https://` |
| IcsInspector.NormalizeIdempotent | src/app/calendar/ICSInspector.tsx:28-32 | normalising twice is normalising once |
| IcsInspector.WebcalPassesSchemeCheck | src/app/calendar/ICSInspector.tsx:29-30 | a `webcal://` address passes the http(s) check once normalised |
| IcsInspector.ReadStream | src/app/calendar/ICSInspector.tsx:136-151 | all chunks are kept iff their total is within 2 000 000 bytes; otherwise it stops at the first chunk that crosses the limit |
| IcsInspector.TotalBytesMonotone | src/app/calendar/ICSInspector.tsx:143-145 | the running total only grows |
| IcsInspector.Inspector.HandleFetch | src/app/calendar/ICSInspector.tsx:118-163 | exactly one of an error and a fetched text; the guard, status, size and thrown-error messages; loading ends |
| IcsInspector.SniffIgnoresCase | src/app/calendar/ICSInspector.tsx:71 | the VCALENDAR check ignores case |
| IcsInspector.HeaderAnywhereAccepted | src/app/calendar/ICSInspector.tsx:71 | the header anywhere in the text passes |
| IcsInspector.Sniff | src/app/calendar/ICSInspector.tsx:68-71 | nothing to parse for no text; the "doesn't look like" error iff the header is absent |
| TimetablePreview.UniqueCourses | src/app/onboarding/timetable-preview/page.tsx:92-94 | the distinct course names, each once, in first-occurrence order |
| TimetablePreview.CourseCountIsDistinctCourses | src/app/onboarding/timetable-preview/page.tsx:168 | the count shown equals the number of distinct course names |
| TimetablePreview.IcsLinkOrSpace | src/app/onboarding/timetable-preview/page.tsx:50 | a missing or empty link becomes one space |
| TimetablePreview.AutoSubmitGuardReduces | src/app/onboarding/timetable-preview/page.tsx:98 | the guard holds iff the link is non-empty and nothing is loading; the " " placeholder passes it |
| TimetablePreview.Preview.ProfileLoaded | src/app/onboarding/timetable-preview/page.tsx:26-60 | a missing user or profile sets the error; otherwise the link is set; loading ends |
| TimetablePreview.Preview.HandleSubmit | src/app/onboarding/timetable-preview/page.tsx:63-87 | status 200 replaces the schedule; other statuses and thrown requests set their errors; loading ends |
| TimetablePreview.Preview.CourseCount | src/app/onboarding/timetable-preview/page.tsx:158-168 | a count only when loading is over without an error |
| OnboardingProfile.AgeField | src/app/onboarding/profile/page.tsx:44 | no age iff the input is empty |
| OnboardingProfile.ProfileForm.ChooseGender | src/app/onboarding/profile/page.tsx:155-159 | the gender becomes one of Male, Female, Other |
| OnboardingProfile.ProfileForm.HandleSubmit | src/app/onboarding/profile/page.tsx:24-58 | rejected iff a required field is empty; a storage failure sets its error; otherwise the record is stored under `profileStep1` and the router moves to the timetable step |
| WeeklyCalendar.GetMonday | src/components/dashboard-calendar.tsx:66-71 | a Monday at most six days back; a Sunday goes back six days |
| WeeklyCalendar.GetMondayOfMonday | src/components/dashboard-calendar.tsx:66-71 | a Monday is its own week start |
| WeeklyCalendar.GetMondayIsLatest | src/components/dashboard-calendar.tsx:66-71 | no Monday lies between the result and the day |
| WeeklyCalendar.WeekDates | src/components/dashboard-calendar.tsx:73-85 | five columns Monday to Friday, dated from the week start, the column of each weekday filtering the enrolments |
| WeeklyCalendar.ColumnMembers | src/components/dashboard-calendar.tsx:73-85 | a column holds exactly the enrolments starting on its weekday |
| WeeklyCalendar.EachEnrolmentInOneColumn | src/components/dashboard-calendar.tsx:73-85 | every copy of a class is in the column of its start weekday and in no other column |
| WeeklyCalendar.WeekendInNoColumn | src/components/dashboard-calendar.tsx:73-85 | a class starting on a Saturday or Sunday is in no column |
| WeeklyCalendar.FormatTimeLayout | src/components/dashboard-calendar.tsx:101-109 | `h:mm AM/PM` with a 12-hour hour and a two-digit minute |
| WeeklyCalendar.FormatTimeInjective | src/components/dashboard-calendar.tsx:101-109 | two times with the same label have the same hour and minute |
| WeeklyCalendar.TimeSlots | src/components/dashboard-calendar.tsx:37-40 | fourteen slots, 8:00 to 21:00 |
| WeeklyCalendar.WeekView.FetchEnrolments | src/components/dashboard-calendar.tsx:44-64 | the query's rows replace the enrolments and loading ends; a query error keeps them; without a user nothing happens |
| WeeklyCalendar.WeekView.ChangeWeek | src/components/dashboard-calendar.tsx:111-115 | exactly seven days back or on, still a Monday |
| WeeklyCalendar.WeekView.GoToCurrentWeek | src/components/dashboard-calendar.tsx:117-119 | the Monday of today's week |
| WeeklyCalendar.WeekView.Columns | src/components/dashboard-calendar.tsx:73-85 | column i is dated on weekday i+1 |
| RealtimeChat.FirstOfEachIdUpToKeepsFirsts | src/components/realtime-chat.tsx:101-104 | the `findIndex` filter keeps exactly the first message of each id, in order |
| RealtimeChat.UniqueMessages | src/components/realtime-chat.tsx:101-104 | no id twice, every id kept, each as its first occurrence |
| RealtimeChat.AllMessagesContents | src/components/realtime-chat.tsx:95-114 | the merged list is a permutation of the de-duplicated messages; every input id appears once |
| RealtimeChat.AllMessagesOrdered | src/components/realtime-chat.tsx:109-111 | with a consistent collation the list is ordered by time, and ties keep merge order |
| RealtimeChat.ShowHeaderBranches | src/components/realtime-chat.tsx:186-189 | the incoming side also shows a header when the sender id changes under the same name |
| RealtimeChat.OwnMessageIgnoresSenderId | src/components/realtime-chat.tsx:197 | ownership is by display name only |
| RealtimeChat.HeadForward | src/components/realtime-chat.tsx:117-121 | the local side forwards the whole list whenever a handler exists |
| RealtimeChat.ToStore | src/components/realtime-chat.tsx:142-146 | the live messages from others whose ids are not yet stored |
| RealtimeChat.StoredNeverForwardedAgain | src/components/realtime-chat.tsx:142-150 | a stored id is never handed over again |
| RealtimeChat.ChatPanel.StoreEffect | src/components/realtime-chat.tsx:139-155 | the forwarded messages are the ones to store; their ids join the stored set |
| RealtimeChat.ChatPanel.HandleSendMessage | src/components/realtime-chat.tsx:164-174 | nothing is sent for a blank text or a lost connection; otherwise the untrimmed text is sent and the input cleared |
| RealtimeChat.ChatPanel.HandleSendMessageAwaited | src/components/realtime-chat.tsx:233-243 | the same guard and sent text; the input is cleared only when the awaited send resolves, and kept when it rejects |
| ChatHeader.OnlineMembers | src/components/chat-header.tsx:36-39 | the members present in the channel, in member order; none while the list is missing |
| ChatHeader.OfflineMembers | src/components/chat-header.tsx:41-44 | the other members, in member order |
| ChatHeader.OnlineOfflinePartition | src/components/chat-header.tsx:36-44 | the two lists are disjoint and their counts and lengths add up to the members' |
| ChatHeader.OfflineSectionShown | src/components/chat-header.tsx:147 | the offline section shows iff some member is not present |
| ChatMessageView.ChillMatchAt | src/components/chat-message.tsx:13 | a match is at least five characters, holds "chill", and starts after a non-letter |
| ChatMessageView.SplitChill | src/components/chat-message.tsx:13 | an odd number of parts, every captured part holding "chill" |
| ChatMessageView.SplitChillRoundTrip | src/components/chat-message.tsx:13 | the parts concatenated give back the content |
| ChatMessageView.ChillWordMatches | src/components/chat-message.tsx:13-16 | a word that holds "chill" always matches at its start, and the match reaches past that "chill" |
| ChatMessageView.ChillWordHighlighted | src/components/chat-message.tsx:13-16 | a word that holds "chill" is a captured (highlighted) part of the split, from the word's start to past that "chill" |
| ChatMessageView.HighlightImpliesFlag | src/components/chat-message.tsx:16-99 | a highlighted part means the whole message is flagged as containing "chill" |
| ChatMessageView.Initials | src/components/chat-message.tsx:131-136 | at most two characters: the upper-cased first letters of the non-empty space-separated words |
| ChatMessageView.InitialsOfTwoNames | src/components/chat-message.tsx:131-136 | "ada lovelace"-shaped names give both capitals |
| ChatMessageView.InitialsSkipEmptyWords | src/components/chat-message.tsx:131-136 | a doubled space adds no letter |
| ChatMessageView.BubbleInitialsAgreeWithProfile | src/components/chat-message.tsx:131-136 | for a space-free first and last name, the bubble's initials of the full name equal `formatInitials` |
| ChatMessageView.BubbleChrome | src/components/chat-message.tsx:115-159 | the avatar column only for others; the avatar only with a header; the header "You" for one's own messages, else the sender |
| ChatMessageView.NamesakeShownAsYou | src/components/chat-message.tsx:115-159 | a namesake's message is headed "You" and has no avatar |
| Typewriter.Step | src/components/ui/typewriter.tsx:21-39 | one tick keeps the text a prefix of the current word and the index in range |
| Typewriter.TypesLetters | src/components/ui/typewriter.tsx:22-25 | each typing tick adds the word's next letter |
| Typewriter.DeletesLetters | src/components/ui/typewriter.tsx:31-33 | each deleting tick removes the last letter |
| Typewriter.WordCycle | src/components/ui/typewriter.tsx:21-38 | from the empty text a word takes 2n+2 ticks and ends on the next word, wrapping after the last |
| Typewriter.Delay | src/components/ui/typewriter.tsx:16-18 | 2000 exactly for a finished word not deleting, 50 while deleting, 100 while typing; never 500 |
| Typewriter.TypewriterView.NextDelay | src/components/ui/typewriter.tsx:41 | the timeout set for the current state |
| Typewriter.TypewriterView.Tick | src/components/ui/typewriter.tsx:21-39 | the callback moves the state one step |
| UserFormat.FormatUserName | src/lib/utils.ts:8-10 | the length of both names plus one separator (the round trip is `FormatUserNameSplits`) |
| UserFormat.FormatUserNameSplits | src/lib/utils.ts:8-10 | a full name of two space-free names splits back into them |
| UserFormat.FormatInitials | src/lib/utils.ts:12-14 | one upper-cased letter per non-empty name, at most two, no lower-case letter |
| SquadSecurity.ValidateSquadMembership | src/lib/squad-security.ts:14-31 | true only without failure and with an active row for the user in the squad |
| SquadSecurity.ValidateIffActiveMember | src/lib/squad-security.ts:14-31 | with one row per member, true iff no failure and the active row exists |
| SquadSecurity.CanSendMessage | src/lib/squad-security.ts:37-42 | sending is allowed iff a member is connected, and implies viewing |
| SquadSecurity.OutsidersLockedOut | src/lib/squad-security.ts:14-49 | without an active row, neither viewing nor sending is allowed |

## Left out

- Rendering, animation, styles, toasts other than their trigger, scrolling (`scrollToBottom` and its timeout), and `console` logging.
- Database, authentication and HTTP clients: tables are in-memory sequences or maps; failures are booleans or outcome datatypes.
- `localeCompare` is an abstract comparator, passed as a parameter. `Number(age)` is a parameter too. So are `encodeURIComponent`, `TextDecoder`, `new URL` and the iCalendar parser.
- Case mapping, `trim` and `\s` are modelled on ASCII letters and the ECMAScript whitespace set. Unicode case mapping is not modelled.
- The iCalendar expansion and sorting of items in the inspector (src/app/calendar/ICSInspector.tsx:74-108), its date range and its luxon formatting.
- `getClassPosition` of the calendar (floating-point layout) and the locale formatting of the week range label.
- Calendar days are whole days counted from 1970-01-01 in local time. The time of day kept by the `Date` of the week start is not modelled.
- IcsProxy.Get: the upstream fetch's timeout and abort are an outcome value, not a clock.
- IcsInspector.Inspector.HandleFetch: the fallback branch compares the text's length in UTF-16 units with the byte limit, as the source does. The model compares the sequence length.
- RealtimeChat.ChatPanel.StoreEffect: within one batch, messages sharing an id are all forwarded, as in the source.
- TimetablePreview.Preview.HandleSubmit: axios throws on statuses outside 2xx, so the "Failed to fetch timetable data" branch is reachable only for other 2xx statuses. The model lets any non-200 status reach it.
- WeeklyCalendar.WeekView.FetchEnrolments: without a user, loading stays on forever, as in the source.
- ChatMessageView.BubbleChrome: whether the browser shows the avatar image or the initials fallback is not modelled. The model gives the fallback text.
- SquadSecurity.ValidateSquadMembership: `.single()` is read as "exactly one row", and duplicate rows for a member are an error.
- The `class_type` enum has no "other", but the import route emits it. The model keeps `Other` as a class kind. The duplicate query filters on that value, which the enum rejects, so the query errors and such an event is skipped and never stored (`ParseIcal.CheckErrors`).
- Typewriter: the word list is taken as fixed and non-empty. A `words` prop that changes between ticks is not modelled.
- The pending-invitation and squad-detail queries of src/app/actions/squad.ts are reads with no logic beyond projection.

## Findings

| source | as written | input that shows it | evidently intended | confidence | as-written member | corrected member |
|---|---|---|---|---|---|---|
| src/app/discover/meowl/page.tsx:107-142 | the page never resets the course filter when the selection changes, so `squadCourse` can be a course a selected student does not take | with nothing selected, filter MATH1081 and COMP1511; select a student sharing only COMP1511; toggle COMP1511 off: the squad course is MATH1081 | the shared hook's effect (src/hooks/use-squad-filters.ts:37-43) resets the filter to the intersection, so the squad course is always shared | not executed | MeowlPage.SquadCourseNotShared | SquadFiltersHook.SquadFilters.SquadCourseIsShared |
| src/components/squad/squad-form-dialog.tsx:53 | the initial value of `useState` for the selected course is read only at mount, and the dialog stays mounted in the selected-users bar, so a course chosen under older props is still submitted after the selection changes, even while the dialog shows another course | select a student sharing COMP1511 and MATH1081, open the form and pick MATH1081, then add a student sharing only COMP1511: the form shows the COMP1511 badge and submits MATH1081 | a re-render keeps the chosen course only while the form still offers it and otherwise falls back to the new squad course (SquadFormDialog.SquadForm.ReceivePropsSynced), so the submitted course is shared by every selected student | not executed | SquadFormDialog.StaleCourseSubmitted | SquadFormDialog.SubmittedCourseIsShared |

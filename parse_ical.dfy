/**
 * The timetable import route src/app/api/parse-ical/route.ts. Each calendar event's SUMMARY
 * (section 3.8.1.12 of RFC 5545) is split at spaces; events whose first word is a course code
 * such as COMP1511 are kept, classed by their second word, and the resulting schedule is
 * stored one event at a time, skipping events already stored. The HTTP fetch, the iCalendar
 * parser and the room lookup are parameters.
 */
module ParseIcal {
  import opened Common
  import opened Seqs
  import opened Text

  /** The `class_type` of an event; the database's enum has no `Other`. */
  datatype ClassKind = Lec | Tut | Lab | Other

  /**
   * A VEVENT as the parser hands it over: SUMMARY is optional in a VEVENT and is `None` when
   * absent (ICAL.js gives `null`); an absent LOCATION is the empty string.
   */
  datatype IcalEvent = IcalEvent(summary: Option<string>, startDate: string, endDate: string, location: string)

  datatype ScheduleEvent = ScheduleEvent(
    course: string, startDate: string, endDate: string, location: string, classKind: ClassKind)

  /** What the `map` callback does with one event. */
  datatype EventOutcome = Skipped | Kept(event: ScheduleEvent) | Throws

  /** `/^[A-Za-z]{4}\d{4}$/`: four ASCII letters then four ASCII digits, nothing else. */
  predicate IsCourseCode(s: string) {
    |s| == 8 && (forall i :: 0 <= i < 4 ==> IsAsciiLetter(s[i])) && (forall i :: 4 <= i < 8 ==> IsAsciiDigit(s[i]))
  }

  /** The class chain on the second word: the first of Lecture, Tutorial, Lab it contains. */
  function Classify(kind: string): (r: ClassKind)
    ensures r == Lec <==> Contains(kind, "Lecture")
    ensures r == Tut <==> !Contains(kind, "Lecture") && Contains(kind, "Tutorial")
    ensures r == Lab <==> !Contains(kind, "Lecture") && !Contains(kind, "Tutorial") && Contains(kind, "Lab")
  {
    if Contains(kind, "Lecture") then Lec
    else if Contains(kind, "Tutorial") then Tut
    else if Contains(kind, "Lab") then Lab
    else Other
  }

  /**
   * The `map` callback. An event without a SUMMARY throws at `e.summary.split`. A first word
   * that is not a course code skips the event. A course code
   * with no second word reaches `type.includes` with `type` undefined, which throws. Otherwise
   * an event mentioning "Final" anywhere is skipped, and the rest are kept.
   */
  function ClassifyEvent(e: IcalEvent): (r: EventOutcome)
    ensures r.Throws? <==>
      e.summary.None? || (IsCourseCode(Split(e.summary.value, ' ')[0]) && |Split(e.summary.value, ' ')| == 1)
    ensures r.Skipped? <==>
      && e.summary.Some?
      && (!IsCourseCode(Split(e.summary.value, ' ')[0])
          || (|Split(e.summary.value, ' ')| >= 2 && Contains(e.summary.value, "Final")))
    ensures r.Kept? ==>
      && e.summary.Some?
      && r.event.course == Split(e.summary.value, ' ')[0] && IsCourseCode(r.event.course)
      && r.event.classKind == Classify(Split(e.summary.value, ' ')[1])
      && !Contains(e.summary.value, "Final")
      && r.event.startDate == e.startDate && r.event.endDate == e.endDate
      && r.event.location == (if e.location == "" then "No location" else e.location)
  {
    match e.summary
    case None => Throws
    case Some(summary) =>
      var words := Split(summary, ' ');
      if !IsCourseCode(words[0]) then Skipped
      else if |words| < 2 then Throws
      else
        var className := Classify(words[1]);
        if Contains(summary, "Final") then Skipped
        else Kept(ScheduleEvent(words[0], e.startDate, e.endDate,
                                if e.location == "" then "No location" else e.location, className))
  }

  /** An event does not throw. */
  predicate Quiet(e: IcalEvent) {
    !ClassifyEvent(e).Throws?
  }

  /**
   * `events.map(...).filter(e => e !== null)`: `None` when some event throws (the whole
   * request then answers 500), else the kept events in calendar order.
   */
  function Schedule(events: seq<IcalEvent>): (r: Option<seq<ScheduleEvent>>)
    ensures r.None? <==> exists i :: 0 <= i < |events| && !Quiet(events[i])
    ensures r.Some? ==> |r.value| <= |events|
    ensures r.Some? ==> forall k :: 0 <= k < |r.value| ==>
      IsCourseCode(r.value[k].course) && r.value[k].location != ""
    ensures r.Some? ==> forall i :: 0 <= i < |events| && ClassifyEvent(events[i]).Kept? ==>
      ClassifyEvent(events[i]).event in r.value
  {
    if events == [] then Some([]) else Prepend(ClassifyEvent(events[0]), Schedule(events[1..]))
  }

  /** One event's outcome in front of the schedule of the events after it. */
  function Prepend(outcome: EventOutcome, rest: Option<seq<ScheduleEvent>>): Option<seq<ScheduleEvent>> {
    match outcome
    case Throws => None
    case Skipped => rest
    case Kept(ev) => if rest.None? then None else Some([ev] + rest.value)
  }

  /** Prepending an outcome commutes with appending a schedule behind. */
  lemma PrependAppend(outcome: EventOutcome, t: seq<ScheduleEvent>, u: seq<ScheduleEvent>)
    requires !outcome.Throws?
    ensures Prepend(outcome, Some(t + u)) == Some(Prepend(outcome, Some(t)).value + u)
  {
    if outcome.Kept? {
      assert [outcome.event] + (t + u) == ([outcome.event] + t) + u;
    }
  }

  /** The schedule keeps calendar order: the schedule of two runs of events is their schedules one after the other. */
  lemma {:induction false} ScheduleConcat(a: seq<IcalEvent>, b: seq<IcalEvent>)
    requires Schedule(a).Some? && Schedule(b).Some?
    ensures Schedule(a + b) == Some(Schedule(a).value + Schedule(b).value)
  {
    if a == [] {
      assert a + b == b;
      assert Schedule(a).value + Schedule(b).value == Schedule(b).value;
    } else {
      var outcome := ClassifyEvent(a[0]);
      assert (a + b)[0] == a[0];
      assert (a + b)[1..] == a[1..] + b;
      assert !outcome.Throws? && Schedule(a[1..]).Some?;
      ScheduleConcat(a[1..], b);
      PrependAppend(outcome, Schedule(a[1..]).value, Schedule(b).value);
    }
  }

  /** `events.map(...)`: one outcome per calendar event, in calendar order. */
  function Outcomes(events: seq<IcalEvent>): (r: seq<EventOutcome>)
    ensures |r| == |events|
  {
    seq(|events|, i requires 0 <= i < |events| => ClassifyEvent(events[i]))
  }

  /** `.filter(e => e !== null)` over outcomes none of which threw: the kept events in order. */
  function KeptEvents(outcomes: seq<EventOutcome>): (r: seq<ScheduleEvent>)
  {
    var kept := Filter(outcomes, (o: EventOutcome) => o.Kept?);
    seq(|kept|, k requires 0 <= k < |kept| => kept[k].event)
  }

  /** The kept events of an outcome in front of others. */
  lemma KeptEventsCons(o: EventOutcome, outcomes: seq<EventOutcome>)
    ensures KeptEvents([o] + outcomes) == (if o.Kept? then [o.event] else []) + KeptEvents(outcomes)
  {
    var p := (o: EventOutcome) => o.Kept?;
    assert ([o] + outcomes)[1..] == outcomes;
    if o.Kept? {
      assert Filter([o] + outcomes, p) == [o] + Filter(outcomes, p);
    } else {
      assert Filter([o] + outcomes, p) == Filter(outcomes, p);
    }
  }

  /** A schedule that does not fail is the map of the events followed by the filter of the kept ones. */
  lemma {:induction false} ScheduleIsMapFilter(events: seq<IcalEvent>)
    ensures Schedule(events).Some? ==> Schedule(events).value == KeptEvents(Outcomes(events))
  {
    if events != [] {
      ScheduleIsMapFilter(events[1..]);
      OutcomesCons(events);
      PrependKept(ClassifyEvent(events[0]), Schedule(events[1..]), Outcomes(events[1..]));
    }
  }

  lemma OutcomesCons(events: seq<IcalEvent>)
    requires events != []
    ensures Outcomes(events) == [ClassifyEvent(events[0])] + Outcomes(events[1..])
  {
  }

  /** An outcome put in front of a schedule that is the kept events of `outcomes`. */
  lemma PrependKept(o: EventOutcome, rest: Option<seq<ScheduleEvent>>, outcomes: seq<EventOutcome>)
    requires rest.Some? ==> rest.value == KeptEvents(outcomes)
    ensures Prepend(o, rest).Some? ==> Prepend(o, rest).value == KeptEvents([o] + outcomes)
  {
    KeptEventsCons(o, outcomes);
  }

  /** Every scheduled event is the kept form of one calendar event. */
  lemma ScheduleSound(events: seq<IcalEvent>)
    ensures Schedule(events).Some? ==> forall k :: 0 <= k < |Schedule(events).value| ==>
      exists i :: 0 <= i < |events| && ClassifyEvent(events[i]) == Kept(Schedule(events).value[k])
  {
    if Schedule(events).Some? {
      ScheduleIsMapFilter(events);
      var outcomes := Outcomes(events);
      var kept := Filter(outcomes, (o: EventOutcome) => o.Kept?);
      forall k | 0 <= k < |Schedule(events).value|
        ensures exists i :: 0 <= i < |events| && ClassifyEvent(events[i]) == Kept(Schedule(events).value[k])
      {
        assert kept[k] in outcomes && kept[k].Kept?;
        var i :| 0 <= i < |outcomes| && outcomes[i] == kept[k];
        assert ClassifyEvent(events[i]) == Kept(Schedule(events).value[k]);
      }
    }
  }

  /** An event whose SUMMARY mentions "Final" is never scheduled, whatever its course code. */
  lemma FinalNeverKept(e: IcalEvent)
    requires e.summary.Some? && Contains(e.summary.value, "Final")
    ensures !ClassifyEvent(e).Kept?
  {
  }

  /** `url.replace(/^webcal:/, "https:")`: only a leading `webcal:` is rewritten. */
  function RewriteWebcal(url: string): (r: string)
    ensures StartsWith(url, "webcal:") ==> r == "https:" + url[7..]
    ensures !StartsWith(url, "webcal:") ==> r == url
  {
    if StartsWith(url, "webcal:") then "https:" + url[7..] else url
  }

  /** Rewriting twice is rewriting once. */
  lemma RewriteWebcalIdempotent(url: string)
    ensures RewriteWebcal(RewriteWebcal(url)) == RewriteWebcal(url)
  {
    var r := RewriteWebcal(url);
    if StartsWith(url, "webcal:") {
      assert r[0] == 'h';
    }
  }

  /** A row of the `enrolment` table; `section` is `None` for every imported row. */
  datatype EnrolmentRow = EnrolmentRow(
    userId: string, course: string, classKind: ClassKind, section: Option<string>,
    startTime: string, endTime: string, roomId: string)

  /** The duplicate check's key: course, class, room and user (the times are not compared). */
  predicate SameKey(row: EnrolmentRow, e: ScheduleEvent, roomId: string, userId: string) {
    row.course == e.course && row.classKind == e.classKind && row.roomId == roomId && row.userId == userId
  }

  predicate HasRowFor(rows: seq<EnrolmentRow>, e: ScheduleEvent, roomId: string, userId: string) {
    exists i :: 0 <= i < |rows| && SameKey(rows[i], e, roomId, userId)
  }

  /** No two rows share a duplicate-check key. */
  predicate KeysDistinct(rows: seq<EnrolmentRow>) {
    forall i, j :: 0 <= i < j < |rows| ==>
      !(rows[i].course == rows[j].course && rows[i].classKind == rows[j].classKind &&
        rows[i].roomId == rows[j].roomId && rows[i].userId == rows[j].userId)
  }

  /**
   * The duplicate query answers an error: the database failed (`checkFails`), or the event's
   * class is `Other`, which the `class_type` enum cannot hold, so the `.eq("class", …)` filter
   * is rejected.
   */
  predicate CheckErrors(e: ScheduleEvent, checkFails: ScheduleEvent -> bool) {
    e.classKind == Other || checkFails(e)
  }

  /**
   * One pass of the loop body. A room missing from `rooms` makes the lookup throw, which the
   * inner `catch` swallows; an empty room id, a failed duplicate check, an existing row or a
   * failed insert also leave the table as it was.
   */
  function ImportStep(rows: seq<EnrolmentRow>, e: ScheduleEvent, userId: string, rooms: map<string, string>,
                      checkFails: ScheduleEvent -> bool, insertFails: ScheduleEvent -> bool): (r: seq<EnrolmentRow>)
    ensures r == rows || (e.location in rooms &&
      r == rows + [EnrolmentRow(userId, e.course, e.classKind, None, e.startDate, e.endDate, rooms[e.location])])
    ensures r != rows <==>
      && e.location in rooms && rooms[e.location] != ""
      && !CheckErrors(e, checkFails) && !HasRowFor(rows, e, rooms[e.location], userId) && !insertFails(e)
  {
    if e.location !in rooms then rows
    else
      var roomId := rooms[e.location];
      if roomId == "" || CheckErrors(e, checkFails) || HasRowFor(rows, e, roomId, userId) || insertFails(e) then rows
      else rows + [EnrolmentRow(userId, e.course, e.classKind, None, e.startDate, e.endDate, roomId)]
  }

  /** The table after the loop has run over `schedule`. */
  function Imported(rows: seq<EnrolmentRow>, schedule: seq<ScheduleEvent>, userId: string, rooms: map<string, string>,
                    checkFails: ScheduleEvent -> bool, insertFails: ScheduleEvent -> bool): seq<EnrolmentRow>
  {
    if schedule == [] then rows
    else
      var before := Imported(rows, schedule[..|schedule| - 1], userId, rooms, checkFails, insertFails);
      ImportStep(before, schedule[|schedule| - 1], userId, rooms, checkFails, insertFails)
  }

  /**
   * The import only appends rows, each for the signed-in user with no section and a known room,
   * and it never adds a second row for the same course, class, room and user.
   */
  lemma {:induction false} ImportedAppendsDistinct(rows: seq<EnrolmentRow>, schedule: seq<ScheduleEvent>, userId: string,
                                                     rooms: map<string, string>, checkFails: ScheduleEvent -> bool,
                                                     insertFails: ScheduleEvent -> bool)
    requires KeysDistinct(rows)
    ensures var r := Imported(rows, schedule, userId, rooms, checkFails, insertFails);
      && |rows| <= |r| <= |rows| + |schedule|
      && r[..|rows|] == rows
      && KeysDistinct(r)
      && (forall k :: |rows| <= k < |r| ==>
            r[k].userId == userId && r[k].section.None? && r[k].roomId in rooms.Values && r[k].roomId != "" &&
            r[k].classKind != Other)
  {
    if schedule != [] {
      var init := schedule[..|schedule| - 1];
      var e := schedule[|schedule| - 1];
      ImportedAppendsDistinct(rows, init, userId, rooms, checkFails, insertFails);
      var before := Imported(rows, init, userId, rooms, checkFails, insertFails);
      var r := ImportStep(before, e, userId, rooms, checkFails, insertFails);
      if r != before {
        var row := r[|r| - 1];
        assert r == before + [row];
        forall i, j | 0 <= i < j < |r|
          ensures !(r[i].course == r[j].course && r[i].classKind == r[j].classKind &&
                    r[i].roomId == r[j].roomId && r[i].userId == r[j].userId)
        {
          if j == |r| - 1 {
            assert !SameKey(before[i], e, rooms[e.location], userId);
          }
        }
        assert r[..|rows|] == before[..|rows|];
      }
    }
  }

  /** The route's answer: an HTTP status with an error message or the schedule. */
  datatype Response = ErrorResponse(status: nat, error: string) | ScheduleResponse(schedule: seq<ScheduleEvent>)

  /** What fetching and parsing the calendar gave: a thrown error, or a status and the events (`None` when parsing threw). */
  datatype Fetched = FetchThrew | Fetched(status: int, events: Option<seq<IcalEvent>>)

  const InternalError := "Internal server error111"

  /** The response of `GET` before the store is touched, or `None` when it goes on to store the schedule. */
  function Validate(icalUrl: Option<string>, fetched: Fetched, sessionUser: Option<string>): (r: Option<Response>)
    ensures icalUrl.None? || icalUrl == Some("") ==> r == Some(ErrorResponse(400, "Invalid iCal URL"))
    ensures r.None? <==>
      && icalUrl.Some? && icalUrl.value != ""
      && fetched.Fetched? && fetched.status == 200 && fetched.events.Some?
      && Schedule(fetched.events.value).Some? && Schedule(fetched.events.value).value != []
      && sessionUser.Some?
    ensures r.Some? ==> r.value.ErrorResponse? && r.value.status in {400, 401, 500}
    ensures icalUrl.Some? && icalUrl.value != "" && fetched.Fetched? && fetched.status == 200 &&
            fetched.events.Some? && Schedule(fetched.events.value) == Some([]) ==>
      r == Some(ErrorResponse(400, "No valid course events found"))
  {
    if icalUrl.None? || icalUrl.value == "" then Some(ErrorResponse(400, "Invalid iCal URL"))
    else if fetched.FetchThrew? then Some(ErrorResponse(500, InternalError))
    else if fetched.status != 200 then Some(ErrorResponse(500, "Failed to fetch iCal data"))
    else if fetched.events.None? then Some(ErrorResponse(500, InternalError))
    else
      var schedule := Schedule(fetched.events.value);
      if schedule.None? then Some(ErrorResponse(500, InternalError))
      else if schedule.value == [] then Some(ErrorResponse(400, "No valid course events found"))
      else if sessionUser.None? then Some(ErrorResponse(401, "User not authenticated"))
      else None
  }

  /** The `enrolment` table the route writes to. */
  class EnrolmentTable {
    var rows: seq<EnrolmentRow>

    constructor(rows: seq<EnrolmentRow>)
      ensures this.rows == rows
    {
      this.rows := rows;
    }

    /** The `for (const event of schedule)` loop. */
    method Import(schedule: seq<ScheduleEvent>, userId: string, rooms: map<string, string>,
                  checkFails: ScheduleEvent -> bool, insertFails: ScheduleEvent -> bool)
      modifies this
      ensures rows == Imported(old(rows), schedule, userId, rooms, checkFails, insertFails)
    {
      for i := 0 to |schedule|
        invariant rows == Imported(old(rows), schedule[..i], userId, rooms, checkFails, insertFails)
      {
        assert schedule[..i + 1][..i] == schedule[..i];
        var event := schedule[i];
        if event.location !in rooms {
          continue;
        }
        var roomId := rooms[event.location];
        if roomId == "" {
          continue;
        }
        if CheckErrors(event, checkFails) {
          continue;
        }
        if HasRowFor(rows, event, roomId, userId) {
          continue;
        }
        if !insertFails(event) {
          rows := rows + [EnrolmentRow(userId, event.course, event.classKind, None, event.startDate, event.endDate, roomId)];
        }
      }
      assert schedule[..|schedule|] == schedule;
    }

    /**
     * `GET`: the URL, fetch and parse steps, the schedule checks and the sign-in check answer
     * before anything is stored; otherwise the schedule is imported and returned.
     */
    method Get(icalUrl: Option<string>, fetch: string -> Fetched, sessionUser: Option<string>,
               rooms: map<string, string>, checkFails: ScheduleEvent -> bool, insertFails: ScheduleEvent -> bool)
      returns (resp: Response)
      modifies this
      ensures icalUrl.Some? && icalUrl.value != "" ==>
        var fetched := fetch(RewriteWebcal(icalUrl.value));
        match Validate(icalUrl, fetched, sessionUser)
        case Some(err) => resp == err && rows == old(rows)
        case None =>
          var schedule := Schedule(fetched.events.value).value;
          resp == ScheduleResponse(schedule) &&
          rows == Imported(old(rows), schedule, sessionUser.value, rooms, checkFails, insertFails)
      ensures icalUrl.None? || icalUrl == Some("") ==> resp == ErrorResponse(400, "Invalid iCal URL") && rows == old(rows)
    {
      if icalUrl.None? || icalUrl.value == "" {
        return ErrorResponse(400, "Invalid iCal URL");
      }
      var fetched := fetch(RewriteWebcal(icalUrl.value));
      var check := Validate(icalUrl, fetched, sessionUser);
      if check.Some? {
        return check.value;
      }
      var schedule := Schedule(fetched.events.value).value;
      Import(schedule, sessionUser.value, rooms, checkFails, insertFails);
      resp := ScheduleResponse(schedule);
    }
  }
}

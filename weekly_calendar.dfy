/**
 * The dashboard's week view, src/components/dashboard-calendar.tsx: a Monday-to-Friday grid
 * of the user's enrolments, navigable week by week, with 14 hourly rows and 12-hour clock
 * labels. A calendar date is its local day number counted from 1 January 1970 (a Thursday),
 * so `setDate` with an out-of-month value is plain day arithmetic; an enrolment's start and
 * end carry the local day that `getDay` reads and the UTC hour and minute that the labels read.
 */
module WeeklyCalendar {
  import opened Common
  import opened Seqs
  import opened Text

  type Hour = h: nat | h < 24
  type Minute = m: nat | m < 60

  /** A stored timestamp as the component reads it. */
  datatype Instant = Instant(localDay: int, utcHours: Hour, utcMinutes: Minute)

  /** An `enrolment` row. */
  datatype Enrolment = Enrolment(
    id: int, course: string, classKind: string, section: Option<string>,
    start: Instant, end: Instant, roomId: string)

  /** `Date.prototype.getDay` of a local day: 0 is Sunday, 1 Monday, …, 6 Saturday. */
  function Weekday(day: int): (w: nat)
    ensures w < 7
  {
    (day + 4) % 7
  }

  /** Euclidean remainder by seven, from a decomposition. */
  lemma ModSeven(a: int, q: int, r: int)
    requires a == 7 * q + r && 0 <= r < 7
    ensures a % 7 == r
  {
  }

  /** Weekdays advance one per day. */
  lemma WeekdayStep(day: int, k: nat)
    requires k < 7
    ensures Weekday(day + k) == (Weekday(day) + k) % 7
  {
    var q, w := (day + 4) / 7, Weekday(day);
    assert day + 4 == 7 * q + w;
    if w + k < 7 {
      ModSeven(day + k + 4, q, w + k);
      ModSeven(w + k, 0, w + k);
    } else {
      ModSeven(day + k + 4, q + 1, w + k - 7);
      ModSeven(w + k, 1, w + k - 7);
    }
  }

  /** Seven days on or back is the same weekday. */
  lemma WeekdayWeek(day: int)
    ensures Weekday(day + 7) == Weekday(day) && Weekday(day - 7) == Weekday(day)
  {
    var q, w := (day + 4) / 7, Weekday(day);
    ModSeven(day + 7 + 4, q + 1, w);
    ModSeven(day - 7 + 4, q - 1, w);
  }

  /** `getMonday`: step back to Monday, a Sunday counting as the end of the week. */
  function GetMonday(day: int): (r: int)
    ensures Weekday(r) == 1
    ensures r <= day < r + 7
    ensures Weekday(day) == 0 ==> r == day - 6
  {
    var wd := Weekday(day);
    var q := (day + 4) / 7;
    var diff := day - wd + (if wd == 0 then -6 else 1);
    assert day + 4 == 7 * q + wd;
    if wd == 0 then
      ModSeven(diff + 4, q - 1, 1);
      diff
    else
      ModSeven(diff + 4, q, 1);
      diff
  }

  /** A Monday is its own week start, so `getMonday` is idempotent. */
  lemma GetMondayOfMonday(day: int)
    requires Weekday(day) == 1
    ensures GetMonday(day) == day
    ensures GetMonday(GetMonday(day)) == GetMonday(day)
  {
  }

  /** No Monday lies between `getMonday(day)` and `day`: it is the latest Monday not after `day`. */
  lemma GetMondayIsLatest(day: int, m: int)
    requires Weekday(m) == 1 && m <= day
    ensures m <= GetMonday(day)
  {
    var r := GetMonday(day);
    if m > r {
      WeekdayStep(r, m - r);
    }
  }

  const DaysOfWeek: seq<string> := ["Monday", "Tuesday", "Wednesday", "Thursday", "Friday"]

  datatype DaySchedule = DaySchedule(day: string, date: int, classes: seq<Enrolment>)

  /** The enrolment starts on the weekday numbered `wd`. */
  predicate StartsOn(e: Enrolment, wd: nat) {
    Weekday(e.start.localDay) == wd
  }

  /** The filter of the column for weekday `wd`. */
  function StartsOnDay(wd: nat): Enrolment -> bool {
    e => StartsOn(e, wd)
  }

  /** The classes of the column for weekday `wd`. */
  function Column(enrolments: seq<Enrolment>, wd: nat): seq<Enrolment> {
    Filter(enrolments, StartsOnDay(wd))
  }

  /** The column of the `i`-th weekday of the week. */
  function DayColumn(weekStart: int, enrolments: seq<Enrolment>, i: nat): (d: DaySchedule)
    requires i < 5
    ensures d.day == DaysOfWeek[i] && d.date == weekStart + i && d.classes == Column(enrolments, i + 1)
  {
    DaySchedule(DaysOfWeek[i], weekStart + i, Column(enrolments, i + 1))
  }

  /** `getWeekDates`: five columns, Monday to Friday, dated from the week start. */
  function WeekDates(weekStart: int, enrolments: seq<Enrolment>): (r: seq<DaySchedule>)
    ensures |r| == 5
    ensures forall i :: 0 <= i < 5 ==>
      r[i].day == DaysOfWeek[i] && r[i].date == weekStart + i && r[i].classes == Column(enrolments, i + 1)
  {
    seq(5, i requires 0 <= i < 5 => DayColumn(weekStart, enrolments, i))
  }

  /** A column holds exactly the enrolments starting on its weekday. */
  lemma ColumnMembers(enrolments: seq<Enrolment>, wd: nat, e: Enrolment)
    ensures e in Column(enrolments, wd) <==> e in enrolments && StartsOn(e, wd)
  {
    var c := Column(enrolments, wd);
    if e in c {
      var k :| 0 <= k < |c| && c[k] == e;
    }
    if e in enrolments && StartsOn(e, wd) {
      var k :| 0 <= k < |enrolments| && enrolments[k] == e;
      assert StartsOnDay(wd)(enrolments[k]);
    }
  }

  /** A column holds every copy of an enrolment starting on its weekday, and no other. */
  lemma ColumnCount(enrolments: seq<Enrolment>, wd: nat, e: Enrolment)
    ensures Count(Column(enrolments, wd), e) == if StartsOn(e, wd) then Count(enrolments, e) else 0
  {
    FilterCount(enrolments, StartsOnDay(wd), e);
  }

  /** Each enrolment lands, with all its copies, in the one column of its start weekday. */
  lemma {:induction false} EachEnrolmentInOneColumn(weekStart: int, enrolments: seq<Enrolment>, e: Enrolment)
    ensures var r := WeekDates(weekStart, enrolments);
      forall i :: 0 <= i < 5 ==>
        Count(r[i].classes, e) == if StartsOn(e, i + 1) then Count(enrolments, e) else 0
  {
    forall i | 0 <= i < 5
      ensures Count(WeekDates(weekStart, enrolments)[i].classes, e) ==
        if StartsOn(e, i + 1) then Count(enrolments, e) else 0
    {
      ColumnCount(enrolments, i + 1, e);
    }
  }

  /** An enrolment starting on a Saturday or Sunday lands in no column. */
  lemma WeekendInNoColumn(weekStart: int, enrolments: seq<Enrolment>, e: Enrolment)
    requires Weekday(e.start.localDay) in {0, 6}
    ensures forall i :: 0 <= i < 5 ==> e !in WeekDates(weekStart, enrolments)[i].classes
  {
    forall i | 0 <= i < 5
      ensures e !in WeekDates(weekStart, enrolments)[i].classes
    {
      ColumnMembers(enrolments, i + 1, e);
    }
  }

  /** `formatTime`'s hour: `h % 12 || 12`. */
  function DisplayHour(h: Hour): (d: nat)
    ensures 1 <= d <= 12
    ensures d == 12 <==> h % 12 == 0
    ensures d != 12 ==> d == h % 12
  {
    if h % 12 == 0 then 12 else h % 12
  }

  function Meridiem(h: Hour): (s: string)
    ensures s == "AM" <==> h < 12
    ensures s == "PM" <==> h >= 12
  {
    if h >= 12 then "PM" else "AM"
  }

  /** The label `h:mm AM` built from its hour, minute and AM/PM pieces. */
  function Label(hours: string, minutes: string, ampm: string): string {
    hours + ":" + minutes + " " + ampm
  }

  /** Where the pieces of a label sit in it. */
  lemma LabelParts(a: string, b: string, c: string)
    requires |b| == 2 && |c| == 2
    ensures var s := Label(a, b, c);
      && |s| == |a| + 6
      && s[|s| - 2..] == c && s[|s| - 3] == ' '
      && s[|s| - 5..|s| - 3] == b
      && s[..|s| - 6] == a && s[|s| - 6] == ':'
  {
  }

  /** A label with two-character minute and mark pieces gives its pieces back. */
  lemma LabelInjective(a1: string, b1: string, c1: string, a2: string, b2: string, c2: string)
    requires |b1| == 2 && |c1| == 2 && |b2| == 2 && |c2| == 2
    requires Label(a1, b1, c1) == Label(a2, b2, c2)
    ensures a1 == a2 && b1 == b2 && c1 == c2
  {
    LabelParts(a1, b1, c1);
    LabelParts(a2, b2, c2);
  }

  /** `formatTime`: `h:mm AM` on a 12-hour clock, from the UTC hour and minute. */
  function FormatTime(t: Instant): string {
    Label(NatToString(DisplayHour(t.utcHours)), PadStart2(NatToString(t.utcMinutes)), Meridiem(t.utcHours))
  }

  /** The label ends in the AM/PM mark after a space, the two-digit minute and a colon, after the hour. */
  lemma FormatTimeLayout(t: Instant)
    ensures var r := FormatTime(t);
      && |r| >= 7
      && r[|r| - 2..] == Meridiem(t.utcHours) && r[|r| - 3] == ' '
      && r[|r| - 5..|r| - 3] == [DigitChar(t.utcMinutes / 10), DigitChar(t.utcMinutes % 10)]
      && r[..|r| - 6] == NatToString(DisplayHour(t.utcHours)) && r[|r| - 6] == ':'
  {
    var a, b, c := NatToString(DisplayHour(t.utcHours)), PadStart2(NatToString(t.utcMinutes)), Meridiem(t.utcHours);
    assert FormatTime(t) == Label(a, b, c);
    TwoDigitMinute(t.utcMinutes);
    LabelParts(a, b, c);
  }

  /** A minute is padded to its two decimal digits. */
  lemma TwoDigitMinute(m: Minute)
    ensures PadStart2(NatToString(m)) == [DigitChar(m / 10), DigitChar(m % 10)]
  {
    if m >= 10 {
      assert NatToString(m / 10) == [DigitChar(m / 10)];
    }
  }

  /** The 12-hour hour and the AM/PM mark together determine the hour. */
  lemma DisplayHourInjective(h1: Hour, h2: Hour)
    requires DisplayHour(h1) == DisplayHour(h2) && Meridiem(h1) == Meridiem(h2)
    ensures h1 == h2
  {
  }

  /** Distinct minutes are padded to distinct digit pairs. */
  lemma MinuteDigitsInjective(m1: Minute, m2: Minute)
    requires PadStart2(NatToString(m1)) == PadStart2(NatToString(m2))
    ensures m1 == m2
  {
    TwoDigitMinute(m1);
    TwoDigitMinute(m2);
    var p1, p2 := [DigitChar(m1 / 10), DigitChar(m1 % 10)], [DigitChar(m2 / 10), DigitChar(m2 % 10)];
    assert p1[0] == p2[0] && p1[1] == p2[1];
    DigitCharInjective(m1 / 10, m2 / 10);
    DigitCharInjective(m1 % 10, m2 % 10);
  }

  /** The hour text and the AM/PM mark determine the hour. */
  lemma HourTextInjective(h1: Hour, h2: Hour)
    requires NatToString(DisplayHour(h1)) == NatToString(DisplayHour(h2))
    requires Meridiem(h1) == Meridiem(h2)
    ensures h1 == h2
  {
    ParseNatToString(DisplayHour(h1));
    ParseNatToString(DisplayHour(h2));
    DisplayHourInjective(h1, h2);
  }

  /** Two times with the same label have the same UTC hour and minute: the label loses nothing. */
  lemma FormatTimeInjective(t1: Instant, t2: Instant)
    requires FormatTime(t1) == FormatTime(t2)
    ensures t1.utcHours == t2.utcHours && t1.utcMinutes == t2.utcMinutes
  {
    var h1, h2 := t1.utcHours, t2.utcHours;
    var m1, m2 := t1.utcMinutes, t2.utcMinutes;
    var a1, b1, c1 := NatToString(DisplayHour(h1)), PadStart2(NatToString(m1)), Meridiem(h1);
    var a2, b2, c2 := NatToString(DisplayHour(h2)), PadStart2(NatToString(m2)), Meridiem(h2);
    assert a1 == a2 && b1 == b2 && c1 == c2 by {
      assert |b1| == 2 && |b2| == 2 && |c1| == 2 && |c2| == 2;
      assert Label(a1, b1, c1) == Label(a2, b2, c2);
      LabelInjective(a1, b1, c1, a2, b2, c2);
    }
    HourTextInjective(h1, h2);
    MinuteDigitsInjective(m1, m2);
  }

  datatype TimeSlot = TimeSlot(hour: nat, caption: string)

  /** `timeSlots`: fourteen rows, for 8:00 to 21:00. */
  function TimeSlots(): (r: seq<TimeSlot>)
    ensures |r| == 14
    ensures forall i :: 0 <= i < 14 ==> r[i].hour == 8 + i && r[i].caption == NatToString(8 + i) + ":00"
  {
    seq(14, i requires 0 <= i < 14 => TimeSlot(8 + i, NatToString(8 + i) + ":00"))
  }

  datatype Direction = Prev | Next

  /** How the enrolment query ended. */
  datatype EnrolmentQuery = QueryError | QueryData(data: Option<seq<Enrolment>>)

  class WeekView {
    var enrolments: seq<Enrolment>
    var loading: bool
    var currentWeekStart: int

    /** The shown week always starts on a Monday. */
    ghost predicate Valid()
      reads this
    {
      Weekday(currentWeekStart) == 1
    }

    /** The initial state, on the local day `today`. */
    constructor(today: int)
      ensures Valid()
      ensures enrolments == [] && loading && currentWeekStart == GetMonday(today)
    {
      enrolments := [];
      loading := true;
      currentWeekStart := GetMonday(today);
    }

    /**
     * The `[userId]` effect: without a user id nothing is fetched and the spinner stays;
     * otherwise the rows replace the list (no rows meaning an empty list) and loading ends.
     */
    method FetchEnrolments(userId: string, query: EnrolmentQuery)
      requires Valid()
      modifies this
      ensures Valid() && currentWeekStart == old(currentWeekStart)
      ensures userId == "" ==> enrolments == old(enrolments) && loading == old(loading)
      ensures userId != "" ==> !loading
      ensures userId != "" && query.QueryData? ==> enrolments == query.data.GetOr([])
      ensures query.QueryError? ==> enrolments == old(enrolments)
    {
      if userId == "" {
        return;
      }
      match query {
        case QueryData(data) =>
          enrolments := data.GetOr([]);
        case QueryError =>
      }
      loading := false;
    }

    /** `changeWeek`: exactly seven days forward or back. */
    method ChangeWeek(direction: Direction)
      requires Valid()
      modifies this
      ensures Valid()
      ensures currentWeekStart == old(currentWeekStart) + (if direction == Next then 7 else -7)
      ensures enrolments == old(enrolments) && loading == old(loading)
    {
      WeekdayWeek(currentWeekStart);
      var newDate := currentWeekStart;
      newDate := newDate + (if direction == Next then 7 else -7);
      currentWeekStart := newDate;
    }

    /** `goToCurrentWeek`, on the local day `today`. */
    method GoToCurrentWeek(today: int)
      requires Valid()
      modifies this
      ensures Valid()
      ensures currentWeekStart == GetMonday(today)
      ensures enrolments == old(enrolments) && loading == old(loading)
    {
      currentWeekStart := GetMonday(today);
    }

    /** The columns shown for the current week. */
    function Columns(): (r: seq<DaySchedule>)
      reads this
      requires Valid()
      ensures |r| == 5
      ensures forall i :: 0 <= i < 5 ==> Weekday(r[i].date) == i + 1
    {
      var r := WeekDates(currentWeekStart, enrolments);
      forall i | 0 <= i < 5 ensures Weekday(r[i].date) == i + 1 {
        WeekdayStep(currentWeekStart, i);
      }
      r
    }
  }
}

/**
 * The time parameter (`_iso_date`): an ISO date or date-time normalised to
 * UTC and written as `YYYY-MM-DDTHH:MM:SSZ`, with today's midnight when no
 * date is given or the text cannot be read.
 *
 * The clock is a parameter (`today`), and so is the host's UTC offset, which
 * Python applies to date-times that carry no offset of their own.
 */
module Dates {
  import opened Wrappers
  import opened Text

  datatype Date = Date(year: int, month: int, day: int)
  datatype Instant = Instant(date: Date, hour: int, minute: int, second: int)

  const MinutesPerDay: int := 1440

  predicate IsLeap(y: int) {
    y % 4 == 0 && (y % 100 != 0 || y % 400 == 0)
  }

  function DaysIn(y: int, m: int): int
    requires 1 <= m <= 12
  {
    if m == 2 then (if IsLeap(y) then 29 else 28)
    else if m == 4 || m == 6 || m == 9 || m == 11 then 30
    else 31
  }

  /** A calendar date Python's `datetime` can hold (years 1 to 9999). */
  predicate ValidDate(d: Date) {
    1 <= d.year <= 9999 && 1 <= d.month <= 12 && 1 <= d.day <= DaysIn(d.year, d.month)
  }

  predicate ValidInstant(i: Instant) {
    ValidDate(i.date) && 0 <= i.hour < 24 && 0 <= i.minute < 60 && 0 <= i.second < 60
  }

  function Midnight(d: Date): Instant {
    Instant(d, 0, 0, 0)
  }

  // ----- The calendar -----

  function NextDay(d: Date): Date
    requires ValidDate(d)
  {
    if d.day < DaysIn(d.year, d.month) then Date(d.year, d.month, d.day + 1)
    else if d.month < 12 then Date(d.year, d.month + 1, 1)
    else Date(d.year + 1, 1, 1)
  }

  function PrevDay(d: Date): Date
    requires ValidDate(d)
  {
    if d.day > 1 then Date(d.year, d.month, d.day - 1)
    else if d.month > 1 then Date(d.year, d.month - 1, DaysIn(d.year, d.month - 1))
    else Date(d.year - 1, 12, 31)
  }

  function YearLength(y: int): int {
    if IsLeap(y) then 366 else 365
  }

  /** The days of the years before `y`, counting from year 1. */
  function DaysBeforeYear(y: int): int
    decreases y
  {
    if y <= 1 then 0 else DaysBeforeYear(y - 1) + YearLength(y - 1)
  }

  /** The days of the months before `m` in year `y`. */
  function DaysBeforeMonth(y: int, m: int): int
    requires 1 <= m <= 13
    decreases m
  {
    if m == 1 then 0 else DaysBeforeMonth(y, m - 1) + DaysIn(y, m - 1)
  }

  /** The day's number counting 0001-01-01 as day 0 (Python's ordinal minus one). */
  function DayNumber(d: Date): int
    requires ValidDate(d)
  {
    DaysBeforeYear(d.year) + DaysBeforeMonth(d.year, d.month) + d.day - 1
  }

  /** The minutes since 0001-01-01 00:00 of an instant. */
  function MinuteNumber(i: Instant): int
    requires ValidDate(i.date)
  {
    DayNumber(i.date) * MinutesPerDay + i.hour * 60 + i.minute
  }

  lemma MonthsMakeAYear(y: int)
    ensures DaysBeforeMonth(y, 13) == YearLength(y)
  {
  }

  /** The next day is the day numbered one more. */
  lemma NextDayNumber(d: Date)
    requires ValidDate(d) && ValidDate(NextDay(d))
    ensures DayNumber(NextDay(d)) == DayNumber(d) + 1
  {
    if d.day == DaysIn(d.year, d.month) && d.month == 12 {
      MonthsMakeAYear(d.year);
    }
  }

  lemma NextPrev(d: Date)
    requires ValidDate(d) && ValidDate(PrevDay(d))
    ensures NextDay(PrevDay(d)) == d
  {
  }

  lemma PrevNext(d: Date)
    requires ValidDate(d) && ValidDate(NextDay(d))
    ensures PrevDay(NextDay(d)) == d
  {
  }

  // ----- Digits -----

  predicate IsDigit(c: char) {
    '0' <= c <= '9'
  }

  predicate Digits(s: string) {
    forall i :: 0 <= i < |s| ==> IsDigit(s[i])
  }

  function DigitValue(c: char): int {
    c as int - '0' as int
  }

  function DigitChar(n: int): (c: char)
    requires 0 <= n < 10
    ensures IsDigit(c) && DigitValue(c) == n
  {
    ('0' as int + n) as char
  }

  function Num2(s: string): int
    requires |s| == 2
  {
    10 * DigitValue(s[0]) + DigitValue(s[1])
  }

  function Num4(s: string): int
    requires |s| == 4
  {
    100 * Num2(s[..2]) + Num2(s[2..])
  }

  /** Two decimal digits with a leading zero, as `%m`, `%d`, `%H`, `%M`, `%S` write them. */
  function Pad2(n: int): (r: string)
    requires 0 <= n < 100
    ensures |r| == 2 && Digits(r) && Num2(r) == n
  {
    [DigitChar(n / 10), DigitChar(n % 10)]
  }

  /** Four decimal digits with leading zeros. */
  function Pad4(n: int): (r: string)
    requires 0 <= n < 10000
    ensures |r| == 4 && Digits(r) && Num4(r) == n
  {
    var r := Pad2(n / 100) + Pad2(n % 100);
    assert r[..2] == Pad2(n / 100) && r[2..] == Pad2(n % 100);
    r
  }

  // ----- Reading -----

  /** `YYYY-MM-DD` naming a real date. */
  function ParseDate(s: string): Option<Date> {
    if |s| == 10 && s[4] == '-' && s[7] == '-' && Digits(s[..4]) && Digits(s[5..7]) && Digits(s[8..]) then
      var d := Date(Num4(s[..4]), Num2(s[5..7]), Num2(s[8..]));
      if ValidDate(d) then Some(d) else None
    else None
  }

  /** A wall-clock time of day. */
  datatype Clock = Clock(hour: int, minute: int, second: int)

  predicate ValidClock(c: Clock) {
    0 <= c.hour < 24 && 0 <= c.minute < 60 && 0 <= c.second < 60
  }

  /** `HH`, `HH:MM` or `HH:MM:SS` within range. */
  function ParseClock(s: string): (r: Option<Clock>)
    ensures r.Some? ==> ValidClock(r.value)
  {
    var c :=
      if |s| == 2 && Digits(s) then Some(Clock(Num2(s), 0, 0))
      else if |s| == 5 && s[2] == ':' && Digits(s[..2]) && Digits(s[3..]) then
        Some(Clock(Num2(s[..2]), Num2(s[3..]), 0))
      else if |s| == 8 && s[2] == ':' && s[5] == ':' && Digits(s[..2]) && Digits(s[3..5]) && Digits(s[6..]) then
        Some(Clock(Num2(s[..2]), Num2(s[3..5]), Num2(s[6..])))
      else None;
    if c.Some? && ValidClock(c.value) then c else None
  }

  /** `+HH:MM` or `-HH:MM`, as minutes east of UTC. */
  function ParseOffset(s: string): (r: Option<int>)
    ensures r.Some? ==> -MinutesPerDay < r.value < MinutesPerDay
  {
    if |s| == 6 && (s[0] == '+' || s[0] == '-') && s[3] == ':' && Digits(s[1..3]) && Digits(s[4..]) then
      var h := Num2(s[1..3]);
      var m := Num2(s[4..]);
      if h < 24 && m < 60 then Some(if s[0] == '-' then -(h * 60 + m) else h * 60 + m) else None
    else None
  }

  /** Where the UTC offset of a time starts: its first `+` or `-`. */
  function SignAt(s: string): (r: Option<nat>)
    ensures r.Some? ==> r.value < |s| && (s[r.value] == '+' || s[r.value] == '-')
    ensures r.Some? ==> forall j :: 0 <= j < r.value ==> s[j] != '+' && s[j] != '-'
    ensures r.None? ==> forall j :: 0 <= j < |s| ==> s[j] != '+' && s[j] != '-'
    decreases |s|
  {
    if |s| == 0 then None
    else if s[0] == '+' || s[0] == '-' then Some(0)
    else match SignAt(s[1..])
      case None => None
      case Some(p) => Some(p + 1)
  }

  /** A date-time as read: the wall-clock instant and its UTC offset, if it has one. */
  datatype Stamp = Stamp(local: Instant, offset: Option<int>)

  /**
   * `datetime.fromisoformat` on the forms modelled: a date alone, or a date,
   * any one separator character, a time and an optional offset.
   */
  function ParseIso(s: string): (r: Option<Stamp>)
    ensures r.Some? ==> ValidInstant(r.value.local)
    ensures r.Some? && r.value.offset.Some? ==> -MinutesPerDay < r.value.offset.value < MinutesPerDay
  {
    if |s| < 10 then None
    else match ParseDate(s[..10])
      case None => None
      case Some(d) =>
        if |s| == 10 then Some(Stamp(Midnight(d), None))
        else
          var rest := s[11..];
          match SignAt(rest)
          case None =>
            (match ParseClock(rest)
             case None => None
             case Some(c) => Some(Stamp(Instant(d, c.hour, c.minute, c.second), None)))
          case Some(p) =>
            (match (ParseClock(rest[..p]), ParseOffset(rest[p..]))
             case (Some(c), Some(off)) => Some(Stamp(Instant(d, c.hour, c.minute, c.second), Some(off)))
             case _ => None)
  }

  /**
   * `astimezone(timezone.utc)`: subtract the offset, moving at most one day;
   * leaving years 1 to 9999 is an error.
   */
  function ToUtc(local: Instant, offset: int): (r: Option<Instant>)
    requires ValidInstant(local) && -MinutesPerDay < offset < MinutesPerDay
    ensures r.Some? ==> ValidInstant(r.value) && r.value.second == local.second
  {
    var m := local.hour * 60 + local.minute - offset;
    var d := local.date;
    var (day, mm) :=
      if m < 0 then (PrevDay(d), m + MinutesPerDay)
      else if m >= MinutesPerDay then (NextDay(d), m - MinutesPerDay)
      else (d, m);
    if ValidDate(day) then Some(Instant(day, mm / 60, mm % 60, local.second)) else None
  }

  /** Python's treatment of `dt` before parsing: `Z` read as `+00:00`, or a midnight UTC time appended. */
  function Prepared(dt: string): string {
    if 'T' in dt then ReplaceWith(dt, 'Z', "+00:00") else dt + "T00:00:00+00:00"
  }

  /**
   * The UTC instant `_iso_date` stands for: today's midnight when `dt` is
   * absent, empty or unreadable, and otherwise the parsed date-time in UTC
   * (its own offset, else the host's `localOffset`).
   */
  function NormalizeDate(dt: Option<string>, today: Date, localOffset: int): (r: Instant)
    requires ValidDate(today) && -MinutesPerDay < localOffset < MinutesPerDay
    ensures ValidInstant(r)
  {
    if dt.None? || |dt.value| == 0 then Midnight(today)
    else match ParseIso(Prepared(dt.value))
      case None => Midnight(today)
      case Some(st) =>
        match ToUtc(st.local, st.offset.GetOr(localOffset))
        case None => Midnight(today)
        case Some(u) => u
  }

  // ----- Writing -----

  /** `strftime("%Y-%m-%d")`. */
  function FormatDate(d: Date): (r: string)
    requires ValidDate(d)
    ensures |r| == 10
  {
    Pad4(d.year) + "-" + Pad2(d.month) + "-" + Pad2(d.day)
  }

  /** `strftime("%Y-%m-%dT%H:%M:%S")`, without the zone letter. */
  function FormatLocal(i: Instant): (r: string)
    requires ValidInstant(i)
    ensures |r| == 19
  {
    FormatDate(i.date) + "T" + Pad2(i.hour) + ":" + Pad2(i.minute) + ":" + Pad2(i.second)
  }

  /** `strftime("%Y-%m-%dT%H:%M:%SZ")`. */
  function Format(i: Instant): string
    requires ValidInstant(i)
  {
    FormatLocal(i) + "Z"
  }

  /** `_iso_date(dt)`. */
  function IsoDate(dt: Option<string>, today: Date, localOffset: int): string
    requires ValidDate(today) && -MinutesPerDay < localOffset < MinutesPerDay
  {
    Format(NormalizeDate(dt, today, localOffset))
  }

  // ----- Properties -----

  /** Converting to UTC subtracts exactly the offset, in minutes since year 1. */
  lemma ToUtcShift(local: Instant, offset: int)
    requires ValidInstant(local) && -MinutesPerDay < offset < MinutesPerDay
    requires ToUtc(local, offset).Some?
    ensures MinuteNumber(ToUtc(local, offset).value) == MinuteNumber(local) - offset
  {
    var m := local.hour * 60 + local.minute - offset;
    var d := local.date;
    if m < 0 {
      NextPrev(d);
      NextDayNumber(PrevDay(d));
    } else if m >= MinutesPerDay {
      NextDayNumber(d);
    }
  }

  /** Conversion fails only by leaving year 1 or year 9999. */
  lemma ToUtcFails(local: Instant, offset: int)
    requires ValidInstant(local) && -MinutesPerDay < offset < MinutesPerDay
    ensures var m := local.hour * 60 + local.minute - offset;
      ToUtc(local, offset).None? <==>
        (local.date == Date(1, 1, 1) && m < 0) || (local.date == Date(9999, 12, 31) && m >= MinutesPerDay)
  {
  }

  /** An instant already in UTC is left as it is. */
  lemma ToUtcZero(local: Instant)
    requires ValidInstant(local)
    ensures ToUtc(local, 0) == Some(local)
  {
  }

  /** A written date reads back as itself. */
  lemma ParseFormatDate(d: Date)
    requires ValidDate(d)
    ensures ParseDate(FormatDate(d)) == Some(d)
  {
    var y := Pad4(d.year);
    var s := FormatDate(d);
    assert s[..4] == y;
    assert s[5..7] == Pad2(d.month);
    assert s[8..] == Pad2(d.day);
  }

  /** A written clock reads back as itself. */
  lemma ParseFormatClock(h: int, m: int, sec: int)
    requires ValidClock(Clock(h, m, sec))
    ensures ParseClock(Pad2(h) + ":" + Pad2(m) + ":" + Pad2(sec)) == Some(Clock(h, m, sec))
  {
    var s := Pad2(h) + ":" + Pad2(m) + ":" + Pad2(sec);
    assert s[..2] == Pad2(h);
    assert s[3..5] == Pad2(m);
    assert s[6..] == Pad2(sec);
  }

  lemma ParseZeroOffset()
    ensures ParseOffset("+00:00") == Some(0)
  {
    var z := "+00:00";
    assert z[1..3] == "00" && z[4..] == "00";
  }

  /** The wall-clock text of an instant followed by `+00:00` reads back as that instant in UTC. */
  lemma ParseStampUtc(i: Instant)
    requires ValidInstant(i)
    ensures ParseIso(FormatLocal(i) + "+00:00") == Some(Stamp(i, Some(0)))
  {
    var s := FormatLocal(i) + "+00:00";
    var clock := Pad2(i.hour) + ":" + Pad2(i.minute) + ":" + Pad2(i.second);
    assert s[..10] == FormatDate(i.date);
    ParseFormatDate(i.date);
    var rest := s[11..];
    assert rest == clock + "+00:00";
    assert SignAt(rest) == Some(8) by {
      assert Digits(clock[..2]) && Digits(clock[3..5]) && Digits(clock[6..]);
      forall j | 0 <= j < 8 ensures rest[j] != '+' && rest[j] != '-' {
        if j < 2 {
          assert rest[j] == clock[..2][j];
        } else if 3 <= j < 5 {
          assert rest[j] == clock[3..5][j - 3];
        } else if 6 <= j {
          assert rest[j] == clock[6..][j - 6];
        }
      }
      SignAtFirst(rest, 8);
    }
    assert rest[..8] == clock && rest[8..] == "+00:00";
    ParseFormatClock(i.hour, i.minute, i.second);
    ParseZeroOffset();
  }

  /** `SignAt` finds a sign preceded by none. */
  lemma {:induction false} SignAtFirst(s: string, p: nat)
    requires p < |s| && (s[p] == '+' || s[p] == '-')
    requires forall j :: 0 <= j < p ==> s[j] != '+' && s[j] != '-'
    ensures SignAt(s) == Some(p)
    decreases p
  {
    if p > 0 {
      SignAtFirst(s[1..], p - 1);
    }
  }

  /** The written form has no `Z` before the zone letter: only digits, `-`, `T` and `:`. */
  lemma NoZoneLetter(i: Instant)
    requires ValidInstant(i)
    ensures 'Z' !in FormatLocal(i) && 'T' in FormatLocal(i)
  {
    var s := FormatLocal(i);
    assert s[10] == 'T';
    forall j | 0 <= j < |s| ensures s[j] != 'Z' {
      var y := Pad4(i.date.year);
      if j < 4 {
        assert s[j] == y[j];
      } else if 5 <= j < 7 {
        assert s[j] == Pad2(i.date.month)[j - 5];
      } else if 8 <= j < 10 {
        assert s[j] == Pad2(i.date.day)[j - 8];
      } else if 11 <= j < 13 {
        assert s[j] == Pad2(i.hour)[j - 11];
      } else if 14 <= j < 16 {
        assert s[j] == Pad2(i.minute)[j - 14];
      } else if 17 <= j {
        assert s[j] == Pad2(i.second)[j - 17];
      }
    }
  }

  /** Reading back what `_iso_date` wrote gives the same instant. */
  lemma NormalizeFormat(i: Instant, today: Date, localOffset: int)
    requires ValidInstant(i)
    requires ValidDate(today) && -MinutesPerDay < localOffset < MinutesPerDay
    ensures NormalizeDate(Some(Format(i)), today, localOffset) == i
  {
    var s := Format(i);
    NoZoneLetter(i);
    assert 'T' in s by {
      assert s[10] == FormatLocal(i)[10];
    }
    ReplaceWithAppend(FormatLocal(i), "Z", 'Z', "+00:00");
    assert Prepared(s) == FormatLocal(i) + "+00:00";
    ParseStampUtc(i);
    ToUtcZero(i);
  }

  /** `_iso_date` is idempotent: its output is a fixed point. */
  lemma IsoDateIdempotent(dt: Option<string>, today: Date, localOffset: int)
    requires ValidDate(today) && -MinutesPerDay < localOffset < MinutesPerDay
    ensures IsoDate(Some(IsoDate(dt, today, localOffset)), today, localOffset) == IsoDate(dt, today, localOffset)
  {
    NormalizeFormat(NormalizeDate(dt, today, localOffset), today, localOffset);
  }

  /** A written date holds only digits and `-`. */
  lemma NoLetterInDate(d: Date)
    requires ValidDate(d)
    ensures 'T' !in FormatDate(d)
  {
    var s := FormatDate(d);
    forall j | 0 <= j < |s| ensures s[j] != 'T' {
      if j < 4 {
        assert s[j] == Pad4(d.year)[j];
      } else if 5 <= j < 7 {
        assert s[j] == Pad2(d.month)[j - 5];
      } else if 8 <= j {
        assert s[j] == Pad2(d.day)[j - 8];
      }
    }
  }

  /** A plain `YYYY-MM-DD` date is that day's midnight UTC. */
  lemma DateOnlyIsMidnight(d: Date, today: Date, localOffset: int)
    requires ValidDate(d)
    requires ValidDate(today) && -MinutesPerDay < localOffset < MinutesPerDay
    ensures IsoDate(Some(FormatDate(d)), today, localOffset) == FormatDate(d) + "T00:00:00Z"
  {
    var s := FormatDate(d);
    var m := Midnight(d);
    NoLetterInDate(d);
    assert Pad2(0) == "00";
    assert FormatLocal(m) + "+00:00" == s + "T00:00:00+00:00";
    ParseStampUtc(m);
    ToUtcZero(m);
    assert Format(m) == s + "T00:00:00Z";
  }

  /** Without a date the time is today's midnight. */
  lemma AbsentIsToday(today: Date, localOffset: int)
    requires ValidDate(today) && -MinutesPerDay < localOffset < MinutesPerDay
    ensures IsoDate(None, today, localOffset) == FormatDate(today) + "T00:00:00Z"
    ensures IsoDate(Some(""), today, localOffset) == FormatDate(today) + "T00:00:00Z"
  {
    assert Pad2(0) == "00";
  }

  /** Text that cannot be read, or that leaves years 1 to 9999 in UTC, gives today's midnight. */
  lemma UnreadableIsToday(dt: string, today: Date, localOffset: int)
    requires ValidDate(today) && -MinutesPerDay < localOffset < MinutesPerDay
    requires match ParseIso(Prepared(dt))
      case None => true
      case Some(st) => ToUtc(st.local, st.offset.GetOr(localOffset)).None?
    ensures IsoDate(Some(dt), today, localOffset) == FormatDate(today) + "T00:00:00Z"
  {
    assert Pad2(0) == "00";
  }

  /**
   * A readable date-time is moved to UTC by its own offset, or by the host's
   * when it has none: the result is that many minutes earlier.
   */
  lemma NormalizeShift(dt: string, today: Date, localOffset: int)
    requires ValidDate(today) && -MinutesPerDay < localOffset < MinutesPerDay
    requires |dt| > 0 && ParseIso(Prepared(dt)).Some?
    requires var st := ParseIso(Prepared(dt)).value; ToUtc(st.local, st.offset.GetOr(localOffset)).Some?
    ensures var st := ParseIso(Prepared(dt)).value;
      MinuteNumber(NormalizeDate(Some(dt), today, localOffset)) == MinuteNumber(st.local) - st.offset.GetOr(localOffset)
  {
    var st := ParseIso(Prepared(dt)).value;
    ToUtcShift(st.local, st.offset.GetOr(localOffset));
  }
}

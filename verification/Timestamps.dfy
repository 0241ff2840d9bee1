/** Timestamps as text (`internal/store/sqlitestore/convert.go`): the database compares the stored
    text, the program compares instants, and the two orders are the same (RFC 3339 section 5.1). */
module Timestamps {
  import opened Text

  // ----- The calendar -----

  /** Nanoseconds since the start of year 0, UTC. */
  type Instant = nat

  const NANOS_PER_DAY := 86_400_000_000_000

  predicate Leap(year: nat) {
    year % 4 == 0 && (year % 100 != 0 || year % 400 == 0)
  }

  function DaysInYear(year: nat): nat {
    if Leap(year) then 366 else 365
  }

  function DaysInMonth(year: nat, month: nat): nat {
    if month == 2 then (if Leap(year) then 29 else 28)
    else if month == 4 || month == 6 || month == 9 || month == 11 then 30 else 31
  }

  datatype YearDay = YearDay(year: nat, day: nat)

  /** Counting `days` from the start of `year`: the year reached, and the day in it. */
  function CountYears(days: nat, year: nat): YearDay {
    if days < DaysInYear(year) then YearDay(year, days) else CountYears(days - DaysInYear(year), year + 1)
  }

  datatype MonthDay = MonthDay(month: nat, day: nat)

  /** Counting `days` from the start of `month`; days of the month start at 1. */
  function CountMonths(days: nat, year: nat, month: nat): MonthDay
    decreases 12 - month
  {
    if month >= 12 || days < DaysInMonth(year, month) then MonthDay(month, days + 1)
    else CountMonths(days - DaysInMonth(year, month), year, month + 1)
  }

  /** The last day of year 9999 is covered by the four-digit year field. */
  predicate InRange(t: Instant) {
    CountYears(t / NANOS_PER_DAY, 0).year <= 9999
  }

  // ----- The text -----

  /** The last `width` decimal digits of n, with leading zeros. */
  function Pad(n: nat, width: nat): (s: string)
    ensures |s| == width
  {
    if width == 0 then "" else Pad(n / 10, width - 1) + [('0' as int + n % 10) as char]
  }

  function DateText(day: nat): string {
    var y := CountYears(day, 0);
    var m := CountMonths(y.day, y.year, 1);
    Pad(y.year, 4) + ("-" + (Pad(m.month, 2) + ("-" + Pad(m.day, 2))))
  }

  function TimeText(nanos: nat): string {
    ClockText(ClockOf(nanos))
  }

  /** The layout 2006-01-02T15:04:05.000000000Z. */
  function FormatTime(t: Instant): string {
    DateText(t / NANOS_PER_DAY) + ("T" + (TimeText(t % NANOS_PER_DAY) + "Z"))
  }

  /** The zero time, 1 January of year 1, stands for "never" and is stored as NULL. */
  const ZERO_TIME: Instant := 366 * NANOS_PER_DAY

  function FormatNullable(t: Instant): Option<string> {
    if t == ZERO_TIME then None else Some(FormatTime(t))
  }

  // ----- Fixed-width fields compare like what they show -----

  function Pow10(w: nat): nat {
    if w == 0 then 1 else 10 * Pow10(w - 1)
  }

  /** Texts of equal width are compared first. */
  lemma {:induction false} LessFields(x: string, r: string, y: string, t: string)
    requires |x| == |y|
    ensures Less(x + r, y + t) <==> Less(x, y) || (x == y && Less(r, t))
  {
    if x == "" {
      assert x + r == r && y + t == t;
    } else {
      assert (x + r)[1..] == x[1..] + r && (y + t)[1..] == y[1..] + t;
      assert x == [x[0]] + x[1..] && y == [y[0]] + y[1..];
      LessFields(x[1..], r, y[1..], t);
    }
  }

  lemma LessSeparated(x: string, sep: char, r: string, y: string, t: string)
    requires |x| == |y|
    ensures Less(x + ([sep] + r), y + ([sep] + t)) <==> Less(x, y) || (x == y && Less(r, t))
  {
    LessFields(x, [sep] + r, y, [sep] + t);
    LessFields([sep], r, [sep], t);
    LessIrreflexive([sep]);
  }

  lemma {:induction false} PadOrder(a: nat, b: nat, width: nat)
    requires a < Pow10(width) && b < Pow10(width)
    ensures Less(Pad(a, width), Pad(b, width)) <==> a < b
    ensures Pad(a, width) == Pad(b, width) <==> a == b
  {
    if width > 0 {
      PadOrder(a / 10, b / 10, width - 1);
      var x, y := [('0' as int + a % 10) as char], [('0' as int + b % 10) as char];
      LessFields(Pad(a / 10, width - 1), x, Pad(b / 10, width - 1), y);
      assert Less(x, y) <==> a % 10 < b % 10;
      assert Pad(a, width)[..width - 1] == Pad(a / 10, width - 1);
      assert Pad(b, width)[..width - 1] == Pad(b / 10, width - 1);
      assert Pad(a, width)[width - 1] == x[0] && Pad(b, width)[width - 1] == y[0];
    }
  }

  lemma {:induction false} PadReads(n: nat, width: nat)
    requires n < Pow10(width)
    ensures Digits(Pad(n, width)) == Some(n)
  {
    if width > 0 {
      PadReads(n / 10, width - 1);
      assert Pad(n, width)[..width] == Pad(n, width);
      assert Pad(n, width)[..width - 1] == Pad(n / 10, width - 1);
    }
  }

  // ----- The calendar in closed form -----

  /** The days before a year of the Gregorian calendar. */
  function DaysBefore(year: nat): int {
    365 * year + (year + 3) / 4 - (year + 99) / 100 + (year + 399) / 400
  }

  lemma DaysBeforeNext(year: nat)
    ensures DaysBefore(year + 1) == DaysBefore(year) + DaysInYear(year)
  {
    Multiples4(year);
    Multiples100(year);
    Multiples400(year);
    Centuries(year);
  }

  lemma Multiples4(year: nat)
    ensures (year + 4) / 4 == (year + 3) / 4 + if year % 4 == 0 then 1 else 0
  {
  }

  lemma Multiples100(year: nat)
    ensures (year + 100) / 100 == (year + 99) / 100 + if year % 100 == 0 then 1 else 0
  {
  }

  lemma Multiples400(year: nat)
    ensures (year + 400) / 400 == (year + 399) / 400 + if year % 400 == 0 then 1 else 0
  {
  }

  lemma Centuries(year: nat)
    ensures (year % 400 == 0 ==> year % 100 == 0) && (year % 100 == 0 ==> year % 4 == 0)
  {
    assert year % 400 == 0 ==> year == year / 400 * 4 * 100;
    assert year % 100 == 0 ==> year == year / 100 * 25 * 4;
  }

  lemma {:induction false} YearsFrom(days: nat, year: nat)
    ensures var r := CountYears(days, year); DaysBefore(year) + days == DaysBefore(r.year) + r.day
    decreases days
  {
    hide DaysBefore, Leap;
    if days >= DaysInYear(year) {
      DaysBeforeNext(year);
      YearsFrom(days - DaysInYear(year), year + 1);
    }
  }

  /** The days of a year before a month. */
  function DaysBeforeMonth(year: nat, month: nat): int
    requires 1 <= month <= 12
  {
    [0, 31, 59, 90, 120, 151, 181, 212, 243, 273, 304, 334][month - 1]
    + if month > 2 && year % 4 == 0 && (year % 100 != 0 || year % 400 == 0) then 1 else 0
  }

  lemma DaysBeforeMonthNext(year: nat, month: nat)
    requires 1 <= month < 12
    ensures DaysBeforeMonth(year, month + 1) == DaysBeforeMonth(year, month) + DaysInMonth(year, month)
  {
  }

  lemma {:induction false} MonthsFrom(days: nat, year: nat, month: nat)
    requires 1 <= month <= 12
    ensures var r := CountMonths(days, year, month);
            && month <= r.month <= 12 && 1 <= r.day
            && DaysBeforeMonth(year, month) + days == DaysBeforeMonth(year, r.month) + r.day - 1
            && (r.month < 12 ==> r.day <= DaysInMonth(year, r.month))
    decreases 12 - month
  {
    hide DaysInMonth, DaysBeforeMonth;
    if month < 12 && days >= DaysInMonth(year, month) {
      DaysBeforeMonthNext(year, month);
      MonthsFrom(days - DaysInMonth(year, month), year, month + 1);
    }
  }

  /** The date of a day is its date in the Gregorian calendar: year, month and day of the month, counted in
      closed form, give the day number back. */
  lemma DateExactly(day: nat)
    ensures var y := CountYears(day, 0);
            var m := CountMonths(y.day, y.year, 1);
            && 1 <= m.month <= 12 && 1 <= m.day <= DaysInMonth(y.year, m.month)
            && day == DaysBefore(y.year) + DaysBeforeMonth(y.year, m.month) + m.day - 1
  {
    hide CountYears, CountMonths, DaysInYear, DaysInMonth, DaysBeforeMonth, Leap;
    var y := CountYears(day, 0);
    YearsFrom(day, 0);
    MonthsFrom(y.day, y.year, 1);
    YearsOrder(day, day, 0);
    YearEnds(y.year);
  }

  lemma YearEnds(year: nat)
    ensures DaysBeforeMonth(year, 1) == 0 && DaysBeforeMonth(year, 12) + 31 == DaysInYear(year)
    ensures DaysInMonth(year, 12) == 31
  {
  }

  // ----- Later days have later dates -----

  lemma {:induction false} YearsOrder(a: nat, b: nat, year: nat)
    ensures var x, y := CountYears(a, year), CountYears(b, year);
            && (a < b <==> x.year < y.year || (x.year == y.year && x.day < y.day))
            && (a == b <==> x == y) && year <= x.year && x.day < DaysInYear(x.year)
    decreases a + b
  {
    hide Leap;
    if a >= DaysInYear(year) && b >= DaysInYear(year) {
      YearsOrder(a - DaysInYear(year), b - DaysInYear(year), year + 1);
    } else if a >= DaysInYear(year) {
      YearsOrder(a - DaysInYear(year), 0, year + 1);
    } else if b >= DaysInYear(year) {
      YearsOrder(0, b - DaysInYear(year), year + 1);
    }
  }

  /** The days left from the start of a month to the end of the year. */
  function DaysFrom(year: nat, month: nat): nat
    decreases 12 - month
  {
    if month >= 12 then 31 else DaysInMonth(year, month) + DaysFrom(year, month + 1)
  }

  lemma WholeYear(year: nat)
    ensures DaysFrom(year, 1) == DaysInYear(year)
  {
    assert DaysFrom(year, 9) == 122 && DaysFrom(year, 5) == 245;
  }

  lemma MonthLength(year: nat, month: nat)
    ensures 28 <= DaysInMonth(year, month) <= 31
  {
  }

  lemma SomeDaysFrom(year: nat, month: nat)
    ensures DaysFrom(year, month) > 0
  {
    MonthLength(year, month);
  }

  lemma {:induction false} MonthsOrder(a: nat, b: nat, year: nat, month: nat)
    requires 1 <= month <= 12 && a < DaysFrom(year, month) && b < DaysFrom(year, month)
    ensures var x, y := CountMonths(a, year, month), CountMonths(b, year, month);
            && (a < b <==> x.month < y.month || (x.month == y.month && x.day < y.day))
            && (a == b <==> x == y)
            && month <= x.month <= 12 && 1 <= x.day <= 31 && month <= y.month <= 12 && 1 <= y.day <= 31
    decreases 12 - month
  {
    hide Leap, DaysInMonth;
    MonthLength(year, month);
    if month < 12 {
      var n := DaysInMonth(year, month);
      SomeDaysFrom(year, month + 1);
      if a >= n && b >= n {
        MonthsOrder(a - n, b - n, year, month + 1);
      } else if a >= n {
        MonthsOrder(a - n, 0, year, month + 1);
      } else if b >= n {
        MonthsOrder(0, b - n, year, month + 1);
      }
    }
  }

  lemma DateOrder(a: nat, b: nat)
    requires CountYears(a, 0).year <= 9999 && CountYears(b, 0).year <= 9999
    ensures |DateText(a)| == |DateText(b)| == 10
    ensures Less(DateText(a), DateText(b)) <==> a < b
    ensures DateText(a) == DateText(b) <==> a == b
  {
    hide Pad, CountYears, CountMonths, Leap, DaysInYear, DaysFrom, Less;
    var x, y := CountYears(a, 0), CountYears(b, 0);
    YearsOrder(a, b, 0);
    YearsOrder(b, a, 0);
    assert Pow10(4) == 10000 && Pow10(2) == 100;
    PadOrder(x.year, y.year, 4);
    var rest, rest' := DayText(x), DayText(y);
    LessSeparated(Pad(x.year, 4), '-', rest, Pad(y.year, 4), rest');
    FieldsEqual(Pad(x.year, 4), "-" + rest, Pad(y.year, 4), "-" + rest');
    FieldsEqual("-", rest, "-", rest');
    if x.year == y.year {
      WholeYear(x.year);
      DayOrder(x, y);
    }
  }

  function DayText(y: YearDay): string {
    var m := CountMonths(y.day, y.year, 1);
    Pad(m.month, 2) + ("-" + Pad(m.day, 2))
  }

  lemma FieldsEqual(x: string, r: string, y: string, t: string)
    requires |x| == |y|
    ensures x + r == y + t <==> x == y && r == t
  {
    if x + r == y + t {
      assert x == (x + r)[..|x|] && y == (y + t)[..|x|] && r == (x + r)[|x|..] && t == (y + t)[|x|..];
    }
  }

  lemma DayOrder(x: YearDay, y: YearDay)
    requires x.year == y.year && x.day < DaysFrom(x.year, 1) && y.day < DaysFrom(x.year, 1)
    ensures |DayText(x)| == |DayText(y)| == 5
    ensures Less(DayText(x), DayText(y)) <==> x.day < y.day
    ensures DayText(x) == DayText(y) <==> x.day == y.day
  {
    hide Pad, CountMonths, Leap, DaysFrom, Less;
    MonthsOrder(x.day, y.day, x.year, 1);
    var m, n := CountMonths(x.day, x.year, 1), CountMonths(y.day, y.year, 1);
    assert Pow10(2) == 100;
    PadOrder(m.month, n.month, 2);
    PadOrder(m.day, n.day, 2);
    LessSeparated(Pad(m.month, 2), '-', Pad(m.day, 2), Pad(n.month, 2), Pad(n.day, 2));
    FieldsEqual(Pad(m.month, 2), "-" + Pad(m.day, 2), Pad(n.month, 2), "-" + Pad(n.day, 2));
    FieldsEqual("-", Pad(m.day, 2), "-", Pad(n.day, 2));
  }

  // ----- Later times of day have later texts -----

  /** One field in front of a rest that is already known to compare like its number. */
  lemma FieldOrder(h: nat, h': nat, width: nat, sep: char, r: string, r': string, n: nat, n': nat)
    requires h < Pow10(width) && h' < Pow10(width)
    requires (Less(r, r') <==> n < n') && (r == r' <==> n == n')
    ensures var x, y := Pad(h, width) + ([sep] + r), Pad(h', width) + ([sep] + r');
            (Less(x, y) <==> h < h' || (h == h' && n < n')) && (x == y <==> h == h' && n == n')
  {
    hide Less, Pad, Pow10;
    PadOrder(h, h', width);
    LessSeparated(Pad(h, width), sep, r, Pad(h', width), r');
    FieldsEqual(Pad(h, width), [sep] + r, Pad(h', width), [sep] + r');
    FieldsEqual([sep], r, [sep], r');
  }

  lemma Powers()
    ensures Pow10(2) == 100 && Pow10(4) == 10000 && Pow10(9) == 1_000_000_000
  {
    assert Pow10(4) == 10000;
    assert Pow10(6) == 1_000_000;
  }

  /** Hours, minutes, seconds and nanoseconds of a time of day. */
  datatype Clock = Clock(hour: nat, minute: nat, second: nat, nano: nat)

  function ClockOf(nanos: nat): (c: Clock)
    ensures nanos == ((c.hour * 60 + c.minute) * 60 + c.second) * 1_000_000_000 + c.nano
    ensures c.minute < 60 && c.second < 60 && c.nano < 1_000_000_000
    ensures nanos < NANOS_PER_DAY ==> c.hour < 24
  {
    var seconds := nanos / 1_000_000_000;
    Clock(seconds / 3600, seconds / 60 % 60, seconds % 60, nanos % 1_000_000_000)
  }

  function ClockText(c: Clock): string {
    Pad(c.hour, 2) + (":" + (Pad(c.minute, 2) + (":" + (Pad(c.second, 2) + ("." + Pad(c.nano, 9))))))
  }

  lemma ClockOrder(c: Clock, d: Clock, a: nat, b: nat)
    requires c.hour < 24 && c.minute < 60 && c.second < 60 && c.nano < 1_000_000_000
    requires d.hour < 24 && d.minute < 60 && d.second < 60 && d.nano < 1_000_000_000
    requires a == ((c.hour * 60 + c.minute) * 60 + c.second) * 1_000_000_000 + c.nano
    requires b == ((d.hour * 60 + d.minute) * 60 + d.second) * 1_000_000_000 + d.nano
    ensures |ClockText(c)| == |ClockText(d)| == 18
    ensures Less(ClockText(c), ClockText(d)) <==> a < b
    ensures ClockText(c) == ClockText(d) <==> a == b
  {
    hide Less, Pad, Pow10;
    Powers();
    PadOrder(c.nano, d.nano, 9);
    var r3, r3' := Pad(c.nano, 9), Pad(d.nano, 9);
    FieldOrder(c.second, d.second, 2, '.', r3, r3', c.nano, d.nano);
    var r2, r2' := Pad(c.second, 2) + ("." + r3), Pad(d.second, 2) + ("." + r3');
    var n2, n2' := c.second * 1_000_000_000 + c.nano, d.second * 1_000_000_000 + d.nano;
    FieldOrder(c.minute, d.minute, 2, ':', r2, r2', n2, n2');
    var r1, r1' := Pad(c.minute, 2) + (":" + r2), Pad(d.minute, 2) + (":" + r2');
    var n1, n1' := c.minute * 60_000_000_000 + n2, d.minute * 60_000_000_000 + n2';
    FieldOrder(c.hour, d.hour, 2, ':', r1, r1', n1, n1');
  }

  lemma TimeOrder(a: nat, b: nat)
    requires a < NANOS_PER_DAY && b < NANOS_PER_DAY
    ensures |TimeText(a)| == |TimeText(b)| == 18
    ensures Less(TimeText(a), TimeText(b)) <==> a < b
    ensures TimeText(a) == TimeText(b) <==> a == b
  {
    hide Less, Pad, ClockOf;
    ClockOrder(ClockOf(a), ClockOf(b), a, b);
  }

  // ----- The whole timestamp -----

  /** Text order is time order, and different instants have different texts of the same width. */
  lemma FormatOrder(a: Instant, b: Instant)
    requires InRange(a) && InRange(b)
    ensures |FormatTime(a)| == |FormatTime(b)| == 30
    ensures Less(FormatTime(a), FormatTime(b)) <==> a < b
    ensures FormatTime(a) == FormatTime(b) <==> a == b
  {
    hide Less, DateText, TimeText, CountYears;
    var da, db, ta, tb := a / NANOS_PER_DAY, b / NANOS_PER_DAY, a % NANOS_PER_DAY, b % NANOS_PER_DAY;
    DateOrder(da, db);
    TimeOrder(ta, tb);
    LessFields(TimeText(ta), "Z", TimeText(tb), "Z");
    LessIrreflexive("Z");
    FieldsEqual(TimeText(ta), "Z", TimeText(tb), "Z");
    var ra, rb := TimeText(ta) + "Z", TimeText(tb) + "Z";
    LessSeparated(DateText(da), 'T', ra, DateText(db), rb);
    FieldsEqual(DateText(da), "T" + ra, DateText(db), "T" + rb);
    FieldsEqual("T", ra, "T", rb);
  }

  /** The database's guard: expires_at IS NULL OR expires_at > ?. */
  predicate SqlLive(expiresAt: Option<string>, now: string) {
    expiresAt == None || Less(now, expiresAt.value)
  }

  /** The expiry check of `Verify`. */
  predicate Expired(expiresAt: Instant, now: Instant) {
    expiresAt != ZERO_TIME && !(now < expiresAt)
  }

  /** The guard on the stored text accepts exactly when the program's own check would. */
  lemma GuardAgrees(expiresAt: Instant, now: Instant)
    requires InRange(expiresAt) && InRange(now)
    ensures SqlLive(FormatNullable(expiresAt), FormatTime(now)) <==> !Expired(expiresAt, now)
  {
    hide FormatTime, InRange, Less;
    FormatOrder(now, expiresAt);
  }
}

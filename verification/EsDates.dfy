/**
 The day count and the ISO date check of es5-shim, against counting days one by one in the calendar of section
 15.9.1.3 of ECMA-262 edition 5. Months are numbered from 0, days of a month from 1.
 */
module EsDates {
  import opened Wrappers

  // ----- the program -----

  function DaysBefore(month: nat): int
    requires month <= 12
  {
    match month
    case 0 => 0 case 1 => 31 case 2 => 59 case 3 => 90 case 4 => 120 case 5 => 151 case 6 => 181
    case 7 => 212 case 8 => 243 case 9 => 273 case 10 => 304 case 11 => 334 case _ => 365
  }

  /** The closed form: days from the start of 1970 to the start of a month. The divisors are positive, so / floors. */
  function DayFromMonth(t: int, e: nat): int
    requires e <= 12
  {
    var r := if e > 1 then 1 else 0;
    DaysBefore(e) + LeapDays(t + r) + 365 * (t - 1970)
  }

  function LeapDays(t: int): int {
    (t - 1969) / 4 - (t - 1901) / 100 + (t - 1601) / 400
  }

  /** What the regular expression takes from the text; missing parts have their defaults. */
  datatype Fields = Fields(year: int, month: nat, day: nat, hour: nat, minute: nat, second: nat, millisecond: nat,
                           local: bool, west: bool, offsetHour: nat, offsetMinute: nat)

  const LIMIT := 8_640_000_000_000_000

  /** `toUtc` turns a local time value into a universal one. */
  function Parse(f: Fields, toUtc: int -> int): Option<int> {
    var month, day := f.month as int - 1, f.day as int - 1;
    var beyond := f.minute > 0 || f.second > 0 || f.millisecond > 0;
    var g := if f.west then 1 else -1;
    if f.hour < (if beyond then 24 else 25) && f.minute < 60 && f.second < 60 && f.millisecond < 1000
       && month > -1 && month < 12 && f.offsetHour < 24 && f.offsetMinute < 60
       && day > -1 && day < DayFromMonth(f.year, month + 1) - DayFromMonth(f.year, month) then
      var hours := 24 * (DayFromMonth(f.year, month) + day) + f.hour + f.offsetHour * g;
      var a := 1000 * (60 * (60 * hours + f.minute + f.offsetMinute * g) + f.second) + f.millisecond;
      var value := if f.local then toUtc(a) else a;
      if -LIMIT <= value <= LIMIT then Some(value) else None
    else None
  }

  // ----- the calendar -----

  predicate Leap(year: int) {
    year % 4 == 0 && (year % 100 != 0 || year % 400 == 0)
  }

  function MonthLength(year: int, month: nat): (n: nat)
    ensures n >= 1
  {
    if month == 1 then (if Leap(year) then 29 else 28)
    else if month == 3 || month == 5 || month == 8 || month == 10 then 30
    else 31
  }

  datatype Date = Date(year: int, month: nat, day: nat)

  predicate Exists(d: Date) {
    d.month < 12 && 1 <= d.day <= MonthLength(d.year, d.month)
  }

  function Next(d: Date): (n: Date)
    requires Exists(d)
    ensures Exists(n)
  {
    if d.day < MonthLength(d.year, d.month) then d.(day := d.day + 1)
    else if d.month < 11 then Date(d.year, d.month + 1, 1)
    else Date(d.year + 1, 0, 1)
  }

  /** The program's number of a day. */
  function Number(d: Date): int
    requires Exists(d)
  {
    DayFromMonth(d.year, d.month) + (d.day - 1)
  }

  // ----- the count is the calendar -----

  /** A month is as long as the difference of the two closed forms, for every year. */
  lemma MonthStep(year: int, month: nat)
    requires month < 12
    ensures DayFromMonth(year, month + 1) - DayFromMonth(year, month) == MonthLength(year, month)
  {
    LeapStep(year);
    hide LeapDays, Leap;
  }

  lemma LeapStep(year: int)
    ensures LeapDays(year + 1) - LeapDays(year) == if Leap(year) then 1 else 0
  {
    ByFour(year);
    ByHundred(year);
    ByFourHundred(year);
    Nested(year);
  }

  lemma ByFour(year: int)
    ensures (year + 1 - 1969) / 4 - (year - 1969) / 4 == if year % 4 == 0 then 1 else 0
  {
  }

  lemma ByHundred(year: int)
    ensures (year + 1 - 1901) / 100 - (year - 1901) / 100 == if year % 100 == 0 then 1 else 0
  {
  }

  lemma ByFourHundred(year: int)
    ensures (year + 1 - 1601) / 400 - (year - 1601) / 400 == if year % 400 == 0 then 1 else 0
  {
  }

  lemma Nested(year: int)
    ensures year % 400 == 0 ==> year % 100 == 0 && year % 4 == 0
    ensures year % 100 == 0 ==> year % 4 == 0
  {
    assert year % 400 == 0 ==> year == 100 * (4 * (year / 400));
    assert year % 100 == 0 ==> year == 4 * (25 * (year / 100));
  }

  /** Month 12 is the next year's month 0. */
  lemma YearEnds(year: int)
    ensures DayFromMonth(year, 12) == DayFromMonth(year + 1, 0)
  {
  }

  /** The epoch is day 0 and the next day has the next number: this determines the number of every day. */
  lemma NextIsOneMore(d: Date)
    requires Exists(d)
    ensures Number(Next(d)) == Number(d) + 1
    ensures Number(Date(1970, 0, 1)) == 0
  {
    MonthStep(d.year, d.month);
    YearEnds(d.year);
  }

  function After(d: Date, n: nat): (r: Date)
    requires Exists(d)
    ensures Exists(r)
    decreases n
  {
    if n == 0 then d else Next(After(d, n - 1))
  }

  lemma {:induction false} CountedForward(d: Date, n: nat)
    requires Exists(d)
    ensures Number(After(d, n)) == Number(d) + n
    decreases n
  {
    hide Number, Exists, Next;
    if n > 0 {
      CountedForward(d, n - 1);
      NextIsOneMore(After(d, n - 1));
    }
  }

  predicate Earlier(a: Date, b: Date) {
    a.year < b.year || (a.year == b.year && (a.month < b.month || (a.month == b.month && a.day < b.day)))
  }

  /** Months in order have starts in order. */
  lemma {:induction false} MonthOrder(y: int, m: nat, z: int, n: nat)
    requires m < 12 && n < 12 && (y < z || (y == z && m < n))
    ensures DayFromMonth(y, m) + MonthLength(y, m) <= DayFromMonth(z, n)
    decreases z - y, 12 - m
  {
    hide DayFromMonth, MonthLength;
    MonthStep(y, m);
    YearEnds(y);
    if m == 11 {
      if y + 1 < z || n > 0 {
        MonthOrder(y + 1, 0, z, n);
      }
    } else if y < z || m + 1 < n {
      MonthOrder(y, m + 1, z, n);
    }
  }

  /** Day numbers are in calendar order, so no two dates share one. */
  lemma NumberOrder(a: Date, b: Date)
    requires Exists(a) && Exists(b)
    ensures Earlier(a, b) <==> Number(a) < Number(b)
    ensures a == b <==> Number(a) == Number(b)
  {
    hide DayFromMonth, MonthLength;
    if a.year < b.year || (a.year == b.year && a.month < b.month) {
      MonthOrder(a.year, a.month, b.year, b.month);
    } else if b.year < a.year || (b.year == a.year && b.month < a.month) {
      MonthOrder(b.year, b.month, a.year, a.month);
    }
  }

  // ----- the date check -----

  function DateOf(f: Fields): Date {
    Date(f.year, if f.month > 0 then f.month - 1 else 12, f.day)
  }

  /** A time of day, 24:00 exactly included. */
  predicate TimeOk(f: Fields) {
    f.minute < 60 && f.second < 60 && f.millisecond < 1000 && f.offsetHour < 24 && f.offsetMinute < 60
    && (f.hour < 24 || (f.hour == 24 && f.minute == 0 && f.second == 0 && f.millisecond == 0))
  }

  function MillisecondOfDay(f: Fields): int {
    ((f.hour * 60 + f.minute) * 60 + f.second) * 1000 + f.millisecond
  }

  /** Milliseconds from the epoch, the offset east of Greenwich taken off. */
  function Instant(f: Fields): int
    requires Exists(DateOf(f))
  {
    var offset := (f.offsetHour * 60 + f.offsetMinute) * 60000;
    Number(DateOf(f)) * 86400000 + MillisecondOfDay(f) - (if f.west then -offset else offset)
  }

  /** Exactly the dates of the calendar with a time of day are accepted, within the range of time values. */
  lemma ParseAccepts(f: Fields, toUtc: int -> int)
    ensures Exists(DateOf(f)) && TimeOk(f) ==>
              var value := if f.local then toUtc(Instant(f)) else Instant(f);
              Parse(f, toUtc) == if -LIMIT <= value <= LIMIT then Some(value) else None
    ensures !(Exists(DateOf(f)) && TimeOk(f)) ==> Parse(f, toUtc) == None
  {
    hide DayFromMonth;
    if 1 <= f.month <= 12 {
      MonthStep(f.year, f.month - 1);
      var day, g := DayFromMonth(f.year, f.month - 1) + (f.day - 1), if f.west then 1 else -1;
      InstantForm(day, f, g);
    }
  }

  lemma InstantForm(day: int, f: Fields, g: int)
    requires g == if f.west then 1 else -1
    ensures 1000 * (60 * (60 * (24 * day + f.hour + f.offsetHour * g) + f.minute + f.offsetMinute * g) + f.second) + f.millisecond
         == day * 86400000 + MillisecondOfDay(f) + g * ((f.offsetHour * 60 + f.offsetMinute) * 60000)
  {
  }

  /** 24:00 is 00:00 of the next day. */
  lemma EndOfDay(f: Fields, toUtc: int -> int)
    requires Exists(DateOf(f)) && TimeOk(f) && f.hour == 24
    ensures var n := Next(DateOf(f));
            Parse(f, toUtc) == Parse(f.(year := n.year, month := n.month + 1, day := n.day, hour := 0), toUtc)
  {
    hide Parse, Number, Next;
    var n := Next(DateOf(f));
    var next := f.(year := n.year, month := n.month + 1, day := n.day, hour := 0);
    ParseAccepts(f, toUtc);
    ParseAccepts(next, toUtc);
    NextIsOneMore(DateOf(f));
    assert DateOf(next) == n;
  }
}

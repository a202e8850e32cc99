/** The civil calendar, month arithmetic with clamping, and the dates of a recurrence. */
module RecurrenceDates {
  import opened Prelude
  import PostingSlots

  // ----- months and day ordinals (ordinal 1 is 1 January of year 1)

  /** Months are numbered 12 * year + (month - 1). */
  datatype Date = Date(month: int, day: int)

  predicate Leap(year: int) { year % 4 == 0 && (year % 100 != 0 || year % 400 == 0) }

  function MonthLength(month: int): (length: int)
    ensures 28 <= length <= 31
  {
    var m := month % 12;
    if m == 1 then if Leap(month / 12) then 29 else 28
    else if m == 3 || m == 5 || m == 8 || m == 10 then 30
    else 31
  }

  /** The ordinal of a month's first day: the lengths of all months before it, from year 1 on. */
  function MonthStart(month: int): int
    decreases month
  {
    if month <= 12 then 1 else MonthStart(month - 1) + MonthLength(month - 1)
  }

  predicate Valid(d: Date) { d.month >= 12 && 1 <= d.day <= MonthLength(d.month) }

  function Ordinal(d: Date): int { MonthStart(d.month) + d.day - 1 }

  lemma {:induction false} MonthsAscend(a: int, b: int)
    requires 12 <= a < b
    ensures MonthStart(a) + MonthLength(a) <= MonthStart(b)
    decreases b
  {
    if b <= a + 1 {
    } else {
      MonthsAscend(a, b - 1);
    }
  }

  /** Dates compare as their ordinals do. */
  lemma OrdinalOrder(a: Date, b: Date)
    requires Valid(a) && Valid(b)
    ensures Ordinal(a) < Ordinal(b) <==> a.month < b.month || (a.month == b.month && a.day < b.day)
    ensures Ordinal(a) == Ordinal(b) ==> a == b
  {
    if a.month < b.month { MonthsAscend(a.month, b.month); }
    if b.month < a.month { MonthsAscend(b.month, a.month); }
  }

  /** The date of an ordinal, counting forward from the first day. */
  function FromOrdinal(n: int): (d: Date)
    requires n >= 1
    ensures Valid(d) && Ordinal(d) == n
    decreases n
  {
    if n == 1 then Date(12, 1)
    else
      var p := FromOrdinal(n - 1);
      if p.day < MonthLength(p.month) then p.(day := p.day + 1) else Date(p.month + 1, 1)
  }

  lemma FromOrdinalInverts(d: Date)
    requires Valid(d)
    ensures Ordinal(d) >= 1 && FromOrdinal(Ordinal(d)) == d
  {
    if d.month > 12 { MonthsAscend(12, d.month); }
    OrdinalOrder(FromOrdinal(Ordinal(d)), d);
  }

  /** Month arithmetic keeps the day of the month, clamped to the new month's length. */
  function AddMonths(d: Date, months: nat): Date {
    var length := MonthLength(d.month + months);
    Date(d.month + months, if d.day < length then d.day else length)
  }

  // ----- the recurrence

  const LOOKAHEAD_DAYS: nat := 90
  const MAX_RECURRENCES: nat := 2 * LOOKAHEAD_DAYS

  datatype Frequency = Daily | Weekly | Monthly | Unknown

  function MonthsOn(current: int, months: nat): int
    requires current >= 1
  {
    Ordinal(AddMonths(FromOrdinal(current), months))
  }

  lemma MonthStep(d: Date, months: nat)
    requires Valid(d)
    ensures Valid(AddMonths(d, months)) && Ordinal(d) >= 1
    ensures MonthsOn(Ordinal(d), months) == Ordinal(AddMonths(d, months)) >= 1
    ensures FromOrdinal(MonthsOn(Ordinal(d), months)) == AddMonths(d, months)
  {
    FromOrdinalInverts(d);
    FromOrdinalInverts(AddMonths(d, months));
  }

  lemma MonthsOnGrows(current: int, months: nat)
    requires current >= 1
    ensures MonthsOn(current, months) >= current
    ensures months >= 1 ==> MonthsOn(current, months) > current
    ensures months == 0 ==> MonthsOn(current, months) == current
  {
    var d := FromOrdinal(current);
    if months > 0 { MonthsAscend(d.month, d.month + months); }
  }

  function Step(frequency: Frequency, interval: nat, current: int): (next: int)
    ensures next >= current
    ensures interval >= 1 && !frequency.Unknown? && current >= 1 ==> next > current
    ensures interval == 0 ==> next == current
  {
    match frequency
    case Daily => current + interval
    case Weekly => current + 7 * interval
    case Monthly => if current < 1 then current else MonthsOnGrows(current, interval); MonthsOn(current, interval)
    case Unknown => current
  }

  /** Repeated application of a step. */
  function Iterate(step: int -> int, base: int, k: nat): int {
    if k == 0 then base else step(Iterate(step, base, k - 1))
  }

  /** At most `left` further steps, up to the first one past the end. */
  function StepsFrom(step: int -> int, current: int, end: int, left: nat): seq<int>
    decreases left, current
  {
    if left == 0 then []
    else
      var next := step(current);
      if next > end then [] else [next] + StepsFrom(step, next, end, left - 1)
  }

  ghost predicate NeverBack(step: int -> int) { forall x :: x <= step(x) }

  lemma {:induction false} IteratesNeverFall(step: int -> int, base: int, i: nat, j: nat)
    requires NeverBack(step) && i <= j
    ensures Iterate(step, base, i) <= Iterate(step, base, j)
    decreases j
  {
    if j <= i {
    } else {
      IteratesNeverFall(step, base, i, j - 1);
    }
  }

  lemma {:induction false} StepsAreIterates(step: int -> int, base: int, end: int, from: nat, current: int,
                                            left: nat, k: nat)
    requires current == Iterate(step, base, from) && 1 <= k <= |StepsFrom(step, current, end, left)|
    ensures StepsFrom(step, current, end, left)[k - 1] == Iterate(step, base, from + k)
    decreases left
  {
    var next := step(current);
    assert next == Iterate(step, base, from + 1);
    if k <= 1 {
    } else {
      StepsAreIterates(step, base, end, from + 1, next, left - 1, k - 1);
    }
  }

  lemma {:induction false} HowManySteps(step: int -> int, base: int, end: int, from: nat, current: int, left: nat,
                                        k: nat)
    requires NeverBack(step) && k >= 1 && current == Iterate(step, base, from)
    ensures k <= |StepsFrom(step, current, end, left)| <==> k <= left && Iterate(step, base, from + k) <= end
    decreases left
  {
    var next := step(current);
    assert next == Iterate(step, base, from + 1);
    if left == 0 || next > end {
      IteratesNeverFall(step, base, from + 1, from + k);
    } else if k > 1 {
      HowManySteps(step, base, end, from + 1, next, left - 1, k - 1);
    }
  }

  function StepOf(frequency: Frequency, interval: nat): int -> int {
    x => Step(frequency, interval, x)
  }

  /** The k-th date of the series; the base itself is the zeroth. */
  function Term(frequency: Frequency, interval: nat, base: int, k: nat): int {
    Iterate(StepOf(frequency, interval), base, k)
  }

  function Dates(frequency: Frequency, interval: nat, base: int, end: int): seq<int> {
    if frequency.Unknown? then [] else StepsFrom(StepOf(frequency, interval), base, end, MAX_RECURRENCES)
  }

  /** One turn's arithmetic, by frequency. */
  method Advance(current: int, frequency: Frequency, interval: nat) returns (next: int)
    requires current >= 1 && !frequency.Unknown?
    ensures next == Step(frequency, interval, current)
  {
    if frequency.Daily? {
      next := current + interval;
    } else if frequency.Weekly? {
      next := current + 7 * interval;
    } else {
      next := MonthsOn(current, interval);
    }
  }

  method ComputeRecurrenceDates(base: int, frequency: Frequency, interval: nat, end: int) returns (dates: seq<int>)
    requires base >= 1
    ensures dates == Dates(frequency, interval, base, end)
  {
    dates := [];
    var current := base;
    ghost var step := StepOf(frequency, interval);
    ghost var all := StepsFrom(step, base, end, MAX_RECURRENCES);
    for i := 0 to MAX_RECURRENCES
      invariant current >= 1 && (frequency.Unknown? ==> i == 0)
      invariant dates + StepsFrom(step, current, end, MAX_RECURRENCES - i) == all
    {
      if frequency.Unknown? {
        return [];
      }
      ghost var before := current;
      current := Advance(current, frequency, interval);
      assert current == step(before);
      if current > end {
        break;
      }
      ghost var rest := StepsFrom(step, current, end, MAX_RECURRENCES - i - 1);
      assert StepsFrom(step, before, end, MAX_RECURRENCES - i) == [current] + rest;
      assert dates + ([current] + rest) == dates + [current] + rest;
      dates := dates + [current];
    }
  }

  /** The dates are exactly the first 180, or all, of the terms not past the end. */
  lemma DatesAreTheFirstTerms(frequency: Frequency, interval: nat, base: int, end: int, k: nat)
    requires k >= 1 && !frequency.Unknown?
    ensures var dates := Dates(frequency, interval, base, end);
      && (k <= |dates| ==> dates[k - 1] == Term(frequency, interval, base, k))
      && (k <= |dates| <==> k <= 180 && Term(frequency, interval, base, k) <= end)
  {
    var step := StepOf(frequency, interval);
    HowManySteps(step, base, end, 0, base, MAX_RECURRENCES, k);
    if k <= |Dates(frequency, interval, base, end)| {
      StepsAreIterates(step, base, end, 0, base, MAX_RECURRENCES, k);
    }
  }

  lemma {:induction false} TermsInOrder(frequency: Frequency, interval: nat, base: int, i: nat, j: nat)
    requires base >= 1 && i < j && !frequency.Unknown?
    ensures Term(frequency, interval, base, i) >= base
    ensures if interval >= 1 then Term(frequency, interval, base, i) < Term(frequency, interval, base, j)
            else Term(frequency, interval, base, i) == Term(frequency, interval, base, j)
    decreases j
  {
    TermsFromBase(frequency, interval, base, i);
    TermsFromBase(frequency, interval, base, j - 1);
    NextTerm(frequency, interval, base, j);
    if j - 1 <= i {
    } else {
      TermsInOrder(frequency, interval, base, i, j - 1);
    }
  }

  lemma NextTerm(frequency: Frequency, interval: nat, base: int, k: nat)
    requires k >= 1
    ensures Term(frequency, interval, base, k) == Step(frequency, interval, Term(frequency, interval, base, k - 1))
  {}

  lemma TermsFromBase(frequency: Frequency, interval: nat, base: int, k: nat)
    ensures Term(frequency, interval, base, k) >= base
  {
    IteratesNeverFall(StepOf(frequency, interval), base, 0, k);
  }

  lemma TermAt(frequency: Frequency, interval: nat, base: int, end: int, i: nat)
    requires i < |Dates(frequency, interval, base, end)|
    ensures !frequency.Unknown? && Dates(frequency, interval, base, end)[i] == Term(frequency, interval, base, i + 1)
  {
    StepsAreIterates(StepOf(frequency, interval), base, end, 0, base, MAX_RECURRENCES, i + 1);
  }

  lemma DatesInOrder(frequency: Frequency, interval: nat, base: int, end: int, dates: seq<int>, i: nat, j: nat)
    requires base >= 1 && dates == Dates(frequency, interval, base, end) && i < j < |dates|
    ensures if interval >= 1 then dates[i] < dates[j] else dates[i] == dates[j]
  {
    TermAt(frequency, interval, base, end, i);
    TermAt(frequency, interval, base, end, j);
    TermsInOrder(frequency, interval, base, i + 1, j + 1);
  }

  /** They ascend strictly exactly when the interval is positive or there is nothing to repeat. */
  lemma DatesAscend(frequency: Frequency, interval: nat, base: int, end: int)
    requires base >= 1
    ensures Ascending(Dates(frequency, interval, base, end)) <==> interval >= 1 || base > end || frequency.Unknown?
  {
    var dates := Dates(frequency, interval, base, end);
    forall i, j | 0 <= i < j < |dates|
      ensures if interval >= 1 then dates[i] < dates[j] else dates[i] == dates[j]
    {
      DatesInOrder(frequency, interval, base, end, dates, i, j);
    }
    if interval == 0 && !frequency.Unknown? {
      StandingStill(frequency, base, end);
      assert base <= end ==> dates[0] == dates[1];
    }
  }

  /** An interval of zero repeats the base date to the limit. */
  lemma StandingStill(frequency: Frequency, base: int, end: int)
    requires base >= 1 && !frequency.Unknown?
    ensures |Dates(frequency, 0, base, end)| == if base <= end then 180 else 0
  {
    TermsInOrder(frequency, 0, base, 0, 1);
    TermsInOrder(frequency, 0, base, 0, 180);
    DatesAreTheFirstTerms(frequency, 0, base, end, 1);
    DatesAreTheFirstTerms(frequency, 0, base, end, 180);
    DatesAreTheFirstTerms(frequency, 0, base, end, 181);
  }

  // ----- what the terms are

  lemma {:induction false} DayTerms(interval: nat, base: int, k: nat)
    requires base >= 1
    ensures Term(Daily, interval, base, k) == base + k * interval
    ensures Term(Weekly, interval, base, k) == base + k * (7 * interval)
  {
    if k == 0 {
    } else {
      DayTerms(interval, base, k - 1);
      assert k * interval == (k - 1) * interval + interval;
      assert k * (7 * interval) == (k - 1) * (7 * interval) + 7 * interval;
    }
  }

  /** The least of the base day and the lengths of the months met after it. */
  function ShortestDay(base: Date, interval: nat, k: nat): int {
    if k == 0 then base.day
    else
      var length := MonthLength(base.month + k * interval);
      if ShortestDay(base, interval, k - 1) < length then ShortestDay(base, interval, k - 1) else length
  }

  function MonthAt(base: Date, interval: nat, k: nat): Date {
    if k == 0 then base else AddMonths(MonthAt(base, interval, k - 1), interval)
  }

  lemma {:induction false} MonthAtIs(base: Date, interval: nat, k: nat)
    ensures MonthAt(base, interval, k) == Date(base.month + k * interval, ShortestDay(base, interval, k))
  {
    if k == 0 {
    } else {
      MonthAtIs(base, interval, k - 1);
      OneMore(k, interval);
    }
  }

  lemma {:induction false} TermIsMonthAt(base: Date, interval: nat, k: nat)
    requires Valid(base)
    ensures Valid(MonthAt(base, interval, k))
    ensures Term(Monthly, interval, Ordinal(base), k) == Ordinal(MonthAt(base, interval, k)) >= 1
  {
    FromOrdinalInverts(base);
    if k == 0 {
    } else {
      TermIsMonthAt(base, interval, k - 1);
      MonthStep(MonthAt(base, interval, k - 1), interval);
      NextMonthTerm(Ordinal(base), interval, k);
    }
  }

  lemma NextMonthTerm(base: int, interval: nat, k: nat)
    requires k > 0 && Term(Monthly, interval, base, k - 1) >= 1
    ensures Term(Monthly, interval, base, k) == MonthsOn(Term(Monthly, interval, base, k - 1), interval)
  {}

  /** Monthly steps advance the month evenly; the day only ever shrinks, to the shortest month met so far. */
  lemma MonthTerms(base: Date, interval: nat, k: nat)
    requires Valid(base)
    ensures Term(Monthly, interval, Ordinal(base), k) >= 1
    ensures FromOrdinal(Term(Monthly, interval, Ordinal(base), k)) ==
            Date(base.month + k * interval, ShortestDay(base, interval, k))
  {
    TermIsMonthAt(base, interval, k);
    MonthAtIs(base, interval, k);
    FromOrdinalInverts(MonthAt(base, interval, k));
  }

  lemma OneMore(k: nat, interval: nat)
    requires k > 0
    ensures (k - 1) * interval + interval == k * interval
  {}

  lemma {:induction false} DayNeverGrows(base: Date, interval: nat, j: nat, k: nat)
    requires j <= k
    ensures ShortestDay(base, interval, k) <= ShortestDay(base, interval, j)
    decreases k
  {
    if k <= j {
    } else {
      DayNeverGrows(base, interval, j, k - 1);
    }
  }

  lemma JanuaryDay(base: Date, k: nat)
    requires base.month % 12 == 0 && base.day == 31 && k >= 1
    ensures ShortestDay(base, 1, k) <= 29
  {
    assert ShortestDay(base, 1, 1) == MonthLength(base.month + 1);
    DayNeverGrows(base, 1, 1, k);
  }

  /** No date of a monthly series begun on 31 January falls after the 29th again. */
  lemma JanuarySeriesDrifts(base: Date, k: nat)
    requires Valid(base) && base.month % 12 == 0 && base.day == 31 && k >= 1
    ensures Term(Monthly, 1, Ordinal(base), k) >= 1
    ensures FromOrdinal(Term(Monthly, 1, Ordinal(base), k)).day <= 29
  {
    MonthTerms(base, 1, k);
    JanuaryDay(base, k);
  }

  /** The day of the k-th date is the least of the base day and the lengths of the months stepped on. */
  lemma {:induction false} ShortestDayIsLeast(base: Date, interval: nat, k: nat)
    ensures var day := ShortestDay(base, interval, k);
      && day <= base.day && (forall j | 1 <= j <= k :: day <= MonthLength(base.month + j * interval))
      && (day == base.day || exists j :: 1 <= j <= k && day == MonthLength(base.month + j * interval))
  {
    if k == 0 {
    } else {
      ShortestDayIsLeast(base, interval, k - 1);
    }
  }

  // ----- the civil calendar

  /** The months of the Gregorian calendar, January being month 0 of the twelve. */
  lemma MonthLengths(year: int, m: int)
    requires 0 <= m < 12
    ensures MonthLength(12 * year + m) ==
            if m == 1 && year % 4 == 0 && (year % 100 == 0 ==> year % 400 == 0) then 29
            else [31, 28, 31, 30, 31, 30, 31, 31, 30, 31, 30, 31][m]
  {}

  /** The ordinal of a 1 January: 365 days a year, and one for every leap year before. */
  lemma {:induction false} YearStarts(year: int)
    requires year >= 1
    ensures var y := year - 1;
      MonthStart(12 * year) == 1 + 365 * y + y / 4 - y / 100 + y / 400
  {
    if year == 1 {
    } else {
      YearStarts(year - 1);
      MonthsOnStart(12 * (year - 1), 12);
      LengthsInYear(year - 1, 12);
      LeapYears(year - 1);
    }
  }

  /** n months on, their lengths have passed. */
  function Lengths(month: int, n: nat): int {
    if n == 0 then 0 else Lengths(month, n - 1) + MonthLength(month + n - 1)
  }

  lemma {:induction false} MonthsOnStart(month: int, n: nat)
    requires month >= 12
    ensures MonthStart(month + n) == MonthStart(month) + Lengths(month, n)
  {
    if n == 0 {
    } else {
      MonthsOnStart(month, n - 1);
    }
  }

  /** The days before month n of a year. */
  function DaysBefore(leap: bool, n: nat): int
    requires n <= 12
  {
    [0, 31, 59, 90, 120, 151, 181, 212, 243, 273, 304, 334, 365][n] + if leap && n > 1 then 1 else 0
  }

  lemma {:induction false} LengthsInYear(year: int, n: nat)
    requires n <= 12
    ensures Lengths(12 * year, n) == DaysBefore(Leap(year), n)
  {
    if n == 0 {
    } else {
      LengthsInYear(year, n - 1);
      MonthLengths(year, n - 1);
    }
  }

  /** Dividing steps up exactly at the multiples. */
  lemma DivisionSteps(y: int, n: int)
    requires y >= 1 && n in {4, 100, 400}
    ensures y / n == (y - 1) / n + if y % n == 0 then 1 else 0
  {}

  lemma MultiplesNest(y: int)
    ensures y % 400 == 0 ==> y % 100 == 0
    ensures y % 100 == 0 ==> y % 4 == 0
  {
    if y % 100 == 0 { assert y == 4 * (25 * (y / 100)); }
    if y % 400 == 0 { assert y == 100 * (4 * (y / 400)); }
  }

  lemma LeapYears(y: int)
    requires y >= 1
    ensures y / 4 - y / 100 + y / 400 == (y - 1) / 4 - (y - 1) / 100 + (y - 1) / 400 + if Leap(y) then 1 else 0
  {
    DivisionSteps(y, 4);
    DivisionSteps(y, 100);
    DivisionSteps(y, 400);
    MultiplesNest(y);
  }

  /**
   * The weekdays of the slot walk are those of the calendar. Year 1 began on a Monday; every common
   * year moves 1 January on by one weekday, every leap year by two, and weekdays follow each other.
   */
  lemma WeekdaysAreCivil(year: int, d: int)
    requires year >= 1
    ensures var y := year - 1;
      PostingSlots.Weekday(Ordinal(Date(12 * year, 1))) == (y + y / 4 - y / 100 + y / 400) % 7
    ensures 0 <= PostingSlots.Weekday(d) < 7 && PostingSlots.Weekday(d + 1) == (PostingSlots.Weekday(d) + 1) % 7
  {
    YearStarts(year);
    var y := year - 1;
    WeekdayAfter(y + y / 4 - y / 100 + y / 400, y, Ordinal(Date(12 * year, 1)));
    NextWeekday(d);
  }

  lemma WeekdayAfter(x: int, weeks: int, d: int)
    requires d == 1 + x + 364 * weeks
    ensures PostingSlots.Weekday(d) == x % 7
  {
    assert d + 6 == x + 7 * (1 + 52 * weeks);
  }

  lemma NextWeekday(d: int)
    ensures 0 <= PostingSlots.Weekday(d) < 7 && PostingSlots.Weekday(d + 1) == (PostingSlots.Weekday(d) + 1) % 7
  {}
}

/** The slice of Python's datetime.date the reader uses: construction with
    range checks, replace(), stepping back one day, and the month-end and
    month-start adjustments applied to DATE fields. */
module Calendar {
  import opened Common

  datatype Date = Date(year: int, month: int, day: int)

  /** Proleptic Gregorian leap years, as datetime implements them. */
  predicate IsLeap(y: int) {
    y % 4 == 0 && (y % 100 != 0 || y % 400 == 0)
  }

  function DaysInMonth(y: int, m: int): (n: int)
    requires 1 <= m <= 12
    ensures 28 <= n <= 31
  {
    if m == 2 then (if IsLeap(y) then 29 else 28)
    else if m == 4 || m == 6 || m == 9 || m == 11 then 30
    else 31
  }

  /** What datetime.date accepts: MINYEAR = 1, MAXYEAR = 9999. */
  predicate ValidDate(d: Date) {
    1 <= d.year <= 9999 && 1 <= d.month <= 12 && 1 <= d.day <= DaysInMonth(d.year, d.month)
  }

  /** datetime.date(y, m, d); None stands for the ValueError it raises. */
  function MakeDate(y: int, m: int, d: int): (r: Option<Date>)
    ensures r.Some? <==> ValidDate(Date(y, m, d))
    ensures r.Some? ==> r.value == Date(y, m, d)
  {
    if ValidDate(Date(y, m, d)) then Some(Date(y, m, d)) else None
  }

  /** dt.replace(day=1): the first day of dt's month, always valid. */
  function FirstOfMonth(dt: Date): (r: Date)
    requires ValidDate(dt)
    ensures ValidDate(r) && r.year == dt.year && r.month == dt.month && r.day == 1
  {
    MakeDate(dt.year, dt.month, 1).value
  }

  /** dt + timedelta(-1); None when stepping below date.min. */
  function PrevDay(dt: Date): Option<Date>
    requires ValidDate(dt)
  {
    if dt.day > 1 then MakeDate(dt.year, dt.month, dt.day - 1)
    else if dt.month > 1 then MakeDate(dt.year, dt.month - 1, DaysInMonth(dt.year, dt.month - 1))
    else MakeDate(dt.year - 1, 12, 31)
  }

  /** to_end_of_month: December goes through January 1st of the next year,
      other months through the first of the next month; one day is then
      subtracted. The only failure is December of MAXYEAR, whose successor
      year datetime cannot represent. */
  function ToEndOfMonth(dt: Date): (r: Option<Date>)
    requires ValidDate(dt)
    ensures r.Some? <==> !(dt.year == 9999 && dt.month == 12)
    ensures r.Some? ==> ValidDate(r.value)
    ensures r.Some? ==> r.value.year == dt.year && r.value.month == dt.month
    ensures r.Some? ==> r.value.day == DaysInMonth(dt.year, dt.month) && r.value.day >= 28
  {
    var next :=
      if dt.month == 12 then MakeDate(dt.year + 1, 1, 1)
      else MakeDate(dt.year, dt.month + 1, FirstOfMonth(dt).day);
    match next
    case None => None
    case Some(n) => PrevDay(n)
  }

  /** Moving to the end of the month twice is the same as moving once. */
  lemma EndOfMonthIdempotent(dt: Date)
    requires ValidDate(dt) && !(dt.year == 9999 && dt.month == 12)
    ensures ToEndOfMonth(ToEndOfMonth(dt).value) == ToEndOfMonth(dt)
  {
  }
}

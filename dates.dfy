/**
 * Calendar dates as the core uses them (java.time.LocalDate), and the
 * whole-month distance LocalDate.until(end, ChronoUnit.MONTHS).
 */
module Dates {

  datatype Date = Date(year: int, month: int, day: int)

  /** Month and day in range. Month lengths are not checked (day <= 31 for every month). */
  predicate ValidDate(d: Date) {
    1 <= d.month <= 12 && 1 <= d.day <= 31
  }

  /** Months since year 0, month 1 (LocalDate.getProlepticMonth). */
  function ProlepticMonth(d: Date): int {
    d.year * 12 + d.month - 1
  }

  /** Month and day packed into one number, as the JDK does for monthsUntil. */
  function Packed(d: Date): int {
    ProlepticMonth(d) * 32 + d.day
  }

  /** Division by 32 truncating toward zero, as Java's `/` on long (Dafny's `/` is Euclidean). */
  function TruncDiv32(a: int): (q: int)
    ensures a >= 0 ==> 0 <= q && 32 * q <= a < 32 * q + 32
    ensures a < 0 ==> q <= 0 && 32 * q - 32 < a <= 32 * q
  {
    if a >= 0 then a / 32 else -((-a) / 32)
  }

  /** Whole months from `start` to `end`: (packed(end) - packed(start)) / 32, truncated. */
  function MonthsUntil(start: Date, end: Date): (r: int)
    ensures r >= 1 <==> Packed(end) - Packed(start) >= 32
    ensures r <= -1 <==> Packed(end) - Packed(start) <= -32
  {
    TruncDiv32(Packed(end) - Packed(start))
  }

  /**
   * The calendar reading of "at least one whole month has passed": `end` is two or
   * more months later, or the next month on the same or a later day of the month.
   */
  predicate WholeMonthElapsed(start: Date, end: Date) {
    || ProlepticMonth(end) >= ProlepticMonth(start) + 2
    || (ProlepticMonth(end) == ProlepticMonth(start) + 1 && end.day >= start.day)
  }

  /** For valid dates, the packed division counts at least one month exactly when a whole month has passed. */
  lemma AtLeastOneMonthIff(start: Date, end: Date)
    requires ValidDate(start) && ValidDate(end)
    ensures MonthsUntil(start, end) >= 1 <==> WholeMonthElapsed(start, end)
  {
    var delta := Packed(end) - Packed(start);
    var months := ProlepticMonth(end) - ProlepticMonth(start);
    assert delta == months * 32 + (end.day - start.day);
    if months >= 2 {
      assert delta >= 32;
    } else if months == 1 {
      assert delta >= 32 <==> end.day >= start.day;
    } else {
      assert delta < 32;
    }
  }

  /** No whole month separates a date from itself. */
  lemma NoMonthToItself(d: Date)
    ensures MonthsUntil(d, d) == 0
  {
  }
}

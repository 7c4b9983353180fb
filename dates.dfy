/**
 * JavaScript `Date` values.  A date is a time value (whole milliseconds
 * since 1970-01-01T00:00:00Z) or the invalid date whose `getTime()` is
 * NaN.  Rendering and parsing dates depend on the runtime's locale and
 * time zone; they are supplied as a `Locale` value and not interpreted.
 */
module Dates {

  /** The largest magnitude ECMAScript's TimeClip admits: 8.64e15 ms, 100 000 000 days. */
  const MaxTime: int := 8_640_000_000_000_000

  type TimeValue = t: int | -MaxTime <= t <= MaxTime

  /** What `new Date(x)` yields: a valid time value or the invalid date. */
  datatype JsDate = ValidDate(ms: TimeValue) | InvalidDate

  /** `new Date(ms)` for a number of milliseconds: out-of-range values give the invalid date. */
  function FromMillis(ms: int): (d: JsDate)
    ensures d.ValidDate? <==> -MaxTime <= ms <= MaxTime
    ensures d.ValidDate? ==> d.ms == ms
  {
    if -MaxTime <= ms <= MaxTime then ValidDate(ms) else InvalidDate
  }

  /** `new Date('1970-01-01')`: a date-only ISO string is read as UTC midnight, time value 0. */
  const Epoch: TimeValue := 0

  /**
   * The locale-dependent library calls the components make:
   * `toLocaleDateString("en-US", {month: "short", ...})`,
   * `toLocaleDateString("en-US", {month: "long", ...})`,
   * `toLocaleDateString()` with the default options, and `new Date(label)`
   * applied to a rendered label.
   */
  datatype Locale = Locale(
    shortDate: TimeValue -> string,
    longDate: TimeValue -> string,
    defaultDate: TimeValue -> string,
    parseDate: string -> JsDate)
}

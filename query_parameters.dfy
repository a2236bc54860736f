/**
 * The structured query the language model's reply decodes to: a dictionary from
 * the nine parameter names to a string or JSON null, read with `dict.get`.
 */
module QueryParameters {
  import opened Wrappers

  /** A decoded JSON object whose values are strings or null (`None`). */
  type Parameters = map<string, Option<string>>

  const FlightNumberKey: string := "flight_number"
  const OriginKey: string := "origin"
  const DestinationKey: string := "destination"
  const DateKey: string := "date"
  const TimeKey: string := "time"
  const BeforeDateKey: string := "before_date"
  const AfterDateKey: string := "after_date"
  const BeforeTimeKey: string := "before_time"
  const AfterTimeKey: string := "after_time"

  /** `parameters.get(key)`: a missing key reads as `None`, like an explicit null. */
  function Get(p: Parameters, key: string): (v: Option<string>)
    ensures key !in p ==> v == None
    ensures key in p ==> v == p[key]
  {
    if key in p then p[key] else None
  }

  /** Every one of the nine parameters is `None` or missing. */
  predicate AllAbsent(p: Parameters)
  {
    && Get(p, FlightNumberKey).None? && Get(p, OriginKey).None? && Get(p, DestinationKey).None?
    && Get(p, DateKey).None? && Get(p, TimeKey).None?
    && Get(p, BeforeDateKey).None? && Get(p, AfterDateKey).None?
    && Get(p, BeforeTimeKey).None? && Get(p, AfterTimeKey).None?
  }
}

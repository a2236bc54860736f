/**
 * `search_flights` (query_handler.py): the flight records of an ordered store
 * that satisfy every clause of the query, in store order. Each of the nine
 * parameters either constrains one field of a record or, when it is `None` or
 * missing, constrains nothing. Date and time parameters are first normalised
 * by the temporal converters, so a malformed one constrains nothing either.
 *
 * The store is a parameter rather than the module-level `flight_data`.
 */
module FlightSearch {
  import opened Wrappers
  import opened Sequences
  import opened Temporal
  import opened QueryParameters

  /** A stored flight: every field is present. */
  datatype Record = Record(flightNumber: string, origin: string, destination: string, date: Date, time: Time)

  /** ASCII `str.lower()` on one character. */
  function LowerChar(c: char): char
  {
    if 'A' <= c <= 'Z' then (c as int - 'A' as int + 'a' as int) as char else c
  }

  /** ASCII `str.lower()`. */
  function Lower(s: string): (r: string)
    ensures |r| == |s|
  {
    seq(|s|, i requires 0 <= i < |s| => LowerChar(s[i]))
  }

  /** The normalised query: the nine parameters after the converters have run. */
  datatype Filter = Filter(
    flightNumber: Option<string>,
    origin: Option<string>,
    destination: Option<string>,
    date: Option<Date>,
    time: Option<Time>,
    beforeDate: Option<Date>,
    afterDate: Option<Date>,
    beforeTime: Option<Time>,
    afterTime: Option<Time>)

  /** Reads the nine parameters with `dict.get` and converts the date and time ones. */
  function FilterOf(p: Parameters): (f: Filter)
    ensures f.date.Some? ==> ValidDate(f.date.value)
    ensures f.time.Some? ==> ValidTime(f.time.value)
    ensures f.beforeDate.Some? ==> ValidDate(f.beforeDate.value)
    ensures f.afterDate.Some? ==> ValidDate(f.afterDate.value)
    ensures f.beforeTime.Some? ==> ValidTime(f.beforeTime.value)
    ensures f.afterTime.Some? ==> ValidTime(f.afterTime.value)
  {
    Filter(
      Get(p, FlightNumberKey),
      Get(p, OriginKey),
      Get(p, DestinationKey),
      ConvertDate(Get(p, DateKey)).value,
      ConvertTime(Get(p, TimeKey)).value,
      ConvertDate(Get(p, BeforeDateKey)).value,
      ConvertDate(Get(p, AfterDateKey)).value,
      ConvertTime(Get(p, BeforeTimeKey)).value,
      ConvertTime(Get(p, AfterTimeKey)).value)
  }

  /** The conjunction of the nine clauses; an absent field's clause holds. */
  predicate Matches(f: Filter, r: Record)
  {
    && (f.flightNumber.None? || r.flightNumber == f.flightNumber.value)
    && (f.origin.None? || Lower(r.origin) == Lower(f.origin.value))
    && (f.destination.None? || Lower(r.destination) == Lower(f.destination.value))
    && (f.date.None? || r.date == f.date.value)
    && (f.time.None? || r.time == f.time.value)
    && (f.beforeDate.None? || DateLe(r.date, f.beforeDate.value))
    && (f.afterDate.None? || DateLe(f.afterDate.value, r.date))
    && (f.beforeTime.None? || TimeLe(r.time, f.beforeTime.value))
    && (f.afterTime.None? || TimeLe(f.afterTime.value, r.time))
  }

  /** The list comprehension: the matching records, in store order. */
  function Select(f: Filter, store: seq<Record>): (result: seq<Record>)
    ensures |result| <= |store|
    ensures forall r | r in result :: r in store && Matches(f, r)
  {
    if store == [] then []
    else (if Matches(f, store[0]) then [store[0]] else []) + Select(f, store[1..])
  }

  /** `search_flights(parameters)` over the given store. */
  function SearchFlights(p: Parameters, store: seq<Record>): (result: seq<Record>)
    ensures |result| <= |store|
    ensures forall r | r in result :: r in store && Matches(FilterOf(p), r)
  {
    Select(FilterOf(p), store)
  }

  // ---------------------------------------------------------------------------
  // Properties of the selection

  /** The result is the store with the non-matching records deleted, in store order. */
  lemma {:induction false} SelectIsSubsequence(f: Filter, store: seq<Record>)
    ensures IsSubsequence(Select(f, store), store)
  {
    if store != [] {
      SelectIsSubsequence(f, store[1..]);
      var rest := Select(f, store[1..]);
      if Matches(f, store[0]) {
        assert ([store[0]] + rest)[1..] == rest;
      } else {
        assert Select(f, store) == rest;
      }
    }
  }

  /** Every matching record of the store is kept. */
  lemma {:induction false} SelectKeepsMatches(f: Filter, store: seq<Record>, r: Record)
    requires r in store && Matches(f, r)
    ensures r in Select(f, store)
  {
    if store[0] != r {
      SelectKeepsMatches(f, store[1..], r);
    }
  }

  /** Selecting from two parts of a store and joining the results is selecting from the whole. */
  lemma {:induction false} SelectAppend(f: Filter, a: seq<Record>, b: seq<Record>)
    ensures Select(f, a + b) == Select(f, a) + Select(f, b)
  {
    if a != [] {
      assert (a + b)[1..] == a[1..] + b;
      SelectAppend(f, a[1..], b);
    } else {
      assert a + b == b;
    }
  }

  /** A store whose every record matches is returned whole. */
  lemma {:induction false} SelectAllMatch(f: Filter, store: seq<Record>)
    requires forall i | 0 <= i < |store| :: Matches(f, store[i])
    ensures Select(f, store) == store
  {
    if store != [] {
      SelectAllMatch(f, store[1..]);
    }
  }

  /** Two filters that accept the same records select the same records. */
  lemma {:induction false} SelectSameMatches(f: Filter, g: Filter, store: seq<Record>)
    requires forall i | 0 <= i < |store| :: Matches(f, store[i]) == Matches(g, store[i])
    ensures Select(f, store) == Select(g, store)
  {
    if store != [] {
      SelectSameMatches(f, g, store[1..]);
    }
  }

  /** Each matching record occurs in the selection as often as in the store; others not at all. */
  lemma {:induction false} SelectCount(f: Filter, store: seq<Record>, r: Record)
    ensures multiset(Select(f, store))[r] == if Matches(f, r) then multiset(store)[r] else 0
  {
    if store != [] {
      SelectCount(f, store[1..], r);
      assert store == [store[0]] + store[1..];
    }
  }

  // ---------------------------------------------------------------------------
  // Properties of `search_flights`

  /** The result is a subsequence of the store: store order is kept. */
  lemma SearchIsOrderedSubsequence(p: Parameters, store: seq<Record>)
    ensures IsSubsequence(SearchFlights(p, store), store)
  {
    SelectIsSubsequence(FilterOf(p), store);
  }

  /** A record occurs in the result as often as in the store when it matches, and otherwise not at all. */
  lemma SearchCount(p: Parameters, store: seq<Record>, r: Record)
    ensures multiset(SearchFlights(p, store))[r] == if Matches(FilterOf(p), r) then multiset(store)[r] else 0
  {
    SelectCount(FilterOf(p), store, r);
  }

  /** A parameter missing from the dictionary acts exactly like one present with value `None`. */
  lemma MissingIsNull(p: Parameters, key: string, store: seq<Record>)
    ensures SearchFlights(p - {key}, store) == SearchFlights(p[key := None], store)
  {
    forall k
      ensures Get(p - {key}, k) == Get(p[key := None], k)
    {
    }
    assert FilterOf(p - {key}) == FilterOf(p[key := None]);
  }

  /** A stored record is in the result exactly when all nine clauses hold of it. */
  lemma SearchMembership(p: Parameters, store: seq<Record>, r: Record)
    ensures r in SearchFlights(p, store) <==> (
      && r in store
      && (Get(p, FlightNumberKey).None? || r.flightNumber == Get(p, FlightNumberKey).value)
      && (Get(p, OriginKey).None? || Lower(r.origin) == Lower(Get(p, OriginKey).value))
      && (Get(p, DestinationKey).None? || Lower(r.destination) == Lower(Get(p, DestinationKey).value))
      && (ConvertDate(Get(p, DateKey)).value.None? || r.date == ConvertDate(Get(p, DateKey)).value.value)
      && (ConvertTime(Get(p, TimeKey)).value.None? || r.time == ConvertTime(Get(p, TimeKey)).value.value)
      && (ConvertDate(Get(p, BeforeDateKey)).value.None?
          || DateLe(r.date, ConvertDate(Get(p, BeforeDateKey)).value.value))
      && (ConvertDate(Get(p, AfterDateKey)).value.None?
          || DateLe(ConvertDate(Get(p, AfterDateKey)).value.value, r.date))
      && (ConvertTime(Get(p, BeforeTimeKey)).value.None?
          || TimeLe(r.time, ConvertTime(Get(p, BeforeTimeKey)).value.value))
      && (ConvertTime(Get(p, AfterTimeKey)).value.None?
          || TimeLe(ConvertTime(Get(p, AfterTimeKey)).value.value, r.time)))
  {
    if r in store && Matches(FilterOf(p), r) {
      SelectKeepsMatches(FilterOf(p), store, r);
    }
  }

  /** With every parameter `None` or missing, the whole store comes back in order. */
  lemma SearchAllAbsent(p: Parameters, store: seq<Record>)
    requires AllAbsent(p)
    ensures SearchFlights(p, store) == store
  {
    SelectAllMatch(FilterOf(p), store);
  }

  /** Searching by flight number alone returns exactly the records with that number. */
  lemma SearchByFlightNumber(n: string, store: seq<Record>, r: Record)
    ensures r in SearchFlights(map[FlightNumberKey := Some(n)], store) <==> r in store && r.flightNumber == n
  {
    SearchMembership(map[FlightNumberKey := Some(n)], store, r);
  }

  /** Origins that differ only in ASCII letter case give the same result. */
  lemma SearchOriginIgnoresCase(p: Parameters, o1: string, o2: string, store: seq<Record>)
    requires Lower(o1) == Lower(o2)
    ensures SearchFlights(p[OriginKey := Some(o1)], store) == SearchFlights(p[OriginKey := Some(o2)], store)
  {
    SelectSameMatches(FilterOf(p[OriginKey := Some(o1)]), FilterOf(p[OriginKey := Some(o2)]), store);
  }

  /** Destinations that differ only in ASCII letter case give the same result. */
  lemma SearchDestinationIgnoresCase(p: Parameters, d1: string, d2: string, store: seq<Record>)
    requires Lower(d1) == Lower(d2)
    ensures SearchFlights(p[DestinationKey := Some(d1)], store)
         == SearchFlights(p[DestinationKey := Some(d2)], store)
  {
    SelectSameMatches(FilterOf(p[DestinationKey := Some(d1)]), FilterOf(p[DestinationKey := Some(d2)]), store);
  }

  /** A date parameter that does not parse constrains nothing: the result is as if it were missing. */
  lemma SearchMalformedDateIsAbsent(p: Parameters, key: string, text: string, store: seq<Record>)
    requires key == DateKey || key == BeforeDateKey || key == AfterDateKey
    requires ParseDate(text).None?
    ensures SearchFlights(p[key := Some(text)], store) == SearchFlights(p - {key}, store)
  {
    var with, without := p[key := Some(text)], p - {key};
    assert ConvertDate(Get(with, key)).value == None == ConvertDate(Get(without, key)).value;
    forall k | k != key
      ensures Get(with, k) == Get(without, k)
    {
    }
    assert FilterOf(with) == FilterOf(without);
  }

  /** A time parameter that does not parse constrains nothing: the result is as if it were missing. */
  lemma SearchMalformedTimeIsAbsent(p: Parameters, key: string, text: string, store: seq<Record>)
    requires key == TimeKey || key == BeforeTimeKey || key == AfterTimeKey
    requires ParseTime(text).None?
    ensures SearchFlights(p[key := Some(text)], store) == SearchFlights(p - {key}, store)
  {
    var with, without := p[key := Some(text)], p - {key};
    assert ConvertTime(Get(with, key)).value == None == ConvertTime(Get(without, key)).value;
    forall k | k != key
      ensures Get(with, k) == Get(without, k)
    {
    }
    assert FilterOf(with) == FilterOf(without);
  }

  /** A `before_date` earlier than the `after_date` leaves nothing to find. */
  lemma SearchConflictingDates(p: Parameters, store: seq<Record>, before: Date, after: Date)
    requires ConvertDate(Get(p, BeforeDateKey)).value == Some(before)
    requires ConvertDate(Get(p, AfterDateKey)).value == Some(after)
    requires !DateLe(after, before)
    ensures SearchFlights(p, store) == []
  {
    var result := SearchFlights(p, store);
    if result != [] {
      var r := result[0];
      assert Matches(FilterOf(p), r);
      assert DateLe(after, r.date) && DateLe(r.date, before);
      DateLeIsTotalOrder(after, r.date, before);
    }
  }

  /** A `before_time` earlier than the `after_time` leaves nothing to find. */
  lemma SearchConflictingTimes(p: Parameters, store: seq<Record>, before: Time, after: Time)
    requires ConvertTime(Get(p, BeforeTimeKey)).value == Some(before)
    requires ConvertTime(Get(p, AfterTimeKey)).value == Some(after)
    requires !TimeLe(after, before)
    ensures SearchFlights(p, store) == []
  {
    var result := SearchFlights(p, store);
    if result != [] {
      var r := result[0];
      assert Matches(FilterOf(p), r);
      assert TimeLe(after, r.time) && TimeLe(r.time, before);
      TimeLeIsTotalOrder(after, r.time, before);
    }
  }

  // ---------------------------------------------------------------------------
  // The interval case tests/test_query_handler.py checks, on a two-flight store

  const AA101: Record := Record("AA101", "New York", "London", Date(2025, 3, 5), Time(10, 0, 0))
  const BA202: Record := Record("BA202", "New York", "London", Date(2025, 3, 7), Time(10, 0, 0))

  const IntervalQuery: Parameters := map[
    FlightNumberKey := None, OriginKey := Some("new york"), DestinationKey := Some("london"),
    DateKey := None, TimeKey := None,
    BeforeDateKey := Some("2025-03-06"), AfterDateKey := Some("2025-03-04"),
    BeforeTimeKey := Some("11:00"), AfterTimeKey := Some("09:00")]

  const IntervalFilter: Filter := Filter(
    None, Some("new york"), Some("london"), None, None,
    Some(Date(2025, 3, 6)), Some(Date(2025, 3, 4)), Some(Time(11, 0, 0)), Some(Time(9, 0, 0)))

  lemma IntervalQueryReads()
    ensures Get(IntervalQuery, FlightNumberKey) == None
    ensures Get(IntervalQuery, OriginKey) == Some("new york")
    ensures Get(IntervalQuery, DestinationKey) == Some("london")
    ensures Get(IntervalQuery, DateKey) == None && Get(IntervalQuery, TimeKey) == None
    ensures Get(IntervalQuery, BeforeDateKey) == Some("2025-03-06")
    ensures Get(IntervalQuery, AfterDateKey) == Some("2025-03-04")
    ensures Get(IntervalQuery, BeforeTimeKey) == Some("11:00")
    ensures Get(IntervalQuery, AfterTimeKey) == Some("09:00")
  {
  }

  lemma IntervalDatesParse()
    ensures ConvertDate(Some("2025-03-06")).value == Some(Date(2025, 3, 6))
    ensures ConvertDate(Some("2025-03-04")).value == Some(Date(2025, 3, 4))
  {
    DateFields('2', '0', '2', '5', '0', '3', '0', '6', Date(2025, 3, 6));
    DateFields('2', '0', '2', '5', '0', '3', '0', '4', Date(2025, 3, 4));
  }

  lemma IntervalTimesParse()
    ensures ConvertTime(Some("11:00")).value == Some(Time(11, 0, 0))
    ensures ConvertTime(Some("09:00")).value == Some(Time(9, 0, 0))
  {
    ShortTimeFields('1', '1', '0', '0', Time(11, 0, 0));
    ShortTimeFields('0', '9', '0', '0', Time(9, 0, 0));
  }

  lemma IntervalQueryNormalises()
    ensures FilterOf(IntervalQuery) == IntervalFilter
  {
    IntervalQueryReads();
    IntervalDatesParse();
    IntervalTimesParse();
  }

  lemma IntervalMatches()
    ensures Matches(IntervalFilter, AA101) && !Matches(IntervalFilter, BA202)
  {
    assert Lower("New York") == Lower("new york");
    assert Lower("London") == Lower("london");
  }

  /** AA101 (in the interval) is found, BA202 (two days later) is not. */
  lemma IntervalExample()
    ensures SearchFlights(IntervalQuery, [AA101, BA202]) == [AA101]
  {
    IntervalQueryNormalises();
    IntervalMatches();
    assert [AA101, BA202][1..] == [BA202] && [BA202][1..] == [];
    assert Select(IntervalFilter, [BA202]) == [];
    assert Select(IntervalFilter, [AA101, BA202]) == [AA101] + Select(IntervalFilter, [BA202]);
  }
}

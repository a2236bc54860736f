# Flight query core, modelled in Dafny

The system answers natural-language flight questions. A language model turns
the question into nine optional query parameters. The flight store is filtered
by those parameters, and the language model phrases an answer from the matching
records. This project models the deterministic middle of that pipeline:

- **Temporal normaliser** (`utils.py`). `convert_date` and `convert_time` turn an
  optional string into an optional calendar date or time of day. A string that
  does not parse yields `None` and a logged diagnostic; nothing is raised.
  Modelled in `temporal.dfy` by `ConvertDate` / `ConvertTime` over hand-written
  parsers `ParseDate` (`YYYY-MM-DD`) and `ParseTime` (`HH:MM`, `HH:MM:SS`). They
  check month ranges, the days of each month under the Gregorian leap rule, the
  year range 1 to 9999 of `datetime.date`, and the hour, minute and second ranges.
- **Fence stripping and decoding** (`query_handler.py`, `extract_flight_parameters`).
  `re.sub(r'```json\n|\n```', '', response)` deletes every occurrence of either
  pattern, left to right. Then the reply is decoded as JSON, and a decoding
  failure becomes `ValueError("Failed to parse Gemini response: …")`. Modelled in
  `extraction.dfy`; the JSON decoder is a function parameter.
- **Flight search** (`query_handler.py`, `search_flights`). A conjunctive filter
  over an ordered store. It uses exact equality on flight number, date and time,
  and ASCII case-insensitive equality on origin and destination. It also applies
  inclusive bounds on date and time. A parameter that is `None` or missing
  constrains nothing. Modelled in `flight_search.dfy`, with the store passed in
  as a `seq<Record>`.

Supporting modules: `wrappers.dfy` (`Option`, `Result`), `sequences.dfy`
(order-preserving subsequence), `query_parameters.dfy` (the decoded parameter
dictionary and `dict.get`).

## Model

| member | source | states |
|---|---|---|
| Temporal.ParseDate | utils.py:41-45 | a date is returned only if it is a real date of years 1 to 9999 |
| Temporal.ParseTime | utils.py:20-24 | a time is returned only if hour < 24, minute < 60 and second < 60 |
| Temporal.ConvertDate | utils.py:26-45 | `None` in gives `None` out with nothing logged; otherwise the result is `None` or a valid date; a "Date conversion failed for input …" diagnostic is logged exactly when a supplied string fails to parse |
| Temporal.ConvertTime | utils.py:5-24 | `None` in gives `None` out with nothing logged; otherwise the result is `None` or a valid time; a "Time conversion failed for input …" diagnostic is logged exactly when a supplied string fails to parse |
| Temporal.DateRoundTrip | utils.py:26-42 | a valid date printed as zero-padded `YYYY-MM-DD` parses back to the same date |
| Temporal.ParsedDateIsCanonical | utils.py:41-42 | any string that parses is the zero-padded `YYYY-MM-DD` text of the date it yields |
| Temporal.ParseDateExactly | utils.py:41-45 | a string parses to a date iff the date is valid and the string is its `YYYY-MM-DD` text (both directions) |
| Temporal.ConvertDateIsParse | utils.py:37-45 | a supplied string converts to a date iff the date is valid and the string is its canonical text |
| Temporal.TimeRoundTrip | utils.py:20-21 | a valid time printed as `HH:MM:SS` parses back to the same time |
| Temporal.ShortTimeRoundTrip | utils.py:5-21 | a valid time printed as `HH:MM` parses back with the same hour and minute and second 0 |
| Temporal.ParsedTimeIsCanonical | utils.py:20-21 | any string that parses is the `HH:MM:SS` text of its time, or its `HH:MM` text with second 0 |
| Temporal.ParseTimeExactly | utils.py:20-24 | a string parses to a time iff the time is valid and the string is its `HH:MM:SS` text, or its `HH:MM` text when the second is 0 (both directions) |
| Temporal.ConvertTimeIsParse | utils.py:16-24 | a supplied string converts to a time iff the same condition holds |
| Temporal.DigitsOfPad | utils.py:41-42 | a number printed zero-padded to a width it fits reads back as that number |
| Temporal.PadOfDigits | utils.py:41-42 | a digit string's value printed zero-padded to the string's length gives the string back |
| Temporal.DateLeIsTotalOrder | query_handler.py:88-89 | the date comparison used for the date bounds is reflexive, antisymmetric, transitive and total |
| Temporal.TimeLeIsTotalOrder | query_handler.py:90-91 | the time comparison used for the time bounds is reflexive, antisymmetric, transitive and total |
| Temporal.ValidDateExamples | tests/test_utils.py:53-63 | `2020-01-01`, `1999-12-31` and the leap day `2000-02-29` convert to exactly those dates |
| Temporal.InvalidDateExamples | tests/test_utils.py:69-84 | empty text, `not a date`, months `13` and `00`, `2020-02-30`, `01-01-2020` and `2020/01/01` convert to `None` |
| Temporal.ValidShortTimeExamples | tests/test_utils.py:8-19 | `00:00`, `23:59`, `12:34`, `07:45` convert with second 0 |
| Temporal.ValidLongTimeExample | tests/test_utils.py:21-29 | `23:59:59` converts to 23, 59, 59 |
| Temporal.InvalidTimeExamples | tests/test_utils.py:35-49 | empty text, `not a time`, `24:00`, `12:60`, `12-34` and `99:99` convert to `None` |
| Extraction.StripFences | query_handler.py:48 | stripping never lengthens the text |
| Extraction.StripFencesDeletesOnly | query_handler.py:48 | the stripped text is a subsequence of the reply: characters are only deleted, never reordered |
| Extraction.StripFencesUnfenced | query_handler.py:48 | text containing neither `` ```json\n `` nor `` \n``` `` is returned unchanged |
| Extraction.StripFencesNoBacktick | query_handler.py:48 | text without a backtick is returned unchanged |
| Extraction.StripFencesBeforeClose | query_handler.py:48 | text without a backtick followed by the closing fence loses only the fence |
| Extraction.StripFencesFenced | query_handler.py:48 | `` ```json\n `` + s + `` \n``` `` strips to exactly s when s has no backtick |
| Extraction.ExtractParameters | query_handler.py:46-55 | the result succeeds iff the decoder accepts the stripped reply, and then carries what it decoded; a failure carries "Failed to parse Gemini response: " followed by the decoder's message |
| Extraction.FencedReplyDecodesAsPlain | query_handler.py:46-53 | a reply wrapped in a ```json fence gives the same result, success or error, as the unwrapped reply |
| FlightSearch.FilterOf | query_handler.py:70-78 | every date and time bound that survives conversion is a valid date or time |
| FlightSearch.Select | query_handler.py:81-92 | the result is no longer than the store and holds only store records that satisfy every clause |
| FlightSearch.SearchFlights | query_handler.py:57-92 | the same, for the parameters as given |
| FlightSearch.SelectIsSubsequence | query_handler.py:81-92 | the selection is a subsequence of the store |
| FlightSearch.SelectKeepsMatches | query_handler.py:81-92 | every store record that satisfies every clause is selected |
| FlightSearch.SelectAppend | query_handler.py:81-92 | selecting from a concatenation is concatenating the selections, so store order is kept |
| FlightSearch.SelectAllMatch | query_handler.py:81-92 | if every record matches, the whole store is returned |
| FlightSearch.SelectSameMatches | query_handler.py:81-92 | two filters that accept the same records of a store select the same result |
| FlightSearch.SearchIsOrderedSubsequence | query_handler.py:81-92 | the search result is a subsequence of the store, in store order |
| FlightSearch.SearchMembership | query_handler.py:83-91 | a record is in the result iff it is in the store and all nine clauses hold (exact flight number; case-insensitive origin and destination; exact date and time; inclusive date and time bounds; each absent parameter imposing nothing) |
| FlightSearch.MissingIsNull | query_handler.py:70-78 | a parameter missing from the dictionary gives the same result as the same key present with value `None`, for every key |
| FlightSearch.SelectCount | query_handler.py:81-92 | a matching record occurs in the selection exactly as often as in the store; a non-matching one not at all |
| FlightSearch.SearchCount | query_handler.py:81-92 | the same count, for the parameters as given: duplicates in the store are neither merged nor added |
| FlightSearch.SearchAllAbsent | query_handler.py:70-92 | with all nine parameters `None` or missing, the result is the whole store |
| FlightSearch.SearchByFlightNumber | query_handler.py:83 | searching by flight number alone returns exactly the records with that number |
| FlightSearch.SearchOriginIgnoresCase | query_handler.py:84 | origins equal up to ASCII letter case give identical results |
| FlightSearch.SearchDestinationIgnoresCase | query_handler.py:85 | destinations equal up to ASCII letter case give identical results |
| FlightSearch.SearchMalformedDateIsAbsent | query_handler.py:73-76 | a date, before-date or after-date string that does not parse gives the same result as a missing one |
| FlightSearch.SearchMalformedTimeIsAbsent | query_handler.py:74-78 | a time, before-time or after-time string that does not parse gives the same result as a missing one |
| FlightSearch.SearchConflictingDates | query_handler.py:88-89 | a before-date earlier than the after-date gives an empty result |
| FlightSearch.SearchConflictingTimes | query_handler.py:90-91 | a before-time earlier than the after-time gives an empty result |
| FlightSearch.IntervalExample | tests/test_query_handler.py:173-188 | with origin `new york`, destination `london`, dates 2025-03-04 to 2025-03-06 and times 09:00 to 11:00, the 2025-03-05 10:00 flight is found and one two days later is not |

## Left out

- The language-model gateway (`gemini_api.py`): an HTTP request with an API key from the environment. It is network I/O, so the model takes the model's reply as a parameter.
- The console front end (`main.py`) and its markdown rendering.
- Prompt construction and the current date from `datetime.now()` (query_handler.py:22-42): clock-dependent text templating.
- `process_response` (query_handler.py:94-125): it only sequences the two gateway calls around `search_flights`. Its answer prompt is text templating.
- `print` and `pprint` output. The `logging` calls are kept only as the diagnostic text the converters log.
- `json.loads` is not reimplemented. `ExtractParameters` takes the decoder as a function from text to decoded parameters or an error message. Decoded values are modelled as strings or null only. A JSON number or list as a parameter value, or a reply that decodes to something other than an object, is not modelled.
- The code does no schema check on the decoded reply (query_handler.py:51-53), so the model has none.
- A stored record with a missing origin or destination would raise on `.lower()` (query_handler.py:84-85). `Record` has no optional fields, so every stored record has all five.
- Temporal.ParseDate: models only the canonical `YYYY-MM-DD` form with ASCII digits. Newer Python versions of `date.fromisoformat` also accept compact dates (`20200101`) and ISO week dates. The model rejects them, and no claim is made about what the real parser does with them.
- Temporal.ParseTime: models only `HH:MM` and `HH:MM:SS` with ASCII digits. `time.fromisoformat` may also accept a bare `HH`, fractional seconds and time-zone offsets, depending on the Python version. The model rejects them, and no claim is made about what the real parser does with them.
- Temporal.ConvertDate: the logged message ends with the parser's exception text, which is not modelled. The contract states only its prefix, "Date conversion failed for input " followed by the input.
- Temporal.ConvertTime: likewise, only the prefix "Time conversion failed for input " followed by the input is stated.
- Stored times are `Time` values without microseconds or a time zone.
- Case folding is ASCII only (`A`–`Z`). Python's Unicode `str.lower()` is not modelled.
- The module-level `flight_data` store (query_handler.py:2) is not part of this model. Its contents are not available, so the store is a parameter of `SearchFlights`.

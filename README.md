# NovaSport checker: a Dafny model of its decision core

`ns_checker.py` is a polling loop for a sports-booking service. On each cycle it
waits a jittered interval, or until just past the next hour mark when the mark
is close. Then, for every sport in its configuration, it does four things:

- fetches the dates that have sessions;
- keeps the dates whose weekday appears in the sport's schedule (entries like
  `"Wednesday/18:00|19:00"`);
- fetches each kept date's sessions and selects the bookable ones at the
  entry's hours;
- books them when the sport has `autobooking`. A confirmed booking's class id
  is recorded in the global ledger `booked`.

The model covers that decision layer. The service's answers are a value
(`Checker.Remote`), and so are the clock reading and the random draw. Everything
is deterministic and can be stated exactly.

The modules follow the program:

- `Calendar`: `date_to_weekday`. Parses `yyyy-mm-dd` as `datetime.date` does and
  names the weekday in the proleptic Gregorian calendar, counting days from
  0001-01-01.
- `TimeGate`: `close_to_new_hour` and the choice of pause in `process`.
- `Matcher`: `matching_dates_weekday` and `matching_sessions_at_date`. Both are
  methods with the source's loops, each proved equal to a fold function. The
  properties are lemmas about those folds.
- `Ledger`: `validate_booked`, as intended and as written.
- `Checker`: the parts of the process that change state.
  - `query_from_tpl` merges the defaults into a `Params` object in place.
  - The two shared `params={}` default dictionaries are two `Params` objects
    owned by the checker.
  - `get_sessions_dates`, `get_sessions_at_date`, `book_session`,
    `validate_booked`, `iteration_check` and `process` are methods of class
    `Checker.Checker`, proved against the functions `CheckSports` /
    `CheckSport` / `CheckDates` / `CheckDate` / `BookAll`.
- Helper modules: `Text` (Python's `str.split`, and `int` of a digit string),
  `Dicts` (insertion-ordered dictionaries) and `Wrappers`/`Faults` (options,
  results, and the exceptions the code raises).

Python dictionaries keep insertion order, and the ledger's append order depends
on it. So the matchers return a `Dict`: the key order together with the
mapping.

Where the code is not what one would first read into it, the model follows the
code:

- A given interval of `0` is falsy, so it selects the random draw, like no
  interval at all.
- A session is full only when its count *equals* the maximum.
- An unparsable remote date raises only when the sport's schedule is non-empty,
  because the weekday is computed inside the loop over the schedule.
- An entry without `/` raises `IndexError` in the session matcher before any
  session is looked at.
- An exception raised inside `iteration_check` ends the cycle, with the state
  reached so far. The model returns it from `Checker.Checker.Process`. In the
  program nothing catches it: the main loop (ns_checker.py:222-226) catches
  only `KeyboardInterrupt`, so the exception ends the checker and the final log
  of `booked` is never written. The main loop is not modelled.

## Model

| member | source | states |
|---|---|---|
| Calendar.DateToWeekday | ns_checker.py:37-40 | succeeds exactly when the string parses to a valid date; the result is then the day name of that parsed date, one of the seven English names; otherwise the error names the string |
| Calendar.ParseDate | ns_checker.py:39 | a parsed date is a valid `datetime.date` (year 1..9999, month 1..12, day within the month's length) |
| Calendar.ParseFormatRoundTrip | ns_checker.py:37-39 | every valid date written as `yyyy-mm-dd` parses back to itself |
| Calendar.DaysInMonth | ns_checker.py:39 | a month has 28 to 31 days |
| Calendar.DaysInYear | ns_checker.py:39-40 | the day count grows by 366 over a leap year and 365 over any other |
| Calendar.NextDateOrdinal | ns_checker.py:39-40 | the next calendar day is valid and its day number is one more |
| Calendar.NextDateIsNextWeekday | ns_checker.py:40 | the next calendar day's weekday is the next weekday, Sunday wrapping to Monday |
| Calendar.EpochIsMonday | ns_checker.py:40 | day 1 (0001-01-01) is a Monday, as in the proleptic Gregorian calendar |
| Calendar.Weekday | ns_checker.py:40 | the weekday index lies in 0..6 |
| Calendar.DayName | ns_checker.py:40 | the name given is one of the seven day names |
| Calendar.WeekdayExample | ns_checker.py:37-40 | `"2024-01-03"` is a Wednesday |
| Calendar.InvalidMonthExample | ns_checker.py:39 | `"2024-13-01"` raises instead of naming a day |
| Text.Split | ns_checker.py:39 | like `str.split`, never returns an empty list, and no piece holds the separator |
| Text.JoinSplit | ns_checker.py:83 | joining the pieces of a split gives back the string |
| Text.SplitJoin | ns_checker.py:39 | splitting a join of separator-free pieces gives back the pieces |
| Text.SplitHeadBeforeFirstSep | ns_checker.py:83 | the first piece is the text before the first separator (all of it when there is none) |
| Text.SplitWithoutSepInverse | ns_checker.py:91 | a string that splits into a single piece holds no separator |
| Text.DigitsValuePadded | ns_checker.py:39 | `int` of a zero-padded numeral is the number |
| Dicts.Dict.Put | ns_checker.py:84 | `d[k] = v` maps `k` to `v`; a new key goes last, an existing one keeps its place; keys stay distinct |
| Dicts.Empty | ns_checker.py:80 | `{}` has no keys |
| Dicts.PutPut | ns_checker.py:84 | a second write to a key replaces the first, in place |
| TimeGate.CloseToNewHour | ns_checker.py:42-48 | `True` exactly when the seconds left in the hour are at most the threshold; then the wait is those seconds (1..3600, ending on the mark); otherwise `-1` |
| TimeGate.EffectiveMaxInterval | ns_checker.py:187 | the maximum is `max(15, configured)` |
| TimeGate.RandInt | ns_checker.py:194 | a draw lies in `[lo, hi]` |
| TimeGate.RandIntCoversRange | ns_checker.py:194 | every value of `[lo, hi]` is some draw |
| TimeGate.NextDelay | ns_checker.py:187-196 | boundary branch exactly when the hour mark is within the maximum: the sleep then ends 10 s past the mark and `interval` keeps its value; otherwise the sleep is the new `interval`, which is the given one when it is truthy, or else a draw in `[10, max]` |
| TimeGate.JitteredPollStaysInHour | ns_checker.py:188-196 | a jittered pause never crosses the hour mark |
| TimeGate.BoundaryExamples | ns_checker.py:187-196 | with a maximum of 30 s: at hh:59:45 the sleep is 25 s and `interval` is unchanged; at hh:10:00 the pause is 10..30 s |
| Matcher.DayPart | ns_checker.py:83 | the day part of an entry is its text before the first `/`, the whole entry when it has none |
| Matcher.HourList | ns_checker.py:91 | the hour list exists exactly when the entry contains `/` |
| Matcher.MatchingDatesWeekday | ns_checker.py:77-85 | the nested loops compute the date fold `DateMatches` |
| Matcher.LastMatchIsLastEntry | ns_checker.py:82-84 | no entry matches a day name exactly when none has that day prefix; otherwise the match is the last entry with that prefix |
| Matcher.MatchDatesFromError | ns_checker.py:81-83 | the matcher raises exactly when the schedule is non-empty and some date does not parse; the error names the first such date |
| Matcher.MatchDatesFromContent | ns_checker.py:80-85 | the keys are the dates that match, plus the keys already present; each matched date maps to its entry; keys stay distinct |
| Matcher.MatchedDates | ns_checker.py:77-85 | a date is a key exactly when it is a remote date that parses and some entry's day prefix is its weekday name; its value is the last such entry |
| Matcher.MatchDatesFromNoSchedule | ns_checker.py:81-82 | with an empty schedule nothing is matched and nothing raises, whatever the dates |
| Matcher.MatchDatesFromOrder | ns_checker.py:80-84 | the dates a scan adds come after the keys already present, in the order of their first occurrence among the scanned dates |
| Matcher.MatchedDatesOrder | ns_checker.py:77-85 | the result's keys are in the order in which each first occurs among the remote dates |
| Matcher.MatchedDateEntry | ns_checker.py:81-84 | a kept date is a remote date that parses, and its value is a schedule entry whose day part is that date's weekday name |
| Matcher.MatchingSessionsAtDate | ns_checker.py:87-101 | the loop, with its `continue`, computes `SessionMatches`; an entry without `/` is an error |
| Matcher.SelectFromConcat | ns_checker.py:93-100 | scanning `a + b` is scanning `a`, then `b` from where `a` left off |
| Matcher.UnavailableSessionIgnored | ns_checker.py:95-98 | removing a booked, inactive or full session changes nothing |
| Matcher.SelectFromKeys | ns_checker.py:93-100 | the keys are the start times of bookable sessions at an accepted hour, plus the keys already present; earlier keys keep their values |
| Matcher.SelectFromFirstWins | ns_checker.py:97-100 | each new start time maps to the class of the first eligible session with that start time |
| Matcher.MatchedSessions | ns_checker.py:87-101 | error exactly when the entry has no `/`; otherwise the keys are the start times of available sessions at an accepted hour, `*` accepting any hour, each mapped to the class of the first such session |
| Matcher.SelectFromOrder | ns_checker.py:93-100 | the start times a scan adds come after the keys already present, in the order of the first eligible session of each |
| Matcher.MatchedSessionsOrder | ns_checker.py:87-101 | the result's keys are in the order of the first eligible session of each start time |
| Matcher.SelectedClassIsEligible | ns_checker.py:91-100 | a selected class id is that of a session that is not booked, active and not full, at a start time the entry's hour list accepts |
| Ledger.Record | ns_checker.py:151-152 | on a confirmed booking, the class id is appended at the end of the sport's list; otherwise the ledger is unchanged; other sports never change |
| Ledger.Classify | ns_checker.py:151-154 | reports `Booked(classId)` exactly on a confirmed booking, else the response itself |
| Ledger.ValidateBookedAsWritten | ns_checker.py:148-154 | the code as written raises exactly on an unconfirmed booking, a `NameError` for `response`; on a confirmed one it appends the class id to the sport's list, leaves other sports alone and reports the booking |
| Ledger.AsWrittenRaisesWhenNotBooked | ns_checker.py:148-154 | the code as written raises `NameError` on every unconfirmed booking, including the `{}` of an HTTP error; on a confirmed one it agrees with `Record` and `Classify` |
| Ledger.ExtendsTrans | ns_checker.py:149-152 | runs of bookings compose: other sports untouched, lists grow at the end, only confirmed ids are added |
| Ledger.RecordExtends | ns_checker.py:151-152 | one `validate_booked` call is such a run for its sport |
| Checker.WithDefaults | ns_checker.py:106-108 | the merged keys are the given ones plus the defaults; given values win; missing defaults are added with their values |
| Checker.WithDefaultsIdempotent | ns_checker.py:111-114 | merging into an already merged dictionary changes nothing, so the defaults left in the shared `params={}` are harmless |
| Checker.CallParameterWins | ns_checker.py:123-127 | a value set for the call (`sport`, `date`) survives the merge even when a default for it was left behind |
| Checker.Params.constructor | ns_checker.py:138 | a new dictionary holds the given entries |
| Checker.Checker.constructor | ns_checker.py:204-206 | the process starts with an empty ledger, `interval = MIN_INTERVAL`, empty shared parameter dictionaries and no booking sent |
| Checker.Checker.QueryFromTpl | ns_checker.py:103-109 | with defaults, `params` becomes the merge of its old contents with the configured defaults; without, it is unchanged |
| Checker.Checker.GetSessionsDates | ns_checker.py:111-121 | the shared dictionary gets `sport` and then the merge; the result is the service's dates, `[]` on an HTTP error |
| Checker.Checker.GetSessionsAtDate | ns_checker.py:123-134 | the shared dictionary gets `sport`, `date` and then the merge; the result is the service's sessions, `[]` on an HTTP error |
| Checker.Checker.BookSession | ns_checker.py:136-146 | the answer for the class id, `{}` on an HTTP error; no shared dictionary is touched |
| Checker.Checker.ValidateBooked | ns_checker.py:148-154 | the ledger becomes `Record` of the old one and the outcome is `Classify` of the response (the intended failure path) |
| Checker.Checker.BookSelected | ns_checker.py:176-181 | the innermost loop sends one booking per selected pair, in dictionary order, only with `autobooking`, and records each answer |
| Checker.Checker.CheckMatchedDate | ns_checker.py:169-181 | the matched-date step fetches, selects and books as `CheckDate` says, stopping on the matcher's error |
| Checker.Checker.IterationCheck | ns_checker.py:163-181 | the triple loop leaves ledger, shared dictionaries and sent bookings as `CheckSports` says, and returns the exception that ended it, if any |
| Checker.Checker.Process | ns_checker.py:184-198 | sleep and `interval` as `NextDelay` says, then one cycle over the configured sports |
| Checker.BookAllProgress | ns_checker.py:176-180 | booking one date's selection extends the ledger only for an autobooking sport and only with confirmed ids |
| Checker.CheckDateProgress | ns_checker.py:169-180 | the same for one matched date |
| Checker.CheckDatesProgress | ns_checker.py:169-181 | the same for a sport's matched dates |
| Checker.CheckSportProgress | ns_checker.py:164-181 | the same for one sport |
| Checker.CheckSportsProgress | ns_checker.py:164-181 | the same for a list of sports |
| Checker.CycleBooksOnlyAutobookSports | ns_checker.py:163-181 | whatever the service answers, a cycle sends bookings only for `autobooking` sports, leaves other sports' ledger entries alone, only appends, and appends only ids the service confirmed (the exact requests and entries are the rows below) |
| Checker.CycleWithoutAutobookingBooksNothing | ns_checker.py:176-177 | without `autobooking` anywhere, a cycle sends no booking and leaves the ledger as it was |
| Checker.PairRequests | ns_checker.py:176-179 | one booking request per listed key, the i-th for the class selected at the i-th key |
| Checker.ConfirmedForConcat | ns_checker.py:151-152 | the class ids confirmed for two runs of requests are those of the first run followed by those of the second |
| Checker.AccountsTrans | ns_checker.py:151-152 | "each sport's list grew by exactly the confirmed answers to the added requests" composes over consecutive steps |
| Checker.BookAllEffect | ns_checker.py:176-180 | with `autobooking`, one date's loop sends exactly one request per selected pair in dictionary order; without it, none; each sport's list grows by exactly the confirmed answers to those requests |
| Checker.CheckDateEffect | ns_checker.py:169-180 | a matched date sends exactly its selected pairs' requests (none without `autobooking` or when the entry has no `/`), and records their confirmed answers |
| Checker.CheckDatesEffect | ns_checker.py:169-181 | a sport's matched dates send their requests date after date; all of them unless an exception stops the loop, a prefix if it does |
| Checker.CheckSportEffect | ns_checker.py:164-181 | the same for one sport, nothing when its dates raise |
| Checker.CheckSportsEffect | ns_checker.py:163-181 | the same for the list of sports, sport after sport |
| Checker.PairRequestsMembers | ns_checker.py:176-179 | the requests of a selection are exactly the pairs of the sport with a selected class id |
| Checker.DateRequestsMembers | ns_checker.py:174-179 | a matched date's requests are exactly its selected class ids, for an `autobooking` sport |
| Checker.DatesRequestsMembers | ns_checker.py:169-179 | a sport's requests are those of its matched dates |
| Checker.SportRequestsMembers | ns_checker.py:164-179 | a sport's requests are exactly the class ids selected on one of its kept dates, when it has `autobooking` |
| Checker.CycleRequestsMembers | ns_checker.py:163-179 | a cycle's requests are those of its sports |
| Checker.CycleRequestsAreSelectedPairs | ns_checker.py:163-181 | a request is among a cycle's requests exactly when its sport has `autobooking` and its class id was selected on a date the weekday matcher kept for that sport |
| Checker.SelectedPairIsBookableSession | ns_checker.py:77-101 | such a date is a remote date with a schedule entry for its weekday, and such a class is an available session of that date at an hour the entry accepts |
| Checker.CycleSendsSelectedPairs | ns_checker.py:163-181 | a cycle sends exactly its selected pairs' requests, in loop order, when no exception ends it, and a prefix of them when one does |
| Checker.CycleLedgerRecordsConfirmedAnswers | ns_checker.py:163-181 | after a cycle each sport's list is the old one followed by the class ids the service confirmed for that sport's sent requests, in sending order; a sport enters the ledger only with a confirmed booking |

## Left out

- Network I/O. The GraphQL POSTs and the token request (`get_token`) are replaced by `Checker.Remote`. A key missing from it stands for the HTTP error the client turns into `[]` or `{}`. A malformed or `null` JSON body, which raises in the code, is not modelled.
- One snapshot of the service per cycle. `Remote` gives one answer per sport for the dates and one per (sport, date) for the sessions. So a sport listed twice in `param_queries` sees the same answers on its second pass, and a session booked on the first pass is not shown there as `isBooked`; the program would fetch again and see it booked.
- One answer per class id. `Remote.bookings` gives one answer per class id, so booking the same id twice in a cycle sees the same answer both times.
- Clock and randomness. `sleep`, `datetime.now` and `randint` become parameters: the minute and second, and a free draw. `Process` returns the sleep length instead of sleeping. The uniformity of `randint` is not modelled, only its range.
- Negative `--interval`. A negative given interval would make `sleep` raise; `Checker.Checker.Process` returns it as the sleep length.
- Logging and messages. `setup_logging`, `log_all` and all message texts are left out; only the booked / not-booked classification is kept. This includes two slips in the log lines at ns_checker.py:171-172: `len(matching_date)` counts the date's characters, and the join runs over the date string.
- HTTP headers and URL. `form_headers` and `url_post_to` are left out. The user-agent choice `interval % len(user_agents)` is the only state they read; it is not modelled.
- `unbook_session`. It is not called anywhere in the checker.
- Template rendering. The `%` rendering in `query_from_tpl` is left out, and the query templates in templates/ are not part of this model; only the merge of defaults is modelled.
- Process plumbing. Command-line parsing, loading the JSON configuration and the main loop (ns_checker.py:222-226) are left out. That loop catches only `KeyboardInterrupt`; an exception from a cycle ends the program there, while the model returns it from `Checker.Checker.Process`. server.py (the token HTTP handler) and start.py (subprocess launching) are not part of this model.
- Calendar.ParseDate: accepts exactly three non-empty ASCII digit strings. Python's `int` also accepts a sign, surrounding whitespace, underscores and non-ASCII digits; those inputs are outside the model.
- A schedule entry or session lacking one of its keys raises `KeyError` in the code; the datatypes always carry every field.
- Checker.Checker.IterationCheck: its two innermost loop bodies are the methods `CheckMatchedDate` and `BookSelected`, to keep each proof small. The order of calls and the effects are those of the source.

## Findings

| source | as written | input that shows it | evidently intended | confidence | as-written member | corrected member |
|---|---|---|---|---|---|---|
| ns_checker.py:154 | the failure message interpolates `response`, a name bound nowhere, so the failure branch raises `NameError` | any unconfirmed booking, e.g. the `{}` that `book_session` returns after an HTTP error, or `{'isBooked': False, ...}` | return the "not booked" message with the response that was passed in, leaving the ledger unchanged | not executed | Ledger.AsWrittenRaisesWhenNotBooked | Checker.Checker.ValidateBooked |

The as-written behaviour is `Ledger.ValidateBookedAsWritten`. The intended one is
`Ledger.Record` together with `Ledger.Classify`, and the rest of the model uses
it. As written, the first unconfirmed booking would end `iteration_check` with an
exception. For instance, an attempt to book a second session of the same sport on
the same day is refused by the service, and the code would then raise.

/** The checker process: its global state (`booked`, `interval`, the
    configuration and the two `params={}` dictionaries that
    `get_sessions_dates` and `get_sessions_at_date` share across calls), the
    parameter merge `query_from_tpl`, the API calls with the network replaced
    by the service's answers, `validate_booked`, `iteration_check` and
    `process`. */
module Checker {
  import opened Wrappers
  import opened Faults
  import opened Dicts
  import opened TimeGate
  import opened Matcher
  import opened Ledger
  import opened Calendar

  /** One element of `param_queries`: a sport, its schedule entries and
      whether matches are booked. */
  datatype SportQuery = SportQuery(sport: string, sessions: seq<string>, autobooking: bool)

  /** The parts of the configuration file the core reads. */
  datatype Config = Config(maxInterval: int, defaults: map<string, string>, queries: seq<SportQuery>)

  /** The service's answers during one cycle. A missing key stands for an
      HTTP error, which the API client turns into `[]` (dates, sessions) or
      `{}` (a booking). */
  datatype Remote = Remote(
    dates: map<string, seq<string>>,
    sessions: map<(string, string), seq<Session>>,
    bookings: map<string, BookResponse>)

  function DatesOf(remote: Remote, sport: string): seq<string> {
    if sport in remote.dates then remote.dates[sport] else []
  }

  function SessionsOf(remote: Remote, sport: string, date: string): seq<Session> {
    if (sport, date) in remote.sessions then remote.sessions[(sport, date)] else []
  }

  function BookingOf(remote: Remote, classId: string): BookResponse {
    if classId in remote.bookings then remote.bookings[classId] else NoResponse
  }

  /** The class ids the service confirms as booked. */
  function ConfirmedIds(remote: Remote): set<string> {
    set id | id in remote.bookings && Confirmed(remote.bookings[id]) :: remote.bookings[id].classId
  }

  /** The merge of `query_from_tpl`: each default key missing from `params`
      is added with its default value; keys already present keep theirs. */
  function WithDefaults(params: map<string, string>, defaults: map<string, string>): (r: map<string, string>)
    ensures r.Keys == params.Keys + defaults.Keys
    ensures forall k :: k in params ==> r[k] == params[k]
    ensures forall k :: k in defaults && k !in params ==> r[k] == defaults[k]
  {
    map k | k in params.Keys + defaults.Keys :: if k in params then params[k] else defaults[k]
  }

  /** Merging twice is merging once, so the defaults that stay behind in a
      shared `params={}` dictionary change nothing in later calls. */
  lemma WithDefaultsIdempotent(params: map<string, string>, defaults: map<string, string>)
    ensures WithDefaults(WithDefaults(params, defaults), defaults) == WithDefaults(params, defaults)
  {
    var once := WithDefaults(params, defaults);
    var twice := WithDefaults(once, defaults);
    assert twice.Keys == once.Keys;
    assert forall k :: k in twice ==> twice[k] == once[k];
  }

  /** A value set explicitly for the call (`sport`, `date`) wins over a
      default, even over one left behind by an earlier merge. */
  lemma CallParameterWins(params: map<string, string>, defaults: map<string, string>, key: string, value: string)
    ensures WithDefaults(WithDefaults(params, defaults)[key := value], defaults)
         == WithDefaults(params, defaults)[key := value]
  {
    var lhs := WithDefaults(WithDefaults(params, defaults)[key := value], defaults);
    var rhs := WithDefaults(params, defaults)[key := value];
    assert lhs.Keys == rhs.Keys;
    assert forall k :: k in lhs ==> lhs[k] == rhs[k];
  }

  /** A dictionary passed by reference to `query_from_tpl`. */
  class Params {
    var entries: map<string, string>

    constructor (entries: map<string, string>)
      ensures this.entries == entries
    {
      this.entries := entries;
    }
  }

  /** A POST of `BookCampusSportClass`, recorded as the network effect of a
      booking attempt. */
  datatype BookRequest = BookRequest(sport: string, classId: string)

  /** The state one cycle changes. */
  datatype State = State(
    booked: Ledger,
    datesParams: map<string, string>,
    sessionsParams: map<string, string>,
    requests: seq<BookRequest>)

  // ---------------------------------------------------------------------
  // What one cycle of iteration_check does, as a function of the state

  /** The loop over the selected `(start time, class id)` pairs of one date. */
  function BookAll(st: State, q: SportQuery, selected: Dict<string>, keys: seq<string>, remote: Remote): State
    requires forall k :: k in keys ==> k in selected.items
    decreases |keys|
  {
    if keys == [] then st
    else
      var next :=
        if q.autobooking then
          var id := selected.items[keys[0]];
          st.(booked := Record(st.booked, q.sport, BookingOf(remote, id)),
              requests := st.requests + [BookRequest(q.sport, id)])
        else st;
      BookAll(next, q, selected, keys[1..], remote)
  }

  /** One matched date: fetch its sessions, select, book. */
  function CheckDate(st: State, q: SportQuery, date: string, entry: string, defaults: map<string, string>, remote: Remote): (State, Option<Fault>)
  {
    var st1 := st.(sessionsParams := WithDefaults(st.sessionsParams["sport" := q.sport]["date" := date], defaults));
    var sessions := SessionsOf(remote, q.sport, date);
    MatchedSessions(sessions, entry);
    match SessionMatches(sessions, entry)
    case Err(e) => (st1, Some(e))
    case Ok(selected) => (BookAll(st1, q, selected, selected.keys, remote), None)
  }

  /** The loop over the matched dates of one sport, in dictionary order. */
  function CheckDates(st: State, q: SportQuery, dates: Dict<string>, keys: seq<string>, defaults: map<string, string>, remote: Remote): (State, Option<Fault>)
    requires forall k :: k in keys ==> k in dates.items
    decreases |keys|
  {
    if keys == [] then (st, None)
    else
      var (next, fault) := CheckDate(st, q, keys[0], dates.items[keys[0]], defaults, remote);
      if fault.Some? then (next, fault) else CheckDates(next, q, dates, keys[1..], defaults, remote)
  }

  /** One sport: fetch its dates, match them, check each. */
  function CheckSport(st: State, q: SportQuery, defaults: map<string, string>, remote: Remote): (State, Option<Fault>)
  {
    var st1 := st.(datesParams := WithDefaults(st.datesParams["sport" := q.sport], defaults));
    var dates := DatesOf(remote, q.sport);
    MatchedDates(dates, q.sessions);
    match DateMatches(dates, q.sessions)
    case Err(e) => (st1, Some(e))
    case Ok(matched) => CheckDates(st1, q, matched, matched.keys, defaults, remote)
  }

  /** The sports still to check; an exception ends the cycle with the state
      reached so far. */
  function CheckSports(st: State, qs: seq<SportQuery>, defaults: map<string, string>, remote: Remote): (State, Option<Fault>)
    decreases |qs|
  {
    if qs == [] then (st, None)
    else
      var (next, fault) := CheckSport(st, qs[0], defaults, remote);
      if fault.Some? then (next, fault) else CheckSports(next, qs[1..], defaults, remote)
  }

  // ---------------------------------------------------------------------
  // What a cycle promises about the ledger and the booking requests

  /** The sports whose matches are booked. */
  function AutobookSports(qs: seq<SportQuery>): set<string> {
    set i | 0 <= i < |qs| && qs[i].autobooking :: qs[i].sport
  }

  /** From `st1` to `st2`, the ledger grew only as `Extends` allows, and the
      booking requests only grew, all of them for sports in `sports`. */
  ghost predicate Progress(st1: State, st2: State, sports: set<string>, confirmed: set<string>) {
    && Extends(st1.booked, st2.booked, sports, confirmed)
    && st1.requests <= st2.requests
    && forall i :: |st1.requests| <= i < |st2.requests| ==> st2.requests[i].sport in sports
  }

  /** The first request a step adds is for one of the allowed sports. */
  lemma FirstNewRequest(st1: State, st2: State, sports: set<string>, confirmed: set<string>)
    requires Progress(st1, st2, sports, confirmed)
    requires |st1.requests| < |st2.requests|
    ensures st2.requests[|st1.requests|].sport in sports
  {
  }

  lemma ProgressTrans(st1: State, st2: State, st3: State, sports: set<string>, confirmed: set<string>)
    requires Progress(st1, st2, sports, confirmed) && Progress(st2, st3, sports, confirmed)
    ensures Progress(st1, st3, sports, confirmed)
  {
    ExtendsTrans(st1.booked, st2.booked, st3.booked, sports, confirmed);
    forall i | |st1.requests| <= i < |st3.requests|
      ensures st3.requests[i].sport in sports
    {
      if i < |st2.requests| {
        assert st3.requests[i] == st2.requests[i];
      }
    }
  }

  lemma ProgressRefl(st: State, sports: set<string>, confirmed: set<string>)
    ensures Progress(st, st, sports, confirmed)
  {
    ExtendsRefl(st.booked, sports, confirmed);
  }

  /** A class id the ledger records has been confirmed by the service. */
  lemma ConfirmedBookingIsConfirmedId(remote: Remote, id: string)
    requires Confirmed(BookingOf(remote, id))
    ensures BookingOf(remote, id).classId in ConfirmedIds(remote)
  {
    assert id in remote.bookings && Confirmed(remote.bookings[id]);
  }

  lemma {:induction false} BookAllProgress(st: State, q: SportQuery, selected: Dict<string>, keys: seq<string>, remote: Remote, sports: set<string>)
    requires forall k :: k in keys ==> k in selected.items
    requires q.autobooking ==> q.sport in sports
    ensures Progress(st, BookAll(st, q, selected, keys, remote), sports, ConfirmedIds(remote))
    ensures !q.autobooking ==> BookAll(st, q, selected, keys, remote) == st
    decreases |keys|
  {
    var confirmed := ConfirmedIds(remote);
    if keys == [] {
      ProgressRefl(st, sports, confirmed);
    } else {
      var next :=
        if q.autobooking then
          var id := selected.items[keys[0]];
          st.(booked := Record(st.booked, q.sport, BookingOf(remote, id)),
              requests := st.requests + [BookRequest(q.sport, id)])
        else st;
      if q.autobooking {
        var id := selected.items[keys[0]];
        if Confirmed(BookingOf(remote, id)) {
          ConfirmedBookingIsConfirmedId(remote, id);
        }
        RecordExtends(st.booked, q.sport, BookingOf(remote, id), sports, confirmed);
      } else {
        ProgressRefl(st, sports, confirmed);
      }
      assert Progress(st, next, sports, confirmed);
      BookAllProgress(next, q, selected, keys[1..], remote, sports);
      ProgressTrans(st, next, BookAll(st, q, selected, keys, remote), sports, confirmed);
    }
  }

  lemma CheckDateProgress(st: State, q: SportQuery, date: string, entry: string, defaults: map<string, string>, remote: Remote, sports: set<string>)
    requires q.autobooking ==> q.sport in sports
    ensures Progress(st, CheckDate(st, q, date, entry, defaults, remote).0, sports, ConfirmedIds(remote))
  {
    var st1 := st.(sessionsParams := WithDefaults(st.sessionsParams["sport" := q.sport]["date" := date], defaults));
    var sessions := SessionsOf(remote, q.sport, date);
    MatchedSessions(sessions, entry);
    ProgressRefl(st, sports, ConfirmedIds(remote));
    match SessionMatches(sessions, entry)
    case Err(e) =>
    case Ok(selected) =>
      BookAllProgress(st1, q, selected, selected.keys, remote, sports);
  }

  lemma {:induction false} CheckDatesProgress(st: State, q: SportQuery, dates: Dict<string>, keys: seq<string>, defaults: map<string, string>, remote: Remote, sports: set<string>)
    requires forall k :: k in keys ==> k in dates.items
    requires q.autobooking ==> q.sport in sports
    ensures Progress(st, CheckDates(st, q, dates, keys, defaults, remote).0, sports, ConfirmedIds(remote))
    decreases |keys|
  {
    if keys == [] {
      ProgressRefl(st, sports, ConfirmedIds(remote));
    } else {
      var (next, fault) := CheckDate(st, q, keys[0], dates.items[keys[0]], defaults, remote);
      CheckDateProgress(st, q, keys[0], dates.items[keys[0]], defaults, remote, sports);
      if fault.None? {
        CheckDatesProgress(next, q, dates, keys[1..], defaults, remote, sports);
        ProgressTrans(st, next, CheckDates(st, q, dates, keys, defaults, remote).0, sports, ConfirmedIds(remote));
      }
    }
  }

  lemma CheckSportProgress(st: State, q: SportQuery, defaults: map<string, string>, remote: Remote, sports: set<string>)
    requires q.autobooking ==> q.sport in sports
    ensures Progress(st, CheckSport(st, q, defaults, remote).0, sports, ConfirmedIds(remote))
  {
    var st1 := st.(datesParams := WithDefaults(st.datesParams["sport" := q.sport], defaults));
    var dates := DatesOf(remote, q.sport);
    MatchedDates(dates, q.sessions);
    ProgressRefl(st, sports, ConfirmedIds(remote));
    match DateMatches(dates, q.sessions)
    case Err(e) =>
    case Ok(matched) =>
      CheckDatesProgress(st1, q, matched, matched.keys, defaults, remote, sports);
      ProgressTrans(st, st1, CheckSport(st, q, defaults, remote).0, sports, ConfirmedIds(remote));
  }

  lemma {:induction false} CheckSportsProgress(st: State, qs: seq<SportQuery>, defaults: map<string, string>, remote: Remote, sports: set<string>)
    requires forall i :: 0 <= i < |qs| && qs[i].autobooking ==> qs[i].sport in sports
    ensures Progress(st, CheckSports(st, qs, defaults, remote).0, sports, ConfirmedIds(remote))
    decreases |qs|
  {
    if qs == [] {
      ProgressRefl(st, sports, ConfirmedIds(remote));
    } else {
      var (next, fault) := CheckSport(st, qs[0], defaults, remote);
      CheckSportProgress(st, qs[0], defaults, remote, sports);
      if fault.None? {
        assert forall i :: 0 <= i < |qs[1..]| ==> qs[1..][i] == qs[i + 1];
        CheckSportsProgress(next, qs[1..], defaults, remote, sports);
        ProgressTrans(st, next, CheckSports(st, qs, defaults, remote).0, sports, ConfirmedIds(remote));
      }
    }
  }

  /** Whatever the service answers, and whether or not the cycle ends in an
      exception: booking requests are sent only for sports with
      `autobooking`; the ledger entry of any other sport never changes; each
      sport's list only grows at the end; and every class id added to it is
      one the service confirmed as booked. */
  lemma CycleBooksOnlyAutobookSports(st: State, qs: seq<SportQuery>, defaults: map<string, string>, remote: Remote)
    ensures var after := CheckSports(st, qs, defaults, remote).0;
      && st.requests <= after.requests
      && (forall i :: |st.requests| <= i < |after.requests| ==> after.requests[i].sport in AutobookSports(qs))
      && (forall s :: s !in AutobookSports(qs) ==>
            (s in after.booked <==> s in st.booked) && (s in after.booked ==> after.booked[s] == st.booked[s]))
      && (forall s :: Entries(st.booked, s) <= Entries(after.booked, s))
      && (forall s, i :: |Entries(st.booked, s)| <= i < |Entries(after.booked, s)| ==>
            Entries(after.booked, s)[i] in ConfirmedIds(remote))
  {
    CheckSportsProgress(st, qs, defaults, remote, AutobookSports(qs));
  }

  /** Without `autobooking` anywhere, a cycle sends no booking request and
      leaves the ledger as it was. */
  lemma CycleWithoutAutobookingBooksNothing(st: State, qs: seq<SportQuery>, defaults: map<string, string>, remote: Remote)
    requires forall i :: 0 <= i < |qs| ==> !qs[i].autobooking
    ensures CheckSports(st, qs, defaults, remote).0.booked == st.booked
    ensures CheckSports(st, qs, defaults, remote).0.requests == st.requests
  {
    CheckSportsProgress(st, qs, defaults, remote, {});
    var after := CheckSports(st, qs, defaults, remote).0;
    assert after.booked.Keys == st.booked.Keys;
    if |after.requests| != |st.requests| {
      FirstNewRequest(st, after, {}, ConfirmedIds(remote));
      assert false;
    }
  }

  // ---------------------------------------------------------------------
  // Exactly what a cycle sends and records

  /** The booking requests for the selected `(start time, class id)` pairs
      listed in `keys`, in that order. */
  function PairRequests(sport: string, selected: Dict<string>, keys: seq<string>): (rs: seq<BookRequest>)
    requires forall k :: k in keys ==> k in selected.items
    ensures |rs| == |keys|
    ensures forall i :: 0 <= i < |keys| ==> rs[i] == BookRequest(sport, selected.items[keys[i]])
    decreases |keys|
  {
    if keys == [] then [] else [BookRequest(sport, selected.items[keys[0]])] + PairRequests(sport, selected, keys[1..])
  }

  /** The requests one matched date leads to: every selected pair, when the
      sport has `autobooking`. */
  function DateRequests(q: SportQuery, date: string, entry: string, remote: Remote): seq<BookRequest> {
    var sessions := SessionsOf(remote, q.sport, date);
    MatchedSessions(sessions, entry);
    if !q.autobooking then []
    else match SessionMatches(sessions, entry)
      case Err(_) => []
      case Ok(selected) => PairRequests(q.sport, selected, selected.keys)
  }

  /** The requests of the matched dates listed in `keys`, date after date. */
  function DatesRequests(q: SportQuery, dates: Dict<string>, keys: seq<string>, remote: Remote): seq<BookRequest>
    requires forall k :: k in keys ==> k in dates.items
    decreases |keys|
  {
    if keys == [] then []
    else DateRequests(q, keys[0], dates.items[keys[0]], remote) + DatesRequests(q, dates, keys[1..], remote)
  }

  /** The requests of one sport. */
  function SportRequests(q: SportQuery, remote: Remote): seq<BookRequest> {
    var dates := DatesOf(remote, q.sport);
    MatchedDates(dates, q.sessions);
    match DateMatches(dates, q.sessions)
    case Err(_) => []
    case Ok(matched) => DatesRequests(q, matched, matched.keys, remote)
  }

  /** The requests of a whole cycle, sport after sport. */
  function CycleRequests(qs: seq<SportQuery>, remote: Remote): seq<BookRequest>
    decreases |qs|
  {
    if qs == [] then [] else SportRequests(qs[0], remote) + CycleRequests(qs[1..], remote)
  }

  /** The class id the ledger records for `sport` after request `r`. */
  function ConfirmedClass(remote: Remote, sport: string, r: BookRequest): seq<string> {
    var answer := BookingOf(remote, r.classId);
    if r.sport == sport && Confirmed(answer) then [answer.classId] else []
  }

  /** The class ids the ledger records for `sport` after the requests `rs`. */
  function ConfirmedFor(remote: Remote, sport: string, rs: seq<BookRequest>): seq<string>
    decreases |rs|
  {
    if rs == [] then [] else ConfirmedClass(remote, sport, rs[0]) + ConfirmedFor(remote, sport, rs[1..])
  }

  lemma {:induction false} ConfirmedForConcat(remote: Remote, sport: string, a: seq<BookRequest>, b: seq<BookRequest>)
    ensures ConfirmedFor(remote, sport, a + b) == ConfirmedFor(remote, sport, a) + ConfirmedFor(remote, sport, b)
    decreases |a|
  {
    if a != [] {
      assert (a + b)[0] == a[0] && (a + b)[1..] == a[1..] + b;
      ConfirmedForConcat(remote, sport, a[1..], b);
    } else {
      assert a + b == b;
    }
  }

  /** From `st1` to `st2` requests were only added, and each sport's ledger
      list grew by exactly the confirmed answers to the added requests for
      that sport, in request order; a sport enters the ledger only with a
      first confirmed booking. */
  ghost predicate Accounts(st1: State, st2: State, remote: Remote) {
    && st1.requests <= st2.requests
    && forall s :: AccountsFor(st1, st2, remote, s)
  }

  /** The part of `Accounts` about one sport. */
  ghost predicate AccountsFor(st1: State, st2: State, remote: Remote, s: string)
    requires st1.requests <= st2.requests
  {
    var sent := st2.requests[|st1.requests|..];
    && Entries(st2.booked, s) == Entries(st1.booked, s) + ConfirmedFor(remote, s, sent)
    && (s in st2.booked <==> s in st1.booked || ConfirmedFor(remote, s, sent) != [])
  }

  lemma AccountsRefl(st: State, remote: Remote)
    ensures Accounts(st, st, remote)
  {
    assert st.requests[|st.requests|..] == [];
  }

  lemma AccountsTrans(st1: State, st2: State, st3: State, remote: Remote)
    requires Accounts(st1, st2, remote) && Accounts(st2, st3, remote)
    ensures Accounts(st1, st3, remote)
  {
    SliceConcat(st1.requests, st2.requests, st3.requests);
    forall s
      ensures AccountsFor(st1, st3, remote, s)
    {
      AccountsForTrans(st1, st2, st3, remote, s);
    }
  }

  lemma AccountsForTrans(st1: State, st2: State, st3: State, remote: Remote, s: string)
    requires st1.requests <= st2.requests <= st3.requests
    requires AccountsFor(st1, st2, remote, s) && AccountsFor(st2, st3, remote, s)
    ensures st1.requests <= st3.requests && AccountsFor(st1, st3, remote, s)
  {
    var n1, n2 := st2.requests[|st1.requests|..], st3.requests[|st2.requests|..];
    SliceConcat(st1.requests, st2.requests, st3.requests);
    ConfirmedForConcat(remote, s, n1, n2);
  }

  /** What `c` adds to `a` is what `b` adds, then what `c` adds to `b`. */
  lemma SliceConcat(a: seq<BookRequest>, b: seq<BookRequest>, c: seq<BookRequest>)
    requires a <= b <= c
    ensures a <= c && c[|a|..] == b[|a|..] + c[|b|..]
  {
  }

  /** From `st` to `after` the requests sent are a prefix of `expected`
      appended to those before, all of it when `complete`, and the ledger
      accounts for them. */
  ghost predicate Within(st: State, after: State, expected: seq<BookRequest>, complete: bool, remote: Remote) {
    && after.requests <= st.requests + expected
    && (complete ==> after.requests == st.requests + expected)
    && Accounts(st, after, remote)
  }

  /** A step followed by the steps after it, unless the step raised. */
  lemma WithinStep(st: State, next: State, after: State, here: seq<BookRequest>, later: seq<BookRequest>,
                   raised: bool, complete: bool, remote: Remote)
    requires Within(st, next, here, !raised, remote)
    requires raised ==> after == next && !complete
    requires !raised ==> Within(next, after, later, complete, remote)
    ensures Within(st, after, here + later, complete, remote)
  {
    if raised {
      assert (st.requests + here + later)[..|st.requests + here|] == st.requests + here;
      assert st.requests + here + later == st.requests + (here + later);
    } else {
      AccountsTrans(st, next, after, remote);
      assert next.requests + later == st.requests + (here + later);
    }
  }

  lemma WithinNothing(st: State, remote: Remote)
    ensures Within(st, st, [], true, remote)
  {
    AccountsRefl(st, remote);
    assert st.requests + [] == st.requests;
  }

  /** Changing only the params objects changes nothing `Within` is about. */
  lemma WithinSameStart(st: State, st1: State, after: State, expected: seq<BookRequest>, complete: bool, remote: Remote)
    requires st1.requests == st.requests && st1.booked == st.booked
    requires Within(st1, after, expected, complete, remote)
    ensures Within(st, after, expected, complete, remote)
  {
    forall s
      ensures AccountsFor(st, after, remote, s)
    {
      assert AccountsFor(st1, after, remote, s);
    }
  }

  /** One booking: the request is sent and its answer recorded. */
  lemma WithinOneBooking(st: State, sport: string, id: string, remote: Remote)
    ensures Within(st, st.(booked := Record(st.booked, sport, BookingOf(remote, id)),
                           requests := st.requests + [BookRequest(sport, id)]), [BookRequest(sport, id)], true, remote)
  {
    var r := BookRequest(sport, id);
    assert (st.requests + [r])[|st.requests|..] == [r];
    assert forall s :: ConfirmedFor(remote, s, [r]) == ConfirmedClass(remote, s, r);
  }

  /** One date's selection: with `autobooking`, the pairs' requests are
      appended in key order and their answers recorded; otherwise nothing
      changes. */
  lemma {:induction false} BookAllEffect(st: State, q: SportQuery, selected: Dict<string>, keys: seq<string>, remote: Remote)
    requires forall k :: k in keys ==> k in selected.items
    ensures Within(st, BookAll(st, q, selected, keys, remote),
                   if q.autobooking then PairRequests(q.sport, selected, keys) else [], true, remote)
    decreases |keys|
  {
    if keys == [] {
      WithinNothing(st, remote);
    } else if q.autobooking {
      var id := selected.items[keys[0]];
      var next := st.(booked := Record(st.booked, q.sport, BookingOf(remote, id)),
                      requests := st.requests + [BookRequest(q.sport, id)]);
      WithinOneBooking(st, q.sport, id, remote);
      BookAllEffect(next, q, selected, keys[1..], remote);
      assert BookAll(st, q, selected, keys, remote) == BookAll(next, q, selected, keys[1..], remote);
      WithinStep(st, next, BookAll(next, q, selected, keys[1..], remote), [BookRequest(q.sport, id)],
                 PairRequests(q.sport, selected, keys[1..]), false, true, remote);
    } else {
      BookAllEffect(st, q, selected, keys[1..], remote);
    }
  }

  lemma CheckDateEffect(st: State, q: SportQuery, date: string, entry: string, defaults: map<string, string>, remote: Remote)
    ensures var (after, fault) := CheckDate(st, q, date, entry, defaults, remote);
      && after.requests == st.requests + DateRequests(q, date, entry, remote)
      && Within(st, after, DateRequests(q, date, entry, remote), fault.None?, remote)
  {
    var sessions := SessionsOf(remote, q.sport, date);
    var st1 := st.(sessionsParams := WithDefaults(st.sessionsParams["sport" := q.sport]["date" := date], defaults));
    MatchedSessions(sessions, entry);
    match SessionMatches(sessions, entry)
    case Err(_) =>
      WithinNothing(st, remote);
    case Ok(selected) =>
      BookAllEffect(st1, q, selected, selected.keys, remote);
      WithinSameStart(st, st1, BookAll(st1, q, selected, selected.keys, remote),
                      DateRequests(q, date, entry, remote), true, remote);
      if !q.autobooking {
        assert st.requests + [] == st.requests;
      }
  }

  /** A sport's matched dates: their requests in date order, all of them
      unless an exception stops the loop, a prefix of them if it does. */
  lemma {:induction false} CheckDatesEffect(st: State, q: SportQuery, dates: Dict<string>, keys: seq<string>, defaults: map<string, string>, remote: Remote)
    requires forall k :: k in keys ==> k in dates.items
    ensures var (after, fault) := CheckDates(st, q, dates, keys, defaults, remote);
      Within(st, after, DatesRequests(q, dates, keys, remote), fault.None?, remote)
    decreases |keys|
  {
    if keys == [] {
      WithinNothing(st, remote);
    } else {
      var (next, fault) := CheckDate(st, q, keys[0], dates.items[keys[0]], defaults, remote);
      CheckDateEffect(st, q, keys[0], dates.items[keys[0]], defaults, remote);
      var (after, fault2) := CheckDates(st, q, dates, keys, defaults, remote);
      if fault.None? {
        CheckDatesEffect(next, q, dates, keys[1..], defaults, remote);
      }
      WithinStep(st, next, after, DateRequests(q, keys[0], dates.items[keys[0]], remote),
                 DatesRequests(q, dates, keys[1..], remote), fault.Some?, fault2.None?, remote);
    }
  }

  lemma CheckSportEffect(st: State, q: SportQuery, defaults: map<string, string>, remote: Remote)
    ensures var (after, fault) := CheckSport(st, q, defaults, remote);
      Within(st, after, SportRequests(q, remote), fault.None?, remote)
  {
    var dates := DatesOf(remote, q.sport);
    var st1 := st.(datesParams := WithDefaults(st.datesParams["sport" := q.sport], defaults));
    MatchedDates(dates, q.sessions);
    match DateMatches(dates, q.sessions)
    case Err(_) =>
      WithinNothing(st, remote);
    case Ok(matched) =>
      CheckDatesEffect(st1, q, matched, matched.keys, defaults, remote);
      var (after, fault) := CheckDates(st1, q, matched, matched.keys, defaults, remote);
      WithinSameStart(st, st1, after, SportRequests(q, remote), fault.None?, remote);
  }

  lemma {:induction false} CheckSportsEffect(st: State, qs: seq<SportQuery>, defaults: map<string, string>, remote: Remote)
    ensures var (after, fault) := CheckSports(st, qs, defaults, remote);
      Within(st, after, CycleRequests(qs, remote), fault.None?, remote)
    decreases |qs|
  {
    if qs == [] {
      WithinNothing(st, remote);
    } else {
      var (next, fault) := CheckSport(st, qs[0], defaults, remote);
      CheckSportEffect(st, qs[0], defaults, remote);
      var (after, fault2) := CheckSports(st, qs, defaults, remote);
      if fault.None? {
        CheckSportsEffect(next, qs[1..], defaults, remote);
      }
      WithinStep(st, next, after, SportRequests(qs[0], remote), CycleRequests(qs[1..], remote),
                 fault.Some?, fault2.None?, remote);
    }
  }

  /** `id` is the class id of a pair selected for `date`, a date the weekday
      matcher kept for `q`. */
  ghost predicate SelectedAt(q: SportQuery, remote: Remote, date: string, id: string) {
    var dm := DateMatches(DatesOf(remote, q.sport), q.sessions);
    && dm.Ok? && date in dm.value.items
    && var sm := SessionMatches(SessionsOf(remote, q.sport, date), dm.value.items[date]);
       sm.Ok? && id in sm.value.items.Values
  }

  lemma PairRequestsMembers(sport: string, selected: Dict<string>)
    requires selected.Valid()
    ensures forall r :: r in PairRequests(sport, selected, selected.keys) <==>
      r.sport == sport && r.classId in selected.items.Values
  {
    var rs := PairRequests(sport, selected, selected.keys);
    forall r: BookRequest | r.sport == sport && r.classId in selected.items.Values
      ensures r in rs
    {
      var k :| k in selected.items && selected.items[k] == r.classId;
      var i :| 0 <= i < |selected.keys| && selected.keys[i] == k;
      assert rs[i] == r;
    }
  }

  lemma DateRequestsMembers(q: SportQuery, date: string, entry: string, remote: Remote)
    ensures var sm := SessionMatches(SessionsOf(remote, q.sport, date), entry);
      forall r :: r in DateRequests(q, date, entry, remote) <==>
        q.autobooking && r.sport == q.sport && sm.Ok? && r.classId in sm.value.items.Values
  {
    var sm := SessionMatches(SessionsOf(remote, q.sport, date), entry);
    MatchedSessions(SessionsOf(remote, q.sport, date), entry);
    if sm.Ok? {
      PairRequestsMembers(q.sport, sm.value);
    }
  }

  lemma {:induction false} DatesRequestsMembers(q: SportQuery, dates: Dict<string>, keys: seq<string>, remote: Remote)
    requires forall k :: k in keys ==> k in dates.items
    ensures forall r :: r in DatesRequests(q, dates, keys, remote) <==>
      exists i :: 0 <= i < |keys| && r in DateRequests(q, keys[i], dates.items[keys[i]], remote)
    decreases |keys|
  {
    if keys != [] {
      DatesRequestsMembers(q, dates, keys[1..], remote);
      forall r | r in DatesRequests(q, dates, keys[1..], remote)
        ensures exists i :: 0 <= i < |keys| && r in DateRequests(q, keys[i], dates.items[keys[i]], remote)
      {
        var i :| 0 <= i < |keys[1..]| && r in DateRequests(q, keys[1..][i], dates.items[keys[1..][i]], remote);
        assert keys[i + 1] == keys[1..][i];
      }
      forall r, i | 0 < i < |keys| && r in DateRequests(q, keys[i], dates.items[keys[i]], remote)
        ensures r in DatesRequests(q, dates, keys[1..], remote)
      {
        assert keys[1..][i - 1] == keys[i];
      }
    }
  }

  lemma SportRequestsMembers(q: SportQuery, remote: Remote)
    ensures forall r :: r in SportRequests(q, remote) <==>
      q.autobooking && r.sport == q.sport && exists date :: SelectedAt(q, remote, date, r.classId)
  {
    var dates := DatesOf(remote, q.sport);
    MatchedDates(dates, q.sessions);
    var dm := DateMatches(dates, q.sessions);
    if dm.Ok? {
      var m := dm.value;
      DatesRequestsMembers(q, m, m.keys, remote);
      forall i | 0 <= i < |m.keys| {
        DateRequestsMembers(q, m.keys[i], m.items[m.keys[i]], remote);
      }
      forall r | r in SportRequests(q, remote)
        ensures exists date :: SelectedAt(q, remote, date, r.classId)
      {
        var i :| 0 <= i < |m.keys| && r in DateRequests(q, m.keys[i], m.items[m.keys[i]], remote);
        assert SelectedAt(q, remote, m.keys[i], r.classId);
      }
      forall r: BookRequest, date | q.autobooking && r.sport == q.sport && SelectedAt(q, remote, date, r.classId)
        ensures r in SportRequests(q, remote)
      {
        var i :| 0 <= i < |m.keys| && m.keys[i] == date;
        assert r in DateRequests(q, m.keys[i], m.items[m.keys[i]], remote);
      }
    }
  }

  lemma {:induction false} CycleRequestsMembers(qs: seq<SportQuery>, remote: Remote)
    ensures forall r :: r in CycleRequests(qs, remote) <==> exists j :: 0 <= j < |qs| && r in SportRequests(qs[j], remote)
    decreases |qs|
  {
    if qs != [] {
      CycleRequestsMembers(qs[1..], remote);
      forall r | r in CycleRequests(qs[1..], remote)
        ensures exists j :: 0 <= j < |qs| && r in SportRequests(qs[j], remote)
      {
        var j :| 0 <= j < |qs[1..]| && r in SportRequests(qs[1..][j], remote);
        assert qs[j + 1] == qs[1..][j];
      }
      forall r, j | 0 < j < |qs| && r in SportRequests(qs[j], remote)
        ensures r in CycleRequests(qs[1..], remote)
      {
        assert qs[1..][j - 1] == qs[j];
      }
    }
  }

  /** A request belongs to a cycle's requests exactly when its sport has
      `autobooking` and its class id is one the session matcher selected on
      a date that the weekday matcher kept for that sport. */
  lemma CycleRequestsAreSelectedPairs(qs: seq<SportQuery>, remote: Remote)
    ensures forall r :: r in CycleRequests(qs, remote) <==>
      exists j, date :: 0 <= j < |qs| && qs[j].autobooking && r.sport == qs[j].sport && SelectedAt(qs[j], remote, date, r.classId)
  {
    CycleRequestsMembers(qs, remote);
    forall j | 0 <= j < |qs| {
      SportRequestsMembers(qs[j], remote);
    }
  }

  /** What a selected pair is: the date is a remote date whose weekday has
      an entry in the schedule, and the class is that of an available session
      of that date at an hour the entry accepts. */
  lemma SelectedPairIsBookableSession(q: SportQuery, remote: Remote, date: string, id: string)
    requires SelectedAt(q, remote, date, id)
    ensures date in DatesOf(remote, q.sport) && ParseDate(date).Some?
    ensures var entry := DateMatches(DatesOf(remote, q.sport), q.sessions).value.items[date];
      && entry in q.sessions && DayPart(entry) == DayName(ParseDate(date).value) && '/' in entry
      && var sessions := SessionsOf(remote, q.sport, date);
         exists i :: 0 <= i < |sessions| && Eligible(sessions[i], HourList(entry).value) && sessions[i].classId == id
  {
    var dates := DatesOf(remote, q.sport);
    MatchedDateEntry(dates, q.sessions, date);
    var entry := DateMatches(dates, q.sessions).value.items[date];
    SelectedClassIsEligible(SessionsOf(remote, q.sport, date), entry, id);
  }

  /** What one cycle sends: the requests for the selected pairs of the
      `autobooking` sports, sport by sport, date by date, pair by pair in
      dictionary order. All of them are sent when no exception ends the
      cycle, and a prefix of them when one does. */
  lemma CycleSendsSelectedPairs(st: State, qs: seq<SportQuery>, defaults: map<string, string>, remote: Remote)
    ensures var (after, fault) := CheckSports(st, qs, defaults, remote);
      && st.requests <= after.requests <= st.requests + CycleRequests(qs, remote)
      && (fault.None? ==> after.requests == st.requests + CycleRequests(qs, remote))
  {
    CheckSportsEffect(st, qs, defaults, remote);
  }

  /** What one cycle records: each sport's ledger list grows by exactly the
      class ids the service confirmed for that sport's requests, in the
      order they were sent, and a sport gets an entry only with its first
      confirmed booking. */
  lemma CycleLedgerRecordsConfirmedAnswers(st: State, qs: seq<SportQuery>, defaults: map<string, string>, remote: Remote)
    ensures var after := CheckSports(st, qs, defaults, remote).0;
      && st.requests <= after.requests
      && var sent := after.requests[|st.requests|..];
         && (forall s :: Entries(after.booked, s) == Entries(st.booked, s) + ConfirmedFor(remote, s, sent))
         && (forall s :: s in after.booked <==> s in st.booked || ConfirmedFor(remote, s, sent) != [])
  {
    CheckSportsEffect(st, qs, defaults, remote);
    var after := CheckSports(st, qs, defaults, remote).0;
    var sent := after.requests[|st.requests|..];
    forall s
      ensures Entries(after.booked, s) == Entries(st.booked, s) + ConfirmedFor(remote, s, sent)
      ensures s in after.booked <==> s in st.booked || ConfirmedFor(remote, s, sent) != []
    {
      assert AccountsFor(st, after, remote, s);
    }
  }

  // ---------------------------------------------------------------------
  // The process

  class Checker {
    const config: Config
    /** The default `params={}` of `get_sessions_dates`, shared by all its calls. */
    const datesParams: Params
    /** The default `params={}` of `get_sessions_at_date`, shared by all its calls. */
    const sessionsParams: Params
    var booked: Ledger
    var interval: int
    /** The booking requests sent so far, in order. */
    ghost var requests: seq<BookRequest>

    ghost predicate Valid()
      reads this
    {
      datesParams != sessionsParams
    }

    ghost function Snapshot(): State
      reads this, datesParams, sessionsParams
    {
      State(booked, datesParams.entries, sessionsParams.entries, requests)
    }

    /** The start of `__main__`: empty ledger, `interval = MIN_INTERVAL`. */
    constructor (config: Config)
      ensures Valid() && this.config == config
      ensures booked == map[] && interval == MinInterval && requests == []
      ensures datesParams.entries == map[] && sessionsParams.entries == map[]
      ensures fresh(datesParams) && fresh(sessionsParams)
    {
      this.config := config;
      datesParams := new Params(map[]);
      sessionsParams := new Params(map[]);
      booked := map[];
      interval := MinInterval;
      requests := [];
    }

    /** `query_from_tpl(query_tpl, params, defaults)`, less the rendering: the
        merge of the configured defaults into `params`, in place. */
    method QueryFromTpl(params: Params, useDefaults: bool)
      modifies params
      ensures params.entries == if useDefaults then WithDefaults(old(params.entries), config.defaults) else old(params.entries)
    {
      if useDefaults {
        var todo := config.defaults.Keys;
        while todo != {}
          invariant todo <= config.defaults.Keys
          invariant params.entries.Keys == old(params.entries).Keys + (config.defaults.Keys - todo)
          invariant forall k :: k in old(params.entries) ==> params.entries[k] == old(params.entries)[k]
          invariant forall k :: k in config.defaults.Keys - todo && k !in old(params.entries) ==>
                      params.entries[k] == config.defaults[k]
          decreases todo
        {
          var p :| p in todo;
          if p !in params.entries {
            params.entries := params.entries[p := config.defaults[p]];
          }
          todo := todo - {p};
        }
        var merged := WithDefaults(old(params.entries), config.defaults);
        assert params.entries.Keys == merged.Keys;
        assert forall k :: k in merged ==> params.entries[k] == merged[k];
      }
    }

    /** `get_sessions_dates(sport)`. */
    method GetSessionsDates(sport: string, remote: Remote) returns (dates: seq<string>)
      modifies datesParams
      ensures datesParams.entries == WithDefaults(old(datesParams.entries)["sport" := sport], config.defaults)
      ensures dates == DatesOf(remote, sport)
    {
      datesParams.entries := datesParams.entries["sport" := sport];
      QueryFromTpl(datesParams, true);
      dates := DatesOf(remote, sport);
    }

    /** `get_sessions_at_date(sport, session_date)`. */
    method GetSessionsAtDate(sport: string, sessionDate: string, remote: Remote) returns (sessions: seq<Session>)
      modifies sessionsParams
      ensures sessionsParams.entries ==
        WithDefaults(old(sessionsParams.entries)["sport" := sport]["date" := sessionDate], config.defaults)
      ensures sessions == SessionsOf(remote, sport, sessionDate)
    {
      sessionsParams.entries := sessionsParams.entries["sport" := sport];
      sessionsParams.entries := sessionsParams.entries["date" := sessionDate];
      QueryFromTpl(sessionsParams, true);
      sessions := SessionsOf(remote, sport, sessionDate);
    }

    /** `book_session(session_id)`: a fresh `{'classId': ...}` dictionary,
        rendered without the defaults. */
    method BookSession(sessionId: string, remote: Remote) returns (response: BookResponse)
      ensures response == BookingOf(remote, sessionId)
    {
      var params := new Params(map["classId" := sessionId]);
      QueryFromTpl(params, false);
      assert params.entries == map["classId" := sessionId];
      response := BookingOf(remote, sessionId);
    }

    /** `validate_booked(response_booking, sport)`, with the failure path
        reporting the response it was given. */
    method ValidateBooked(responseBooking: BookResponse, sport: string) returns (outcome: BookingOutcome)
      modifies this`booked
      ensures booked == Record(old(booked), sport, responseBooking)
      ensures outcome == Classify(responseBooking)
    {
      if responseBooking.Response? && responseBooking.isBooked {
        booked := booked[sport := Entries(booked, sport) + [responseBooking.classId]];
        outcome := Booked(responseBooking.classId);
      } else {
        outcome := NotBooked(responseBooking);
      }
    }

    /** The innermost loop of `iteration_check`: book each selected class of
        one date, in dictionary order, when the sport has `autobooking`. */
    method BookSelected(sportQuery: SportQuery, sessionsMatches: Dict<string>, remote: Remote)
      requires sessionsMatches.Valid()
      modifies this`booked, this`requests
      ensures Snapshot() == BookAll(old(Snapshot()), sportQuery, sessionsMatches, sessionsMatches.keys, remote)
    {
      ghost var goal := BookAll(Snapshot(), sportQuery, sessionsMatches, sessionsMatches.keys, remote);
      for k := 0 to |sessionsMatches.keys|
        invariant BookAll(Snapshot(), sportQuery, sessionsMatches, sessionsMatches.keys[k..], remote) == goal
      {
        var sessionId := sessionsMatches.items[sessionsMatches.keys[k]];
        assert sessionsMatches.keys[k..][0] == sessionsMatches.keys[k] &&
               sessionsMatches.keys[k..][1..] == sessionsMatches.keys[k + 1..];
        if sportQuery.autobooking {
          requests := requests + [BookRequest(sportQuery.sport, sessionId)];
          var responseBooking := BookSession(sessionId, remote);
          var resultBooking := ValidateBooked(responseBooking, sportQuery.sport);
        }
      }
    }

    /** The body of the loop over matched dates in `iteration_check`. */
    method CheckMatchedDate(sportQuery: SportQuery, matchingDate: string, querySessions: string, remote: Remote)
      returns (fault: Option<Fault>)
      requires Valid()
      modifies this`booked, this`requests, sessionsParams
      ensures (Snapshot(), fault) == CheckDate(old(Snapshot()), sportQuery, matchingDate, querySessions, config.defaults, remote)
    {
      var sessionsAtDate := GetSessionsAtDate(sportQuery.sport, matchingDate, remote);
      var selected := MatchingSessionsAtDate(sessionsAtDate, querySessions);
      MatchedSessions(sessionsAtDate, querySessions);
      if selected.Err? {
        return Some(selected.error);
      }
      BookSelected(sportQuery, selected.value, remote);
      return None;
    }

    /** `iteration_check(sport_queries)`. An exception raised by a matcher
        ends it, with the state reached so far, and is returned. */
    method IterationCheck(sportQueries: seq<SportQuery>, remote: Remote) returns (fault: Option<Fault>)
      requires Valid()
      modifies this`booked, this`requests, datesParams, sessionsParams
      ensures (Snapshot(), fault) == CheckSports(old(Snapshot()), sportQueries, config.defaults, remote)
    {
      ghost var goal := CheckSports(Snapshot(), sportQueries, config.defaults, remote);
      for i := 0 to |sportQueries|
        invariant CheckSports(Snapshot(), sportQueries[i..], config.defaults, remote) == goal
      {
        var sportQuery := sportQueries[i];
        ghost var atSport := Snapshot();
        assert sportQueries[i..][0] == sportQuery && sportQueries[i..][1..] == sportQueries[i + 1..];
        var sessionsDates := GetSessionsDates(sportQuery.sport, remote);
        var matchedDates := MatchingDatesWeekday(sessionsDates, sportQuery.sessions);
        MatchedDates(sessionsDates, sportQuery.sessions);
        if matchedDates.Err? {
          return Some(matchedDates.error);
        }
        var matches := matchedDates.value;
        for j := 0 to |matches.keys|
          invariant CheckDates(Snapshot(), sportQuery, matches, matches.keys[j..], config.defaults, remote)
                 == CheckSport(atSport, sportQuery, config.defaults, remote)
        {
          var matchingDate := matches.keys[j];
          assert matches.keys[j..][0] == matchingDate && matches.keys[j..][1..] == matches.keys[j + 1..];
          var dateFault := CheckMatchedDate(sportQuery, matchingDate, matches.items[matchingDate], remote);
          if dateFault.Some? {
            return dateFault;
          }
        }
      }
      return None;
    }

    /** `process(given_interval)`: choose and take the pause, then run one
        cycle over the configured sports. */
    method Process(givenInterval: Option<int>, minute: int, second: int, draw: nat, remote: Remote)
      returns (sleep: int, fault: Option<Fault>)
      requires Valid()
      requires 0 <= minute < 60 && 0 <= second < 60
      modifies this`booked, this`requests, this`interval, datesParams, sessionsParams
      ensures var d := NextDelay(config.maxInterval, minute, second, givenInterval, draw);
        sleep == d.sleep && interval == (if d.interval.Some? then d.interval.value else old(interval))
      ensures (Snapshot(), fault) == CheckSports(old(Snapshot()), config.queries, config.defaults, remote)
    {
      var maxInterval := EffectiveMaxInterval(config.maxInterval);
      var (waitNextHour, toWait) := CloseToNewHour(minute, second, maxInterval);
      if waitNextHour {
        sleep := toWait + BoundaryMargin;
      } else {
        interval := if IsGiven(givenInterval) then givenInterval.value else RandInt(MinInterval, maxInterval, draw);
        sleep := interval;
      }
      fault := IterationCheck(config.queries, remote);
    }
  }
}

/** The two matchers of the checker. `matching_dates_weekday` keeps the remote
    dates whose weekday has an entry in a sport's schedule;
    `matching_sessions_at_date` keeps, for one such date, the bookable
    sessions at the entry's hours. A schedule entry is a string
    `"Monday/18:00|19:00"`: a weekday name, a `/`, and `|`-separated start
    times, `*` standing for any start time. */
module Matcher {
  import opened Wrappers
  import opened Faults
  import opened Text
  import opened Dicts
  import opened Calendar

  /** One element of `getCampusSportClasses`. */
  datatype Session = Session(
    classId: string,
    startTime: string,
    isBooked: bool,
    status: string,
    participantsCount: int,
    maxParticipants: int)

  /** Not booked by us, active, and not full. A session is "full" only when
      its count equals the maximum, as the source compares them. */
  predicate Available(s: Session) {
    !s.isBooked && s.status == "active" && s.participantsCount != s.maxParticipants
  }

  /** `entry.split('/')[0]`: the weekday name of a schedule entry, the text
      before its first `/` (all of it when it has none). */
  function DayPart(entry: string): (name: string)
    ensures name <= entry && '/' !in name
    ensures |name| == |entry| || entry[|name|] == '/'
  {
    SplitHeadBeforeFirstSep(entry, '/');
    Split(entry, '/')[0]
  }

  /** `entry.split('/')[1].split('|')`, or nothing when the entry has no `/`
      (the subscript raises `IndexError`). */
  function HourList(entry: string): (r: Option<seq<string>>)
    ensures r.None? <==> '/' !in entry
  {
    JoinSplit(entry, '/');
    var parts := Split(entry, '/');
    if |parts| >= 2 then Some(Split(parts[1], '|'))
    else
      SplitWithoutSepInverse(entry, '/');
      None
  }

  /** `is_valid_hour`. */
  predicate AcceptsHour(hours: seq<string>, startTime: string) {
    "*" in hours || startTime in hours
  }

  // ---------------------------------------------------------------------
  // matching_dates_weekday

  /** The last schedule entry whose day part is `name`. */
  function LastMatch(name: string, schedule: seq<string>): Option<string>
  {
    if schedule == [] then None
    else if DayPart(schedule[|schedule| - 1]) == name then Some(schedule[|schedule| - 1])
    else LastMatch(name, schedule[..|schedule| - 1])
  }

  /** The schedule entry a remote date is matched to, if any. */
  function EntryFor(date: string, schedule: seq<string>): Option<string> {
    match ParseDate(date)
    case None => None
    case Some(d) => LastMatch(DayName(d), schedule)
  }

  function PutMatch(acc: Dict<string>, key: string, m: Option<string>): Dict<string> {
    match m
    case None => acc
    case Some(entry) => acc.Put(key, entry)
  }

  /** The dates still to scan folded into `acc`, as the loops of
      `matching_dates_weekday` do; the first unparsable date raises, but only
      when the schedule is not empty, since the weekday is computed inside the
      loop over the schedule. */
  function MatchDatesFrom(acc: Dict<string>, dates: seq<string>, schedule: seq<string>): Result<Dict<string>, Fault>
    decreases |dates|
  {
    if dates == [] then Ok(acc)
    else if schedule == [] then MatchDatesFrom(acc, dates[1..], schedule)
    else match ParseDate(dates[0])
      case None => Err(InvalidDate(dates[0]))
      case Some(d) => MatchDatesFrom(PutMatch(acc, dates[0], LastMatch(DayName(d), schedule)), dates[1..], schedule)
  }

  function DateMatches(dates: seq<string>, schedule: seq<string>): Result<Dict<string>, Fault> {
    MatchDatesFrom(Empty(), dates, schedule)
  }

  /** `matching_dates_weekday(availables, query_sessions)`. */
  method MatchingDatesWeekday(availables: seq<string>, querySessions: seq<string>) returns (r: Result<Dict<string>, Fault>)
    ensures r == DateMatches(availables, querySessions)
  {
    var matches := Empty();
    for i := 0 to |availables|
      invariant MatchDatesFrom(matches, availables[i..], querySessions) == DateMatches(availables, querySessions)
    {
      var avDate := availables[i];
      ghost var before := matches;
      assert availables[i..][0] == avDate && availables[i..][1..] == availables[i + 1..];
      for j := 0 to |querySessions|
        invariant j == 0 ==> matches == before
        invariant j > 0 ==> ParseDate(avDate).Some?
        invariant j > 0 ==> matches == PutMatch(before, avDate, LastMatch(DayName(ParseDate(avDate).value), querySessions[..j]))
      {
        var session := querySessions[j];
        var weekday := DateToWeekday(avDate);
        if weekday.Err? {
          return Err(weekday.error);
        }
        var name := DayName(ParseDate(avDate).value);
        assert querySessions[..j + 1][..j] == querySessions[..j];
        if DayPart(session) == weekday.value {
          if j > 0 {
            match LastMatch(name, querySessions[..j])
            case None =>
            case Some(x) => PutPut(before, avDate, x, session);
          }
          matches := matches.Put(avDate, session);
        }
      }
      assert querySessions[..|querySessions|] == querySessions;
    }
    return Ok(matches);
  }

  /** `LastMatch` finds the last entry for the weekday, and nothing exactly
      when no entry names it. */
  lemma {:induction false} LastMatchIsLastEntry(name: string, schedule: seq<string>)
    ensures LastMatch(name, schedule).None? <==> forall j :: 0 <= j < |schedule| ==> DayPart(schedule[j]) != name
    ensures LastMatch(name, schedule).Some? ==>
      exists j :: 0 <= j < |schedule| && schedule[j] == LastMatch(name, schedule).value && DayPart(schedule[j]) == name &&
        forall k :: j < k < |schedule| ==> DayPart(schedule[k]) != name
  {
    if schedule != [] {
      var n := |schedule| - 1;
      var prefix := schedule[..n];
      LastMatchIsLastEntry(name, prefix);
      if DayPart(schedule[n]) != name {
        assert forall j :: 0 <= j < n ==> schedule[j] == prefix[j];
        if LastMatch(name, prefix).Some? {
          var j :| 0 <= j < |prefix| && prefix[j] == LastMatch(name, prefix).value && DayPart(prefix[j]) == name &&
            forall k :: j < k < |prefix| ==> DayPart(prefix[k]) != name;
          assert schedule[j] == prefix[j];
        }
      }
    }
  }

  /** The first unparsable remote date makes the whole match raise, when the
      schedule is not empty; nothing else raises. */
  lemma {:induction false} MatchDatesFromError(acc: Dict<string>, dates: seq<string>, schedule: seq<string>)
    ensures var r := MatchDatesFrom(acc, dates, schedule);
      r.Err? <==> schedule != [] && exists i :: 0 <= i < |dates| && ParseDate(dates[i]).None?
    ensures var r := MatchDatesFrom(acc, dates, schedule);
      r.Err? ==> exists i :: (0 <= i < |dates| && r.error == InvalidDate(dates[i]) && ParseDate(dates[i]).None? &&
                              forall j :: 0 <= j < i ==> ParseDate(dates[j]).Some?)
    decreases |dates|
  {
    if dates != [] {
      assert forall i :: 1 <= i < |dates| ==> dates[i] == dates[1..][i - 1];
      if schedule == [] {
        MatchDatesFromError(acc, dates[1..], schedule);
      } else if ParseDate(dates[0]).Some? {
        var d := ParseDate(dates[0]).value;
        var next := PutMatch(acc, dates[0], LastMatch(DayName(d), schedule));
        MatchDatesFromError(next, dates[1..], schedule);
        var r := MatchDatesFrom(next, dates[1..], schedule);
        if r.Err? {
          var i :| 0 <= i < |dates[1..]| && r.error == InvalidDate(dates[1..][i]) && ParseDate(dates[1..][i]).None? &&
            forall j :: 0 <= j < i ==> ParseDate(dates[1..][j]).Some?;
          assert dates[i + 1] == dates[1..][i];
          assert forall j :: 1 <= j < i + 1 ==> ParseDate(dates[j]).Some?;
        }
      }
    }
  }

  /** What the date matcher adds to `acc`: each scanned date that has an entry
      in the schedule, mapped to that entry; nothing else changes. */
  lemma {:induction false} MatchDatesFromContent(acc: Dict<string>, dates: seq<string>, schedule: seq<string>)
    requires acc.Valid()
    ensures var r := MatchDatesFrom(acc, dates, schedule);
      r.Ok? ==>
        && r.value.Valid()
        && (forall k :: k in r.value.items <==> k in acc.items || (k in dates && EntryFor(k, schedule).Some?))
        && (forall k :: k in dates && EntryFor(k, schedule).Some? ==> r.value.items[k] == EntryFor(k, schedule).value)
        && (forall k :: k !in dates && k in acc.items ==> r.value.items[k] == acc.items[k])
    decreases |dates|
  {
    if dates != [] {
      var rest := dates[1..];
      assert forall k :: k in dates <==> k == dates[0] || k in rest;
      if schedule == [] {
        assert EntryFor(dates[0], schedule).None?;
        MatchDatesFromContent(acc, rest, schedule);
      } else if ParseDate(dates[0]).Some? {
        var d := ParseDate(dates[0]).value;
        var next := PutMatch(acc, dates[0], LastMatch(DayName(d), schedule));
        assert next.Valid();
        MatchDatesFromContent(next, rest, schedule);
      }
    }
  }

  /** `matching_dates_weekday`'s keys are exactly the remote dates for whose
      weekday some schedule entry has that day part, and each is mapped to
      the last such entry in schedule order. */
  lemma MatchedDates(dates: seq<string>, schedule: seq<string>)
    ensures var r := DateMatches(dates, schedule);
      r.Ok? ==>
        && r.value.Valid()
        && (forall k :: k in r.value.items <==>
              k in dates && ParseDate(k).Some? &&
              exists j :: 0 <= j < |schedule| && DayPart(schedule[j]) == DayName(ParseDate(k).value))
        && (forall k :: k in r.value.items ==>
              exists j :: 0 <= j < |schedule| && r.value.items[k] == schedule[j] &&
                DayPart(schedule[j]) == DayName(ParseDate(k).value) &&
                forall l :: j < l < |schedule| ==> DayPart(schedule[l]) != DayName(ParseDate(k).value))
  {
    MatchDatesFromContent(Empty(), dates, schedule);
    forall k | ParseDate(k).Some? {
      LastMatchIsLastEntry(DayName(ParseDate(k).value), schedule);
    }
  }

  /** `i` is the first position of `d` in `dates`. */
  predicate FirstAt(dates: seq<string>, d: string, i: int) {
    0 <= i < |dates| && dates[i] == d && forall j :: 0 <= j < i ==> dates[j] != d
  }

  lemma FirstAtShift(dates: seq<string>, d: string, i: int)
    requires FirstAt(dates, d, i) && dates[0] != d
    ensures i > 0 && FirstAt(dates[1..], d, i - 1)
  {
  }

  /** With an empty schedule nothing is matched. */
  lemma {:induction false} MatchDatesFromNoSchedule(acc: Dict<string>, dates: seq<string>)
    ensures MatchDatesFrom(acc, dates, []) == Ok(acc)
    decreases |dates|
  {
    if dates != [] {
      MatchDatesFromNoSchedule(acc, dates[1..]);
    }
  }

  /** Keys past a valid prefix dictionary's keys are not among its keys. */
  lemma KeysPastPrefix(prefix: Dict<string>, d: Dict<string>)
    requires prefix.Valid() && d.Valid() && prefix.keys <= d.keys
    ensures forall a :: |prefix.keys| <= a < |d.keys| ==> d.keys[a] !in prefix.items
  {
  }

  /** One scanned date: if it was appended it comes first, and every later
      key first occurs further on. */
  lemma DatesOrderStep(dates: seq<string>, accKeys: seq<string>, nextKeys: seq<string>, keys: seq<string>)
    requires |dates| > 0
    requires accKeys <= nextKeys <= keys
    requires nextKeys == accKeys || nextKeys == accKeys + [dates[0]]
    requires forall a :: |nextKeys| <= a < |keys| ==> keys[a] != dates[0]
    requires forall a, b, i, j ::
      (|nextKeys| <= a < b < |keys| && FirstAt(dates[1..], keys[a], i) && FirstAt(dates[1..], keys[b], j)) ==> i < j
    ensures forall a, b, i, j ::
      (|accKeys| <= a < b < |keys| && FirstAt(dates, keys[a], i) && FirstAt(dates, keys[b], j)) ==> i < j
  {
    forall a, b, i, j | |accKeys| <= a < b < |keys| && FirstAt(dates, keys[a], i) && FirstAt(dates, keys[b], j)
      ensures i < j
    {
      if a < |nextKeys| {
        assert keys[a] == nextKeys[a] == dates[0];
        FirstAtShift(dates, keys[b], j);
      } else {
        FirstAtShift(dates, keys[a], i);
        FirstAtShift(dates, keys[b], j);
      }
    }
  }

  /** The dates the matcher adds come after `acc`'s keys, in the order of
      their first occurrence among the scanned dates. */
  lemma {:induction false} MatchDatesFromOrder(acc: Dict<string>, dates: seq<string>, schedule: seq<string>)
    requires acc.Valid()
    ensures var r := MatchDatesFrom(acc, dates, schedule);
      r.Ok? ==>
        && acc.keys <= r.value.keys
        && forall a, b, i, j ::
             (|acc.keys| <= a < b < |r.value.keys| &&
              FirstAt(dates, r.value.keys[a], i) && FirstAt(dates, r.value.keys[b], j)) ==> i < j
    decreases |dates|
  {
    if dates == [] {
    } else if schedule == [] {
      MatchDatesFromNoSchedule(acc, dates);
    } else if ParseDate(dates[0]).Some? {
      var d0, rest := dates[0], dates[1..];
      var m := LastMatch(DayName(ParseDate(d0).value), schedule);
      var next := PutMatch(acc, d0, m);
      assert next.Valid();
      MatchDatesFromOrder(next, rest, schedule);
      MatchDatesFromContent(next, rest, schedule);
      var r := MatchDatesFrom(next, rest, schedule);
      if r.Ok? {
        KeysPastPrefix(next, r.value);
        assert EntryFor(d0, schedule) == m;
        assert forall a :: |next.keys| <= a < |r.value.keys| ==> r.value.keys[a] != d0;
        DatesOrderStep(dates, acc.keys, next.keys, r.value.keys);
      }
    }
  }

  /** `matching_dates_weekday`'s keys are the matched dates in the order of
      their first occurrence among the remote dates. */
  lemma MatchedDatesOrder(dates: seq<string>, schedule: seq<string>)
    ensures var r := DateMatches(dates, schedule);
      r.Ok? ==>
        forall a, b, i, j ::
          (0 <= a < b < |r.value.keys| &&
           FirstAt(dates, r.value.keys[a], i) && FirstAt(dates, r.value.keys[b], j)) ==> i < j
  {
    MatchDatesFromOrder(Empty(), dates, schedule);
  }

  // ---------------------------------------------------------------------
  // matching_sessions_at_date

  predicate Eligible(s: Session, hours: seq<string>) {
    Available(s) && AcceptsHour(hours, s.startTime)
  }

  /** One step of the loop of `matching_sessions_at_date`. */
  function SelectStep(acc: Dict<string>, s: Session, hours: seq<string>): Dict<string> {
    if !Available(s) || s.startTime in acc.items then acc
    else if AcceptsHour(hours, s.startTime) then acc.Put(s.startTime, s.classId)
    else acc
  }

  /** The sessions still to scan folded into `acc`. */
  function SelectFrom(acc: Dict<string>, sessions: seq<Session>, hours: seq<string>): Dict<string>
    decreases |sessions|
  {
    if sessions == [] then acc else SelectFrom(SelectStep(acc, sessions[0], hours), sessions[1..], hours)
  }

  /** `matching_sessions_at_date(availables, query_sessions)` as a value. */
  function SessionMatches(sessions: seq<Session>, entry: string): Result<Dict<string>, Fault> {
    match HourList(entry)
    case None => Err(MissingHourList(entry))
    case Some(hours) => Ok(SelectFrom(Empty(), sessions, hours))
  }

  /** `matching_sessions_at_date(availables, query_sessions)`. */
  method MatchingSessionsAtDate(availables: seq<Session>, querySessions: string) returns (r: Result<Dict<string>, Fault>)
    ensures r == SessionMatches(availables, querySessions)
  {
    var parts := Split(querySessions, '/');
    if |parts| < 2 {
      return Err(MissingHourList(querySessions));
    }
    var validHours := Split(parts[1], '|');
    var matches := Empty();
    for i := 0 to |availables|
      invariant SelectFrom(matches, availables[i..], validHours) == SelectFrom(Empty(), availables, validHours)
    {
      var avSession := availables[i];
      assert availables[i..][0] == avSession && availables[i..][1..] == availables[i + 1..];
      var startTime := avSession.startTime;
      if avSession.isBooked || avSession.status != "active" ||
         avSession.participantsCount == avSession.maxParticipants ||
         startTime in matches.items {
        continue;
      }
      if "*" in validHours || startTime in validHours {
        matches := matches.Put(startTime, avSession.classId);
      }
    }
    return Ok(matches);
  }

  /** Scanning `a + b` is scanning `a`, then `b`. */
  lemma {:induction false} SelectFromConcat(acc: Dict<string>, a: seq<Session>, b: seq<Session>, hours: seq<string>)
    ensures SelectFrom(acc, a + b, hours) == SelectFrom(SelectFrom(acc, a, hours), b, hours)
    decreases |a|
  {
    if a != [] {
      assert (a + b)[0] == a[0] && (a + b)[1..] == a[1..] + b;
      SelectFromConcat(SelectStep(acc, a[0], hours), a[1..], b, hours);
    } else {
      assert a + b == b;
    }
  }

  /** A booked, inactive or full session contributes nothing, whatever its
      start time: the result is the same without it. */
  lemma UnavailableSessionIgnored(acc: Dict<string>, sessions: seq<Session>, i: int, hours: seq<string>)
    requires 0 <= i < |sessions| && !Available(sessions[i])
    ensures SelectFrom(acc, sessions[..i] + sessions[i + 1..], hours) == SelectFrom(acc, sessions, hours)
  {
    SelectFromConcat(acc, sessions[..i], sessions[i + 1..], hours);
    assert sessions == sessions[..i] + sessions[i..];
    SelectFromConcat(acc, sessions[..i], sessions[i..], hours);
    assert sessions[i..][0] == sessions[i] && sessions[i..][1..] == sessions[i + 1..];
  }

  /** The first session, in input order, that is eligible and starts at `t`. */
  predicate FirstEligibleAt(sessions: seq<Session>, hours: seq<string>, t: string, i: int) {
    && 0 <= i < |sessions|
    && Eligible(sessions[i], hours) && sessions[i].startTime == t
    && forall j :: 0 <= j < i ==> !(Eligible(sessions[j], hours) && sessions[j].startTime == t)
  }

  /** The session matcher keeps `acc` as it is and adds each start time of
      an eligible session. */
  lemma {:induction false} SelectFromKeys(acc: Dict<string>, sessions: seq<Session>, hours: seq<string>)
    requires acc.Valid()
    ensures var r := SelectFrom(acc, sessions, hours);
      && r.Valid()
      && (forall t :: t in r.items <==>
            (t in acc.items || exists i :: 0 <= i < |sessions| && Eligible(sessions[i], hours) && sessions[i].startTime == t))
      && (forall t :: t in acc.items ==> r.items[t] == acc.items[t])
    decreases |sessions|
  {
    if sessions != [] {
      var s, rest := sessions[0], sessions[1..];
      var next := SelectStep(acc, s, hours);
      assert next.Valid();
      SelectFromKeys(next, rest, hours);
      var r := SelectFrom(next, rest, hours);
      forall t | t in r.items
        ensures t in acc.items ||
          exists i :: 0 <= i < |sessions| && Eligible(sessions[i], hours) && sessions[i].startTime == t
      {
        if t !in acc.items && t !in next.items {
          var i :| 0 <= i < |rest| && Eligible(rest[i], hours) && rest[i].startTime == t;
          assert sessions[i + 1] == rest[i];
        }
      }
      forall t | exists i :: 0 <= i < |sessions| && Eligible(sessions[i], hours) && sessions[i].startTime == t
        ensures t in r.items
      {
        var i :| 0 <= i < |sessions| && Eligible(sessions[i], hours) && sessions[i].startTime == t;
        if i > 0 {
          assert rest[i - 1] == sessions[i];
        }
      }
    }
  }

  /** Each key the session matcher adds holds the class id of the first
      eligible session at that start time. */
  lemma {:induction false} SelectFromFirstWins(acc: Dict<string>, sessions: seq<Session>, hours: seq<string>)
    requires acc.Valid()
    ensures var r := SelectFrom(acc, sessions, hours);
      forall t :: t in r.items && t !in acc.items ==>
        exists i :: FirstEligibleAt(sessions, hours, t, i) && r.items[t] == sessions[i].classId
    decreases |sessions|
  {
    if sessions != [] {
      var s, rest := sessions[0], sessions[1..];
      var next := SelectStep(acc, s, hours);
      assert next.Valid();
      SelectFromFirstWins(next, rest, hours);
      SelectFromKeys(next, rest, hours);
      var r := SelectFrom(next, rest, hours);
      forall t | t in r.items && t !in acc.items
        ensures exists i :: FirstEligibleAt(sessions, hours, t, i) && r.items[t] == sessions[i].classId
      {
        if t in next.items {
          assert FirstEligibleAt(sessions, hours, t, 0);
        } else {
          var i :| FirstEligibleAt(rest, hours, t, i) && r.items[t] == rest[i].classId;
          assert forall j :: 1 <= j <= i ==> sessions[j] == rest[j - 1];
          assert FirstEligibleAt(sessions, hours, t, i + 1);
        }
      }
    }
  }

  lemma FirstEligibleShift(sessions: seq<Session>, hours: seq<string>, t: string, i: int)
    requires FirstEligibleAt(sessions, hours, t, i)
    requires !(Eligible(sessions[0], hours) && sessions[0].startTime == t)
    ensures i > 0 && FirstEligibleAt(sessions[1..], hours, t, i - 1)
  {
  }

  /** One scanned session: if its start time was appended it comes first,
      and every later key's first eligible session lies further on. */
  lemma SessionsOrderStep(sessions: seq<Session>, hours: seq<string>, accKeys: seq<string>, nextKeys: seq<string>, keys: seq<string>)
    requires |sessions| > 0
    requires accKeys <= nextKeys <= keys
    requires nextKeys == accKeys ||
      (nextKeys == accKeys + [sessions[0].startTime] && Eligible(sessions[0], hours))
    requires forall a :: |nextKeys| <= a < |keys| ==> !(Eligible(sessions[0], hours) && sessions[0].startTime == keys[a])
    requires forall a, b, i, j ::
      (|nextKeys| <= a < b < |keys| &&
       FirstEligibleAt(sessions[1..], hours, keys[a], i) && FirstEligibleAt(sessions[1..], hours, keys[b], j)) ==> i < j
    ensures forall a, b, i, j ::
      (|accKeys| <= a < b < |keys| &&
       FirstEligibleAt(sessions, hours, keys[a], i) && FirstEligibleAt(sessions, hours, keys[b], j)) ==> i < j
  {
    forall a, b, i, j | |accKeys| <= a < b < |keys| &&
        FirstEligibleAt(sessions, hours, keys[a], i) && FirstEligibleAt(sessions, hours, keys[b], j)
      ensures i < j
    {
      if a < |nextKeys| {
        assert keys[a] == nextKeys[a] == sessions[0].startTime;
        FirstEligibleShift(sessions, hours, keys[b], j);
      } else {
        FirstEligibleShift(sessions, hours, keys[a], i);
        FirstEligibleShift(sessions, hours, keys[b], j);
      }
    }
  }

  /** The start times the session matcher adds come after `acc`'s keys, in
      the order of their first eligible sessions. */
  lemma {:induction false} SelectFromOrder(acc: Dict<string>, sessions: seq<Session>, hours: seq<string>)
    requires acc.Valid()
    ensures var r := SelectFrom(acc, sessions, hours);
      && acc.keys <= r.keys
      && forall a, b, i, j ::
           (|acc.keys| <= a < b < |r.keys| &&
            FirstEligibleAt(sessions, hours, r.keys[a], i) && FirstEligibleAt(sessions, hours, r.keys[b], j)) ==> i < j
    decreases |sessions|
  {
    if sessions != [] {
      var s, rest := sessions[0], sessions[1..];
      var next := SelectStep(acc, s, hours);
      assert next.Valid();
      assert Eligible(s, hours) ==> s.startTime in next.items;
      SelectFromOrder(next, rest, hours);
      SelectFromKeys(next, rest, hours);
      var r := SelectFrom(next, rest, hours);
      KeysPastPrefix(next, r);
      SessionsOrderStep(sessions, hours, acc.keys, next.keys, r.keys);
    }
  }

  /** `matching_sessions_at_date`'s keys are in the order of the first
      eligible session of each start time. */
  lemma MatchedSessionsOrder(sessions: seq<Session>, entry: string)
    ensures var r := SessionMatches(sessions, entry);
      r.Ok? ==>
        var hours := HourList(entry).value;
        forall a, b, i, j ::
          (0 <= a < b < |r.value.keys| &&
           FirstEligibleAt(sessions, hours, r.value.keys[a], i) && FirstEligibleAt(sessions, hours, r.value.keys[b], j)) ==> i < j
  {
    if HourList(entry).Some? {
      SelectFromOrder(Empty(), sessions, HourList(entry).value);
    }
  }

  /** `matching_sessions_at_date` raises exactly for an entry without `/`;
      otherwise its keys are the start times of the available sessions that
      the entry's hour list accepts (any start time when it holds `*`), each
      mapped to the class id of the first such session in input order. */
  lemma MatchedSessions(sessions: seq<Session>, entry: string)
    ensures SessionMatches(sessions, entry).Err? <==> '/' !in entry
    ensures var r := SessionMatches(sessions, entry);
      r.Ok? ==>
        var hours := HourList(entry).value;
        && r.value.Valid()
        && (forall t :: t in r.value.items <==>
              exists i :: 0 <= i < |sessions| && Available(sessions[i]) && sessions[i].startTime == t &&
                ("*" in hours || t in hours))
        && (forall t :: t in r.value.items ==>
              exists i :: FirstEligibleAt(sessions, hours, t, i) && r.value.items[t] == sessions[i].classId)
  {
    if HourList(entry).Some? {
      SelectFromKeys(Empty(), sessions, HourList(entry).value);
      SelectFromFirstWins(Empty(), sessions, HourList(entry).value);
    }
  }

  /** A date the weekday matcher kept is a remote date that parses, and its
      entry is a schedule entry for its weekday. */
  lemma MatchedDateEntry(dates: seq<string>, schedule: seq<string>, date: string)
    requires DateMatches(dates, schedule).Ok? && date in DateMatches(dates, schedule).value.items
    ensures date in dates && ParseDate(date).Some?
    ensures var entry := DateMatches(dates, schedule).value.items[date];
      entry in schedule && DayPart(entry) == DayName(ParseDate(date).value)
  {
    MatchedDates(dates, schedule);
  }

  /** A class id the session matcher selected is that of an available
      session at an hour the entry accepts. */
  lemma SelectedClassIsEligible(sessions: seq<Session>, entry: string, id: string)
    requires SessionMatches(sessions, entry).Ok? && id in SessionMatches(sessions, entry).value.items.Values
    ensures '/' in entry
    ensures exists i :: 0 <= i < |sessions| && Eligible(sessions[i], HourList(entry).value) && sessions[i].classId == id
  {
    MatchedSessions(sessions, entry);
    var sm := SessionMatches(sessions, entry).value;
    var t :| t in sm.items && sm.items[t] == id;
    var i :| FirstEligibleAt(sessions, HourList(entry).value, t, i) && sm.items[t] == sessions[i].classId;
  }
}

/** The booking ledger `booked`: for each sport, the class ids booked during
    this run, in booking order. `validate_booked` appends to it on a
    confirmed booking only. */
module Ledger {
  import opened Wrappers
  import opened Faults

  type Ledger = map<string, seq<string>>

  /** `booked.get(sport, [])`. */
  function Entries(ledger: Ledger, sport: string): seq<string> {
    if sport in ledger then ledger[sport] else []
  }

  /** What `book_session` hands back: `{}` after an HTTP error (or `null` from
      the service), or the booked class's fields. A missing or null
      `isBooked` reads as false. */
  datatype BookResponse = NoResponse | Response(classId: string, isBooked: bool)

  /** `response_booking and response_booking.get('isBooked')`. */
  predicate Confirmed(r: BookResponse) {
    r.Response? && r.isBooked
  }

  /** The classification `validate_booked` reports (its message text is left
      out). */
  datatype BookingOutcome = Booked(classId: string) | NotBooked(response: BookResponse)

  /** The ledger after `validate_booked(response, sport)`: the confirmed class
      id appended to the sport's list; otherwise, nothing changes. */
  function Record(ledger: Ledger, sport: string, r: BookResponse): (l: Ledger)
    ensures Confirmed(r) ==> sport in l && l[sport] == Entries(ledger, sport) + [r.classId]
    ensures !Confirmed(r) ==> l == ledger
    ensures forall s :: s != sport ==> (s in l <==> s in ledger) && (s in l ==> l[s] == ledger[s])
  {
    if Confirmed(r) then ledger[sport := Entries(ledger, sport) + [r.classId]] else ledger
  }

  /** The outcome `validate_booked` reports, as intended. */
  function Classify(r: BookResponse): (o: BookingOutcome)
    ensures o.Booked? <==> Confirmed(r)
    ensures o.Booked? ==> o.classId == r.classId
    ensures o.NotBooked? ==> o.response == r
  {
    if Confirmed(r) then Booked(r.classId) else NotBooked(r)
  }

  /** `validate_booked` as written: its failure message names `response`,
      which is bound nowhere, so every unconfirmed booking raises `NameError`
      after leaving the ledger alone. */
  function ValidateBookedAsWritten(ledger: Ledger, sport: string, r: BookResponse): (res: Result<(Ledger, BookingOutcome), Fault>)
    ensures res.Err? <==> !Confirmed(r)
    ensures res.Err? ==> res.error == NameError("response")
    ensures res.Ok? ==> var (l, o) := res.value;
      && sport in l && l[sport] == Entries(ledger, sport) + [r.classId]
      && (forall s :: s != sport ==> (s in l <==> s in ledger) && (s in l ==> l[s] == ledger[s]))
      && o == Booked(r.classId)
  {
    if Confirmed(r) then Ok((ledger[sport := Entries(ledger, sport) + [r.classId]], Booked(r.classId)))
    else Err(NameError("response"))
  }

  /** The written code raises on every unconfirmed booking, among them the
      `{}` returned after an HTTP error; on a confirmed one it agrees with
      the intended `Record` and `Classify`. */
  lemma AsWrittenRaisesWhenNotBooked(ledger: Ledger, sport: string, r: BookResponse)
    ensures !Confirmed(r) ==> ValidateBookedAsWritten(ledger, sport, r) == Err(NameError("response"))
    ensures Confirmed(r) ==> ValidateBookedAsWritten(ledger, sport, r) == Ok((Record(ledger, sport, r), Classify(r)))
    ensures ValidateBookedAsWritten(ledger, sport, NoResponse).Err?
  {
  }

  /** `l2` is `l1` after a run of bookings for the sports `sports`: other
      sports' lists are untouched, every list only grows at the end, and every
      class id added is one the service confirmed. */
  ghost predicate Extends(l1: Ledger, l2: Ledger, sports: set<string>, confirmed: set<string>) {
    && (forall s :: s !in sports ==> (s in l2 <==> s in l1) && (s in l2 ==> l2[s] == l1[s]))
    && (forall s :: s in l1 ==> s in l2)
    && (forall s :: Entries(l1, s) <= Entries(l2, s))
    && (forall s, i :: |Entries(l1, s)| <= i < |Entries(l2, s)| ==> Entries(l2, s)[i] in confirmed)
  }

  lemma ExtendsRefl(l: Ledger, sports: set<string>, confirmed: set<string>)
    ensures Extends(l, l, sports, confirmed)
  {
  }

  lemma ExtendsTrans(l1: Ledger, l2: Ledger, l3: Ledger, sports: set<string>, confirmed: set<string>)
    requires Extends(l1, l2, sports, confirmed) && Extends(l2, l3, sports, confirmed)
    ensures Extends(l1, l3, sports, confirmed)
  {
    forall s, i | |Entries(l1, s)| <= i < |Entries(l3, s)|
      ensures Entries(l3, s)[i] in confirmed
    {
      if i < |Entries(l2, s)| {
        assert Entries(l3, s)[i] == Entries(l2, s)[i];
      }
    }
  }

  /** One `validate_booked` call extends the ledger for its sport. */
  lemma RecordExtends(ledger: Ledger, sport: string, r: BookResponse, sports: set<string>, confirmed: set<string>)
    requires sport in sports
    requires Confirmed(r) ==> r.classId in confirmed
    ensures Extends(ledger, Record(ledger, sport, r), sports, confirmed)
  {
  }
}

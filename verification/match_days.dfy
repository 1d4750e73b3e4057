/**
  The match-days route: creating a match day (a date and a type are required,
  and a date may hold at most one match day) and listing match days newest first.
  The table is modelled as the sequence of stored match days.
 */
module MatchDays {
  import opened Common
  import opened Calendar
  import opened Records
  import Seqs
  import MatchDayReport

  /** `CreateMatchDayRequest` as read from the body; `None` is a field left out. */
  datatype CreateRequest = CreateRequest(
    matchDate: Option<Date>, opponent: Option<string>, venue: Option<string>, matchType: Option<string>)

  /** The table after the call and the answer the handler gives. */
  datatype Outcome = Outcome(store: seq<MatchDay>, response: Result<MatchDay>)

  const MissingFieldsMessage: string := "Match date and match type are required"
  const DuplicateDateMessage: string := "Match day already exists for this date"

  /** `!matchDate || !matchType`. */
  predicate MissingFields(req: CreateRequest)
  {
    req.matchDate.None? || req.matchType.None? || req.matchType == Some("")
  }

  /** Some stored match day is on `d`. */
  predicate DateTaken(store: seq<MatchDay>, d: Date)
  {
    exists i :: 0 <= i < |store| && store[i].matchDate == d
  }

  /** The invariant the duplicate check maintains: no two match days share a date. */
  predicate OnePerDate(store: seq<MatchDay>)
  {
    forall i, j :: 0 <= i < j < |store| ==> store[i].matchDate != store[j].matchDate
  }

  /**
    The POST handler. `freshId` stands for the id the database generates for the
    inserted row.
   */
  function Create(store: seq<MatchDay>, req: CreateRequest, freshId: string): (o: Outcome)
    ensures o.response.Err? <==> MissingFields(req) || DateTaken(store, req.matchDate.value)
    ensures o.response.Err? ==> o.store == store && StatusCode(o.response.failure) == 400
    ensures MissingFields(req) ==> o.response == Err(BadRequest(MissingFieldsMessage))
    ensures !MissingFields(req) && DateTaken(store, req.matchDate.value) ==>
      o.response == Err(BadRequest(DuplicateDateMessage))
    ensures o.response.Ok? ==>
      && o.store == store + [o.response.value]
      && o.response.value.id == freshId
      && o.response.value.matchDate == req.matchDate.value
      && o.response.value.matchType == req.matchType.value != ""
      && o.response.value.opponent == MatchDayReport.NullIfEmpty(req.opponent)
      && o.response.value.venue == MatchDayReport.NullIfEmpty(req.venue)
  {
    if MissingFields(req) then Outcome(store, Err(BadRequest(MissingFieldsMessage)))
    else if DateTaken(store, req.matchDate.value) then Outcome(store, Err(BadRequest(DuplicateDateMessage)))
    else
      var m := MatchDay(freshId, req.matchDate.value,
        MatchDayReport.NullIfEmpty(req.opponent), MatchDayReport.NullIfEmpty(req.venue), req.matchType.value);
      Outcome(store + [m], Ok(m))
  }

  /** Every create, accepted or refused, keeps one match day per date. */
  lemma CreateKeepsOnePerDate(store: seq<MatchDay>, req: CreateRequest, freshId: string)
    requires OnePerDate(store)
    ensures OnePerDate(Create(store, req, freshId).store)
  {
    var o := Create(store, req, freshId);
    if o.response.Ok? {
      var s := o.store;
      forall i, j | 0 <= i < j < |s|
        ensures s[i].matchDate != s[j].matchDate
      {
        if j == |store| {
          assert s[i] == store[i];
        }
      }
    }
  }

  /** With a fresh id the ids stay unique, so the single-report lookup keeps finding each match day. */
  lemma CreateKeepsIdsUnique(store: seq<MatchDay>, req: CreateRequest, freshId: string)
    requires MatchDayReport.UniqueIds(store)
    requires forall i :: 0 <= i < |store| ==> store[i].id != freshId
    ensures MatchDayReport.UniqueIds(Create(store, req, freshId).store)
  {
    var o := Create(store, req, freshId);
    if o.response.Ok? {
      var s := o.store;
      forall i, j | 0 <= i < j < |s|
        ensures s[i].id != s[j].id
      {
        if j == |store| {
          assert s[i] == store[i];
        }
      }
    }
  }

  /** Once a match day is created for a date, any later request for that date is refused. */
  lemma SecondCreateRefused(store: seq<MatchDay>, req: CreateRequest, freshId: string, again: CreateRequest, otherId: string)
    requires Create(store, req, freshId).response.Ok?
    requires !MissingFields(again) && again.matchDate == req.matchDate
    ensures var o := Create(Create(store, req, freshId).store, again, otherId);
      o.response == Err(BadRequest(DuplicateDateMessage))
  {
    var s := Create(store, req, freshId).store;
    assert s[|store|].matchDate == again.matchDate.value;
  }

  /**
    Under the one-per-date invariant, the matchday payments the report joins to two
    different match days are disjoint: no payment is counted for two matches.
   */
  lemma JoinedPaymentsDisjoint(store: seq<MatchDay>, allPayments: seq<Payment>, i: int, j: int, p: Payment)
    requires OnePerDate(store)
    requires 0 <= i < |store| && 0 <= j < |store| && i != j
    ensures !(p in MatchDayReport.PaymentsOn(allPayments, store[i].matchDate)
              && p in MatchDayReport.PaymentsOn(allPayments, store[j].matchDate))
  {
    if i < j {
      assert store[i].matchDate != store[j].matchDate;
    } else {
      assert store[j].matchDate != store[i].matchDate;
    }
  }

  // ---------------------------------------------------------------------------
  // Listing

  function DateKey(m: MatchDay): (int, int)
  {
    (DayNumber(m.matchDate), 0)
  }

  /** The GET handler: every match day, `match_date` descending; the mapping keeps each field. */
  function ListMatchDays(store: seq<MatchDay>): (r: seq<MatchDay>)
    ensures multiset(r) == multiset(store)
  {
    Seqs.SortDesc(store, DateKey)
  }

  /** The listing holds exactly the stored match days. */
  lemma ListingHoldsStore(store: seq<MatchDay>, m: MatchDay)
    ensures m in ListMatchDays(store) <==> m in store
  {
    var r := ListMatchDays(store);
    assert m in r <==> m in multiset(r);
    assert m in store <==> m in multiset(store);
  }

  /** No match day in the listing is dated before one that follows it. */
  lemma ListingNewestFirst(store: seq<MatchDay>, i: int, j: int)
    requires 0 <= i < j < |ListMatchDays(store)|
    ensures !Before(ListMatchDays(store)[i].matchDate, ListMatchDays(store)[j].matchDate)
  {
    var r := ListMatchDays(store);
    assert Seqs.KeyGeq(DateKey(r[i]), DateKey(r[j]));
    DayNumberOrder(r[i].matchDate, r[j].matchDate);
  }
}

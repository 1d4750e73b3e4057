/**
  The upcoming/overdue classifier: for each player with no annual payment in the
  current fiscal year, the monthly payments expected so far are compared with
  those recorded; players behind by one month are due soon, further behind are
  overdue. The flagged players are listed most overdue first, truncated to a limit.
 */
module UpcomingPayments {
  import opened Common
  import opened Calendar
  import opened Records
  import Seqs
  import Text

  /** The fiscal year starts in July. */
  const FiscalStartMonth: int := 7

  /** Number of entries returned when no `limit` is given. */
  const DefaultLimit: int := 10

  /** An approximate month of days used to express the missed months as days overdue. */
  const DaysPerMissedMonth: int := 30

  datatype Standing = UpToDate | DueSoon | Overdue

  datatype LastPayment = LastPayment(paymentType: PaymentType, amount: int, date: Date)

  datatype Entry = Entry(
    player: Player, lastPayment: Option<LastPayment>,
    isDue: bool, isOverdue: bool, daysOverdue: int,
    expectedAmount: int, paymentType: string, nextDueDate: Option<string>,
    status: Standing)

  // ---------------------------------------------------------------------------
  // The fiscal year

  /** The year whose July starts the fiscal year containing `now`. */
  function FiscalYear(now: Instant): int
  {
    if now.date.month < FiscalStartMonth then now.date.year - 1 else now.date.year
  }

  function FiscalYearStart(now: Instant): (d: Date)
    ensures d.month == FiscalStartMonth && d.day == 1 && d.year == FiscalYear(now)
  {
    CivilDate(FiscalYear(now), FiscalStartMonth, 1)
  }

  function MonthsSinceFiscalStart(now: Instant): int
  {
    MonthsSince(FiscalYearStart(now), now)
  }

  /**
    `now` lies in the fiscal year that starts on FiscalYearStart(now) and ends
    before July 1 of the next year; whole 30.44-day months since that start
    range from 0 to 12.
   */
  lemma FiscalYearContainsNow(now: Instant)
    ensures DayNumber(FiscalYearStart(now)) <= DayNumber(now.date)
    ensures DayNumber(now.date) < DayNumber(CivilDate(FiscalYear(now) + 1, FiscalStartMonth, 1))
    ensures 0 <= MonthsSinceFiscalStart(now) <= 12
  {
    var start := FiscalYearStart(now);
    var next: Date := CivilDate(FiscalYear(now) + 1, FiscalStartMonth, 1);
    DayNumberOrder(start, now.date);
    DayNumberOrder(now.date, next);
    assert DayNumber(next) - DayNumber(start) <= 366 by {
      YearStep(FiscalYear(now));
      YearStep(FiscalYear(now) + 1);
    }
  }

  // ---------------------------------------------------------------------------
  // One player

  /** The ledger as the query returns it: newest date first. */
  function DateKey(p: Payment): (int, int)
  {
    (DayNumber(p.date), 0)
  }

  function ByDateDesc(ledger: seq<Payment>): (r: seq<Payment>)
    ensures multiset(r) == multiset(ledger)
    ensures forall i, j :: 0 <= i < j < |r| ==> DayNumber(r[i].date) >= DayNumber(r[j].date)
  {
    var r := Seqs.SortDesc(ledger, DateKey);
    assert forall i, j :: 0 <= i < j < |r| ==> Seqs.KeyGeq(DateKey(r[i]), DateKey(r[j]));
    r
  }

  /** A player's payments of type `t` dated on or after the fiscal year start. */
  function SinceFiscalStart(pp: seq<Payment>, t: PaymentType, now: Instant): seq<Payment>
  {
    Seqs.Filter(pp, (p: Payment) => p.paymentType == t && DayNumber(p.date) >= DayNumber(FiscalYearStart(now)))
  }

  /** An annual payment in the current fiscal year exempts the player from the monthly cadence. */
  predicate HasAnnual(ordered: seq<Payment>, player: Player, now: Instant)
  {
    |SinceFiscalStart(OfPlayer(ordered, player.id), Annual, now)| > 0
  }

  /** The months the player is behind: expected monthly payments (months since start + 1) less those made. */
  function Missed(ordered: seq<Payment>, player: Player, now: Instant): int
  {
    MonthsSinceFiscalStart(now) + 1 - |SinceFiscalStart(OfPlayer(ordered, player.id), Monthly, now)|
  }

  function LastPaymentOf(ordered: seq<Payment>, player: Player): (l: Option<LastPayment>)
    ensures l.None? <==> |OfPlayer(ordered, player.id)| == 0
    ensures l.Some? ==> var p := OfPlayer(ordered, player.id)[0];
      l.value == LastPayment(p.paymentType, p.amount, p.date)
  {
    var pp := OfPlayer(ordered, player.id);
    if |pp| > 0 then Some(LastPayment(pp[0].paymentType, pp[0].amount, pp[0].date)) else None
  }

  /** The head of a player's date-ordered payments is the player's latest payment. */
  lemma LastPaymentIsLatest(ledger: seq<Payment>, player: Player)
    ensures var l := LastPaymentOf(ByDateDesc(ledger), player);
      && (l.None? <==> forall q :: q in ledger ==> q.playerId != player.id)
      && (l.Some? ==> exists p :: p in ledger && p.playerId == player.id && l.value == LastPayment(p.paymentType, p.amount, p.date))
      && (l.Some? ==> forall q :: q in ledger && q.playerId == player.id ==> DayNumber(q.date) <= DayNumber(l.value.date))
  {
    var ordered := ByDateDesc(ledger);
    var pp := OfPlayer(ordered, player.id);
    forall q | q in ledger && q.playerId == player.id
      ensures q in pp
    {
      assert q in multiset(ordered);
      var k :| 0 <= k < |ordered| && ordered[k] == q;
    }
    if |pp| > 0 {
      assert pp[0] in ordered;
      assert pp[0] in multiset(ledger);
      forall q | q in ledger && q.playerId == player.id
        ensures DayNumber(q.date) <= DayNumber(pp[0].date)
      {
        Seqs.FilterHeadIsMax(ordered, (p: Payment) => p.playerId == player.id, (p: Payment) => DayNumber(p.date), q);
      }
    } else {
      forall q | q in ledger
        ensures q.playerId != player.id
      {
      }
    }
  }

  /**
    The entry for one player, or nothing when the player is exempt (an annual
    payment this fiscal year) or has made every expected monthly payment.
   */
  function Assess(ordered: seq<Payment>, player: Player, now: Instant): (e: Option<Entry>)
    ensures e.None? <==> HasAnnual(ordered, player, now) || Missed(ordered, player, now) <= 0
    ensures e.Some? ==> (e.value.player == player && e.value.isDue
      && e.value.expectedAmount == player.monthly && e.value.paymentType == "monthly"
      && e.value.nextDueDate.None? && e.value.lastPayment == LastPaymentOf(ordered, player))
    ensures e.Some? && Missed(ordered, player, now) == 1 ==>
      e.value.status == DueSoon && !e.value.isOverdue && e.value.daysOverdue == 0
    ensures e.Some? && Missed(ordered, player, now) > 1 ==>
      e.value.status == Overdue && e.value.isOverdue && e.value.daysOverdue == DaysPerMissedMonth * Missed(ordered, player, now)
  {
    var missed := Missed(ordered, player, now);
    if HasAnnual(ordered, player, now) || missed <= 0 then None
    else
      var overdue := missed > 1;
      Some(Entry(player, LastPaymentOf(ordered, player), true, overdue,
                 if overdue then DaysPerMissedMonth * missed else 0,
                 player.monthly, "monthly", None, if overdue then Overdue else DueSoon))
  }

  /**
    At 2025-07-31 10:33:36 exactly one 30.44-day month has passed since July 1,
    2025, yet the double divisor counts none: a player who has paid nothing is
    due soon, not overdue.
   */
  lemma ExactMonthDueSoon(player: Player, now: Instant)
    requires now == Moment(CivilDate(2025, 7, 31), 38_016_000)
    ensures MonthsSinceFiscalStart(now) == 0
    ensures var e := Assess([], player, now);
      e.Some? && e.value.status == DueSoon && !e.value.isOverdue && e.value.daysOverdue == 0
  {
    assert Elapsed(FiscalYearStart(now), now) == 1 * AverageMonthMillis by {
      assert FiscalYearStart(now) == CivilDate(2025, 7, 1);
    }
    ExactMonthsCountOneLess(FiscalYearStart(now), now, 1);
    assert OfPlayer([], player.id) == [];
    assert SinceFiscalStart([], Annual, now) == [] && SinceFiscalStart([], Monthly, now) == [];
  }

  /** The flagged players' entries, in player order. */
  function Collect(ordered: seq<Payment>, players: seq<Player>, now: Instant): (es: seq<Entry>)
    ensures |es| <= |players|
  {
    Seqs.FilterMap(players, (player: Player) => Assess(ordered, player, now))
  }

  /** Every collected entry is the assessment of one of the players, and every flagged player is collected. */
  lemma CollectMeaning(ordered: seq<Payment>, players: seq<Player>, now: Instant, e: Entry)
    ensures e in Collect(ordered, players, now) <==>
      exists j :: 0 <= j < |players| && Assess(ordered, players[j], now) == Some(e)
  {
    Seqs.FilterMapMeaning(players, (player: Player) => Assess(ordered, player, now), e);
  }

  /** `parseInt(searchParams.get('limit') || '10')`, with NaN as `None`. */
  function Limit(param: Option<string>): Option<int>
  {
    match param
    case None => Some(DefaultLimit)
    case Some(s) => if s == "" then Some(DefaultLimit) else Text.ParseInt(s)
  }

  /** The end `slice(0, limit)` uses: NaN behaves as 0. */
  function SliceEnd(limit: Option<int>): int
  {
    match limit
    case None => 0
    case Some(n) => n
  }

  function DaysKey(e: Entry): (int, int)
  {
    (e.daysOverdue, 0)
  }

  /** Ranking by `DaysKey` is ranking by days overdue. */
  lemma DaysOrder(r: seq<Entry>)
    requires Seqs.SortedDesc(r, DaysKey)
    ensures forall i, j :: 0 <= i < j < |r| ==> r[i].daysOverdue >= r[j].daysOverdue
  {
    forall i, j | 0 <= i < j < |r|
      ensures r[i].daysOverdue >= r[j].daysOverdue
    {
      assert Seqs.KeyGeq(DaysKey(r[i]), DaysKey(r[j]));
    }
  }

  lemma DaysRank(flagged: seq<Entry>, r: seq<Entry>)
    requires forall x, i :: multiset(r)[x] < multiset(flagged)[x] && 0 <= i < |r| ==> Seqs.KeyGeq(DaysKey(r[i]), DaysKey(x))
    ensures forall e, i :: multiset(r)[e] < multiset(flagged)[e] && 0 <= i < |r| ==> e.daysOverdue <= r[i].daysOverdue
  {
  }

  /** The response: flagged players, most days overdue first, at most `limit` of them. */
  function Upcoming(players: seq<Player>, ledger: seq<Payment>, now: Instant, limitParam: Option<string>): (r: seq<Entry>)
    ensures forall i, j :: 0 <= i < j < |r| ==> r[i].daysOverdue >= r[j].daysOverdue
    ensures |r| <= |players|
    ensures var n, flagged := SliceEnd(Limit(limitParam)), Collect(ByDateDesc(ledger), players, now);
      && (n >= 0 ==> |r| == if n < |flagged| then n else |flagged|)
      && (n < 0 ==> |r| == if |flagged| + n > 0 then |flagged| + n else 0)
    ensures multiset(r) <= multiset(Collect(ByDateDesc(ledger), players, now))
    ensures forall e, i :: multiset(r)[e] < multiset(Collect(ByDateDesc(ledger), players, now))[e] && 0 <= i < |r| ==>
      e.daysOverdue <= r[i].daysOverdue
  {
    var flagged := Collect(ByDateDesc(ledger), players, now);
    var n := SliceEnd(Limit(limitParam));
    TopSorted(flagged, n);
    TopKept(flagged, n);
    TopLength(flagged, n);
    Seqs.SliceTo(Seqs.SortDesc(flagged, DaysKey), n)
  }

  /** `sort` by days overdue then `slice(0, n)`, for any list of flagged entries: most days first. */
  lemma TopSorted(flagged: seq<Entry>, n: int)
    ensures var r := Seqs.SliceTo(Seqs.SortDesc(flagged, DaysKey), n);
      forall i, j :: 0 <= i < j < |r| ==> r[i].daysOverdue >= r[j].daysOverdue
  {
    var r := Seqs.SliceTo(Seqs.SortDesc(flagged, DaysKey), n);
    Seqs.TopSlice(flagged, n, DaysKey);
    DaysOrder(r);
  }

  /** The kept entries are flagged ones, and none left out has more days overdue than one kept. */
  lemma TopKept(flagged: seq<Entry>, n: int)
    ensures var r := Seqs.SliceTo(Seqs.SortDesc(flagged, DaysKey), n);
      && multiset(r) <= multiset(flagged)
      && (forall e, i :: multiset(r)[e] < multiset(flagged)[e] && 0 <= i < |r| ==> e.daysOverdue <= r[i].daysOverdue)
  {
    var r := Seqs.SliceTo(Seqs.SortDesc(flagged, DaysKey), n);
    Seqs.TopSlice(flagged, n, DaysKey);
    DaysRank(flagged, r);
  }

  /** `slice(0, n)` of the sorted list keeps `n` entries, or counts back from the end for a negative `n`. */
  lemma TopLength(flagged: seq<Entry>, n: int)
    ensures var r := Seqs.SliceTo(Seqs.SortDesc(flagged, DaysKey), n);
      && (n >= 0 ==> |r| == if n < |flagged| then n else |flagged|)
      && (n < 0 ==> |r| == if |flagged| + n > 0 then |flagged| + n else 0)
  {
    var sorted := Seqs.SortDesc(flagged, DaysKey);
    assert |sorted| == |flagged|;
  }

  /** Every listed entry is the assessment of one of the players: due, owing the monthly amount, not exempt. */
  lemma UpcomingEntries(players: seq<Player>, ledger: seq<Payment>, now: Instant, limitParam: Option<string>, e: Entry)
    requires e in Upcoming(players, ledger, now, limitParam)
    ensures exists j :: 0 <= j < |players| && Assess(ByDateDesc(ledger), players[j], now) == Some(e)
    ensures e.isDue && e.expectedAmount == e.player.monthly && e.paymentType == "monthly"
    ensures !HasAnnual(ByDateDesc(ledger), e.player, now)
    ensures Missed(ByDateDesc(ledger), e.player, now) >= 1
  {
    var ordered := ByDateDesc(ledger);
    var r := Upcoming(players, ledger, now, limitParam);
    assert e in multiset(r);
    assert e in multiset(Collect(ordered, players, now));
    CollectMeaning(ordered, players, now, e);
    var j :| 0 <= j < |players| && Assess(ordered, players[j], now) == Some(e);
  }

  /**
    Without a usable `limit` the list holds at most ten players; a non-number
    empties it; a `0x` limit is read in base 16.
   */
  lemma {:induction false} LimitDefaults(s: string)
    ensures Limit(None) == Some(10) && Limit(Some("")) == Some(10)
    ensures Text.ParseInt(s).None? && s != "" ==> SliceEnd(Limit(Some(s))) == 0
    ensures Limit(Some("0x10")) == Some(16)
  {
    assert Limit(Some("0x10")) == Some(16) by {
      Text.ParseIntHex();
    }
  }
}

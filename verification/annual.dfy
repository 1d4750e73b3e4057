/**
  The annual dues report for one calendar year: per player the expected amount,
  the carryover from the year before (from 2026 on), what was paid, the balance
  and a three-way status; rows sorted by balance, most owed first.
 */
module AnnualReport {
  import opened Common
  import opened Calendar
  import opened Records
  import Seqs
  import Text

  /** The annual due used when a player's own `annual` field is 0. */
  const DefaultAnnualDue: int := 150000

  /** The first year whose report carries over the previous year's shortfall. */
  const FirstCarryoverYear: int := 2026

  datatype Status = Complete | Partial | Unpaid

  datatype Row = Row(
    playerId: string, playerName: string, phone: string,
    expectedAmount: int, amountPaid: int, balance: int, carryover: int, totalDue: int,
    lastPaymentDate: Option<Date>, paymentCount: nat, status: Status)

  datatype Summary = Summary(
    year: int, totalPlayers: nat,
    totalExpected: int, totalPaid: int, totalBalance: int, totalCarryover: int,
    completeCount: nat, partialCount: nat, unpaidCount: nat)

  datatype Report = Report(year: int, summary: Summary, data: seq<Row>, totalRecords: nat)

  /** `player.annual || 150000`: a zero due falls back to the default. */
  function ExpectedAmount(p: Player): int
  {
    if p.annual == 0 then DefaultAnnualDue else p.annual
  }

  /** The report reads only payments of type `annual`. */
  function AnnualPayments(ledger: seq<Payment>): seq<Payment>
  {
    OfType(ledger, Annual)
  }

  /** A player's payments whose date falls in the given calendar year. */
  function PaymentsInYear(payments: seq<Payment>, playerId: string, year: int): seq<Payment>
  {
    Seqs.Filter(payments, (p: Payment) => p.playerId == playerId && p.date.year == year)
  }

  /**
    The previous year's unpaid due, counted only from 2026 on: years before the
    cutover never carry anything over.
   */
  function Carryover(year: int, player: Player, payments: seq<Payment>): (c: int)
    ensures c >= 0
    ensures year < FirstCarryoverYear ==> c == 0
    ensures year >= FirstCarryoverYear ==>
      c == Max(0, ExpectedAmount(player) - TotalPaid(PaymentsInYear(payments, player.id, year - 1)))
  {
    if year >= FirstCarryoverYear then
      Max(0, ExpectedAmount(player) - TotalPaid(PaymentsInYear(payments, player.id, year - 1)))
    else 0
  }

  /** Paid in full, paid something, or otherwise unpaid. */
  function Classify(amountPaid: int, totalDue: int): (s: Status)
    ensures s == Complete <==> amountPaid >= totalDue
    ensures s == Partial <==> 0 < amountPaid < totalDue
    ensures s == Unpaid <==> amountPaid <= 0 && amountPaid < totalDue
  {
    if amountPaid >= totalDue then Complete
    else if amountPaid > 0 then Partial
    else Unpaid
  }

  /** One player's row of the report. */
  function RowFor(year: int, player: Player, payments: seq<Payment>): (r: Row)
    ensures r.playerId == player.id && r.playerName == player.name && r.phone == player.phone
    ensures r.expectedAmount == ExpectedAmount(player)
    ensures r.carryover == Carryover(year, player, payments)
    ensures r.amountPaid == TotalPaid(PaymentsInYear(payments, player.id, year))
    ensures r.paymentCount == |PaymentsInYear(payments, player.id, year)|
    ensures r.carryover >= 0 && (year < FirstCarryoverYear ==> r.carryover == 0)
    ensures r.totalDue == ExpectedAmount(player) + r.carryover
    ensures r.balance == r.totalDue - r.amountPaid
    ensures r.status == Complete <==> r.balance <= 0
    ensures r.status == Partial <==> r.balance > 0 && r.amountPaid > 0
    ensures r.lastPaymentDate.None? <==> r.paymentCount == 0
    ensures r.lastPaymentDate.Some? ==>
      forall p :: p in PaymentsInYear(payments, player.id, year) ==> DayNumber(p.date) <= DayNumber(r.lastPaymentDate.value)
    ensures r.lastPaymentDate.Some? ==>
      exists p :: p in PaymentsInYear(payments, player.id, year) && p.date == r.lastPaymentDate.value
  {
    var paid := PaymentsInYear(payments, player.id, year);
    var expected := ExpectedAmount(player);
    var amountPaid := TotalPaid(paid);
    var carryover := Carryover(year, player, payments);
    var totalDue := expected + carryover;
    Row(player.id, player.name, player.phone, expected, amountPaid, totalDue - amountPaid,
        carryover, totalDue, LatestDate(paid), |paid|, Classify(amountPaid, totalDue))
  }

  function Rows(year: int, players: seq<Player>, payments: seq<Payment>): (rows: seq<Row>)
    ensures |rows| == |players|
    ensures forall i :: 0 <= i < |players| ==> rows[i] == RowFor(year, players[i], payments)
  {
    seq(|players|, i requires 0 <= i < |players| => RowFor(year, players[i], payments))
  }

  function BalanceKey(r: Row): (int, int)
  {
    (r.balance, 0)
  }

  /** The rows whose balance is `b`, in their order. */
  function WithBalance(rows: seq<Row>, b: int): seq<Row>
  {
    Seqs.Filter(rows, Seqs.KeyIs(BalanceKey, (b, 0)))
  }


  function TotalDueOf(r: Row): int { r.totalDue }
  function AmountPaidOf(r: Row): int { r.amountPaid }
  function BalanceOf(r: Row): int { r.balance }
  function CarryoverOf(r: Row): int { r.carryover }

  function CountStatus(rows: seq<Row>, s: Status): nat
  {
    |Seqs.Filter(rows, (r: Row) => r.status == s)|
  }

  lemma StatusFilterLast(rows: seq<Row>, s: Status)
    requires |rows| > 0
    ensures CountStatus(rows, s) == CountStatus(rows[..|rows| - 1], s) + (if rows[|rows| - 1].status == s then 1 else 0)
  {
  }

  /** Each row has exactly one status, so the three counts add up to the number of rows. */
  lemma {:induction false} StatusCountsPartition(rows: seq<Row>)
    ensures CountStatus(rows, Complete) + CountStatus(rows, Partial) + CountStatus(rows, Unpaid) == |rows|
    decreases |rows|
  {
    if |rows| > 0 {
      StatusCountsPartition(rows[..|rows| - 1]);
      StatusFilterLast(rows, Complete);
      StatusFilterLast(rows, Partial);
      StatusFilterLast(rows, Unpaid);
    }
  }

  /** The invariants every row of the report keeps, whatever order the rows are in. */
  predicate ConsistentRow(year: int, r: Row)
  {
    r.balance == r.totalDue - r.amountPaid && (year < FirstCarryoverYear ==> r.carryover == 0)
  }

  /** The summary block: every total is the sum of that column, every count the rows with that status. */
  function Summarize(year: int, rows: seq<Row>): (s: Summary)
    ensures s.year == year && s.totalPlayers == |rows|
    ensures s.totalExpected == Seqs.Sum(rows, TotalDueOf) && s.totalPaid == Seqs.Sum(rows, AmountPaidOf)
    ensures s.totalBalance == Seqs.Sum(rows, BalanceOf) && s.totalCarryover == Seqs.Sum(rows, CarryoverOf)
    ensures s.completeCount == CountStatus(rows, Complete) && s.partialCount == CountStatus(rows, Partial)
    ensures s.unpaidCount == CountStatus(rows, Unpaid)
    ensures s.completeCount + s.partialCount + s.unpaidCount == s.totalPlayers
  {
    StatusCountsPartition(rows);
    Summary(
      year, |rows|,
      Seqs.Sum(rows, TotalDueOf), Seqs.Sum(rows, AmountPaidOf),
      Seqs.Sum(rows, BalanceOf), Seqs.Sum(rows, CarryoverOf),
      CountStatus(rows, Complete), CountStatus(rows, Partial), CountStatus(rows, Unpaid))
  }

  /** The summary does not depend on the order of the rows, so sorting them leaves it alone. */
  lemma SummaryIgnoresOrder(year: int, rows: seq<Row>, sorted: seq<Row>)
    requires multiset(sorted) == multiset(rows)
    ensures Summarize(year, sorted) == Summarize(year, rows)
  {
    assert |sorted| == |rows| by {
      assert |multiset(sorted)| == |multiset(rows)|;
    }
    Seqs.SumPermutation(sorted, rows, TotalDueOf);
    Seqs.SumPermutation(sorted, rows, AmountPaidOf);
    Seqs.SumPermutation(sorted, rows, BalanceOf);
    Seqs.SumPermutation(sorted, rows, CarryoverOf);
    Seqs.CountPermutation(sorted, rows, (r: Row) => r.status == Complete);
    Seqs.CountPermutation(sorted, rows, (r: Row) => r.status == Partial);
    Seqs.CountPermutation(sorted, rows, (r: Row) => r.status == Unpaid);
  }

  /** What a player paid in `year` and what was due from them. */
  function PaidBy(year: int, payments: seq<Payment>): Player -> int
  {
    (player: Player) => TotalPaid(PaymentsInYear(payments, player.id, year))
  }

  function DueFrom(year: int, payments: seq<Payment>): Player -> int
  {
    (player: Player) => ExpectedAmount(player) + Carryover(year, player, payments)
  }

  /**
    The report's totals, player by player: the sum over all players of what each
    paid in the year, and of their due plus carryover.
   */
  lemma TotalsPerPlayer(year: int, players: seq<Player>, ledger: seq<Payment>)
    ensures var pays := AnnualPayments(ledger);
      && AnnualReport(year, players, ledger).summary.totalPaid == Seqs.Sum(players, PaidBy(year, pays))
      && AnnualReport(year, players, ledger).summary.totalExpected == Seqs.Sum(players, DueFrom(year, pays))
  {
    var pays := AnnualPayments(ledger);
    var rows := Rows(year, players, pays);
    Seqs.SumMapped(players, PaidBy(year, pays), rows, AmountPaidOf);
    Seqs.SumMapped(players, DueFrom(year, pays), rows, TotalDueOf);
  }

  /** Over consistent rows the total balance is what is due minus what was paid. */
  lemma SummaryTotals(year: int, rows: seq<Row>)
    requires forall i :: 0 <= i < |rows| ==> ConsistentRow(year, rows[i])
    ensures Summarize(year, rows).totalBalance == Summarize(year, rows).totalExpected - Summarize(year, rows).totalPaid
    ensures year < FirstCarryoverYear ==> Summarize(year, rows).totalCarryover == 0
  {
    Seqs.SumDifference(rows, BalanceOf, TotalDueOf, AmountPaidOf);
    if year < FirstCarryoverYear {
      Seqs.SumZero(rows, CarryoverOf);
    }
  }

  /** Sorting keeps the rows, so it keeps every property all of them have. */
  lemma PermutedRowsConsistent(year: int, rows: seq<Row>, sorted: seq<Row>)
    requires multiset(sorted) == multiset(rows)
    requires forall i :: 0 <= i < |rows| ==> ConsistentRow(year, rows[i])
    ensures forall i :: 0 <= i < |sorted| ==> ConsistentRow(year, sorted[i])
  {
    forall i | 0 <= i < |sorted|
      ensures ConsistentRow(year, sorted[i])
    {
      assert sorted[i] in multiset(rows);
    }
  }

  /**
    The `year` query parameter: `parseInt(searchParams.get('year') ||
    new Date().getFullYear().toString())`. A missing or empty parameter falls back
    to the text of the clock's year, `today`; NaN is `None`.
   */
  function ReportYear(param: Option<string>, today: Date): (y: Option<int>)
    ensures param.None? || param == Some("") ==> y == Some(today.year)
    ensures param.Some? && param.value != "" ==> y == Text.ParseInt(param.value)
  {
    var given := if param.Some? then param.value else "";
    Text.ParseIntIntToString(today.year);
    Text.ParseInt(if given == "" then Text.IntToString(today.year) else given)
  }

  /** A year written out in the parameter is read back, and text without digits is NaN. */
  lemma ReportYearReads(n: int, today: Date)
    ensures ReportYear(Some(Text.IntToString(n)), today) == Some(n)
    ensures ReportYear(Some("abc"), today).None?
  {
    Text.ParseIntIntToString(n);
    var a := "abc";
    Text.NoLeadingSpace(a);
    assert Text.DigitPrefix(a) == "";
  }

  /**
    The report for `year` over a snapshot of all players and all payments: one row
    per player, most owed first, with the summary of those rows.
   */
  function AnnualReport(year: int, players: seq<Player>, ledger: seq<Payment>): (rep: Report)
    ensures rep.year == year && rep.summary.year == year
    ensures multiset(rep.data) == multiset(Rows(year, players, AnnualPayments(ledger)))
    ensures |rep.data| == |players| == rep.totalRecords == rep.summary.totalPlayers
    ensures forall i, j :: 0 <= i < j < |rep.data| ==> rep.data[i].balance >= rep.data[j].balance
    ensures rep.summary.completeCount + rep.summary.partialCount + rep.summary.unpaidCount == |players|
    ensures rep.summary.totalBalance == rep.summary.totalExpected - rep.summary.totalPaid
    ensures year < FirstCarryoverYear ==> rep.summary.totalCarryover == 0
    ensures rep.summary == Summarize(year, Rows(year, players, AnnualPayments(ledger)))
  {
    var rows := Rows(year, players, AnnualPayments(ledger));
    var sorted := Seqs.SortDesc(rows, BalanceKey);
    PermutedRowsConsistent(year, rows, sorted);
    SummaryTotals(year, sorted);
    SummaryIgnoresOrder(year, rows, sorted);
    Report(year, Summarize(year, sorted), sorted, |sorted|)
  }
  /**
    `reportData.sort` is stable: among rows of equal balance the report keeps
    player order, for every balance.
   */
  lemma ReportTiesInPlayerOrder(year: int, players: seq<Player>, ledger: seq<Payment>, b: int)
    ensures WithBalance(AnnualReport(year, players, ledger).data, b) == WithBalance(Rows(year, players, AnnualPayments(ledger)), b)
  {
    Seqs.SortDescStable(Rows(year, players, AnnualPayments(ledger)), BalanceKey, (b, 0));
  }

}

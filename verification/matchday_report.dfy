/**
  The match-day report. Given a match-day id it reports that one match day; without
  one it lists every match day within an optional date range. Each report holds the
  day's expenses (attached by match-day id) and matchday payments (joined by date
  equality), their totals and net, the expenses merged by category, and one
  (player name, amount) line per payment.
 */
module MatchDayReport {
  import opened Common
  import opened Calendar
  import opened Records
  import Seqs
  import Categories

  /** One entry of `expenseBreakdown`. */
  datatype CategoryAmount = CategoryAmount(category: string, amount: int)

  /** One entry of `paymentBreakdown`. */
  datatype PaymentLine = PaymentLine(playerName: string, amount: int)

  /** The figures reported for one match day (`MatchDayReportData`). */
  datatype Row = Row(
    matchDayId: string, matchDate: Date, opponent: Option<string>, venue: Option<string>,
    matchType: string, totalExpenses: int, totalPayments: int, netBalance: int,
    expenseBreakdown: seq<CategoryAmount>, paymentBreakdown: seq<PaymentLine>)

  /** Single mode also returns the joined expenses and payments themselves. */
  datatype Detail = Detail(report: Row, expenses: seq<Expense>, payments: seq<Payment>)

  datatype Response = Single(detail: Detail) | Listing(data: seq<Row>, totalRecords: nat)

  /**
    The query parameters: `match_day_id`, `start_date`, `end_date`. A missing or
    empty parameter is `None`, except that an empty id is kept and means list mode.
   */
  datatype Query = Query(matchDayId: Option<string>, startDate: Option<Date>, endDate: Option<Date>)

  // ---------------------------------------------------------------------------
  // The joins

  /** The matchday payments recorded on the match date. */
  function PaymentsOn(allPayments: seq<Payment>, d: Date): (ps: seq<Payment>)
    ensures forall i :: 0 <= i < |ps| ==> ps[i] in allPayments && ps[i].paymentType == Matchday && ps[i].date == d
    ensures forall p :: p in allPayments && p.paymentType == Matchday && p.date == d ==> p in ps
    ensures Seqs.IsSubsequence(ps, allPayments)
  {
    var ps := Seqs.Filter(allPayments, (p: Payment) => p.paymentType == Matchday && p.date == d);
    forall p | p in allPayments && p.paymentType == Matchday && p.date == d
      ensures p in ps
    {
      var k :| 0 <= k < |allPayments| && allPayments[k] == p;
    }
    ps
  }

  /** `opponent || null`: an empty text is reported as null. */
  function NullIfEmpty(s: Option<string>): (r: Option<string>)
    ensures r.Some? ==> r.value != "" && s == r
    ensures r.None? <==> (s.None? || s == Some(""))
  {
    if s == Some("") then None else s
  }

  // ---------------------------------------------------------------------------
  // The breakdowns

  function CategoryAmountOf(c: CategoryAmount): int { c.amount }
  function PaymentLineAmount(l: PaymentLine): int { l.amount }

  /** Drops the counts of the per-category totals. */
  function Amounts(g: seq<Categories.CategoryTotal>): (b: seq<CategoryAmount>)
    ensures |b| == |g|
    ensures forall i :: 0 <= i < |g| ==> b[i].category == g[i].category && b[i].amount == g[i].amount
    decreases |g|
  {
    if |g| == 0 then []
    else
      var last := g[|g| - 1];
      Amounts(g[..|g| - 1]) + [CategoryAmount(last.category, last.amount)]
  }

  lemma {:induction false} AmountsSum(g: seq<Categories.CategoryTotal>)
    ensures Seqs.Sum(Amounts(g), CategoryAmountOf) == Seqs.Sum(g, Categories.AmountOf)
    decreases |g|
  {
    if |g| > 0 {
      var init := g[..|g| - 1];
      AmountsSum(init);
      var b := Amounts(g);
      assert b[..|b| - 1] == Amounts(init);
    }
  }

  /** No category occurs twice in the breakdown. */
  predicate DistinctCategories(b: seq<CategoryAmount>)
  {
    forall i, j :: 0 <= i < j < |b| ==> b[i].category != b[j].category
  }

  /** The categories named in the breakdown. */
  function BreakdownCategories(b: seq<CategoryAmount>): set<string>
  {
    set i | 0 <= i < |b| :: b[i].category
  }

  /** Each entry carries the total of its category's expenses. */
  predicate CategoryTotals(es: seq<Expense>, b: seq<CategoryAmount>)
  {
    forall i :: 0 <= i < |b| ==> b[i].amount == TotalSpent(Categories.InCategory(es, b[i].category))
  }

  /** Entries are ordered by the first appearance of their category among the expenses. */
  predicate FirstOccurrenceOrder(es: seq<Expense>, b: seq<CategoryAmount>)
  {
    forall i, j :: 0 <= i < j < |b| ==>
      Categories.FirstIndex(es, b[i].category) < Categories.FirstIndex(es, b[j].category)
  }

  /**
    `expenseBreakdown`: the `reduce` that adds each expense to the entry of its
    category, opening a new entry at the end for a category not seen before.
   */
  function ExpenseBreakdown(es: seq<Expense>): (b: seq<CategoryAmount>)
    ensures DistinctCategories(b)
    ensures BreakdownCategories(b) == Categories.CategoriesOf(es)
    ensures CategoryTotals(es, b)
    ensures FirstOccurrenceOrder(es, b)
    ensures Seqs.Sum(b, CategoryAmountOf) == TotalSpent(es)
  {
    var g := Categories.GroupByCategory(es);
    Categories.GroupEntries(es);
    Categories.GroupOrder(es);
    Categories.GroupAmountsSum(es);
    AmountsSum(g);
    AmountsKeep(es, g);
    Amounts(g)
  }

  /** Dropping the counts keeps what the grouping established about categories and amounts. */
  lemma AmountsKeep(es: seq<Expense>, g: seq<Categories.CategoryTotal>)
    requires Categories.DistinctCategories(g)
    requires Categories.AllEntriesMatch(es, g)
    requires Categories.InFirstOccurrenceOrder(es, g)
    ensures DistinctCategories(Amounts(g))
    ensures BreakdownCategories(Amounts(g)) == Categories.Keys(g)
    ensures CategoryTotals(es, Amounts(g))
    ensures FirstOccurrenceOrder(es, Amounts(g))
  {
    var b := Amounts(g);
    assert BreakdownCategories(b) == Categories.Keys(g) by {
      assert forall i :: 0 <= i < |b| ==> b[i].category == g[i].category;
    }
    forall i | 0 <= i < |b|
      ensures b[i].amount == TotalSpent(Categories.InCategory(es, b[i].category))
    {
      assert Categories.EntryMatches(es, g[i]);
    }
  }

  /** `payments.map(p => ({ playerName, amount }))`. */
  function PaymentBreakdown(ps: seq<Payment>): (b: seq<PaymentLine>)
    ensures |b| == |ps|
    ensures forall i :: 0 <= i < |ps| ==> b[i] == PaymentLine(ps[i].playerName, ps[i].amount)
    decreases |ps|
  {
    if |ps| == 0 then []
    else
      var last := ps[|ps| - 1];
      PaymentBreakdown(ps[..|ps| - 1]) + [PaymentLine(last.playerName, last.amount)]
  }

  /** The payment lines add up to the total of the payments. */
  lemma {:induction false} PaymentBreakdownSum(ps: seq<Payment>)
    ensures Seqs.Sum(PaymentBreakdown(ps), PaymentLineAmount) == TotalPaid(ps)
    decreases |ps|
  {
    if |ps| > 0 {
      var init := ps[..|ps| - 1];
      PaymentBreakdownSum(init);
      var b := PaymentBreakdown(ps);
      assert b[..|b| - 1] == PaymentBreakdown(init);
    }
  }

  /** `Referee 5000` and `Referee 3000` on one match day make one entry of 8000. */
  lemma MergeExample(a: Expense, b: Expense)
    requires a.category == "Referee" && a.amount == 5000
    requires b.category == "Referee" && b.amount == 3000
    ensures ExpenseBreakdown([a, b]) == [CategoryAmount("Referee", 8000)]
  {
    Categories.MergeExample(a, b);
    var g := Categories.GroupByCategory([a, b]);
    assert Amounts(g) == [CategoryAmount("Referee", 8000)];
  }

  // ---------------------------------------------------------------------------
  // One match day

  /** The figures of one match day, the same fold in both modes. */
  function Figures(m: MatchDay, allExpenses: seq<Expense>, allPayments: seq<Payment>): (r: Row)
    ensures r.matchDayId == m.id && r.matchDate == m.matchDate && r.matchType == m.matchType
    ensures r.opponent == NullIfEmpty(m.opponent) && r.venue == NullIfEmpty(m.venue)
    ensures r.totalExpenses == TotalSpent(SpentFor(allExpenses, m.id))
    ensures r.totalPayments == TotalPaid(PaymentsOn(allPayments, m.matchDate))
    ensures r.netBalance == r.totalPayments - r.totalExpenses
    ensures Seqs.Sum(r.expenseBreakdown, CategoryAmountOf) == r.totalExpenses
    ensures Seqs.Sum(r.paymentBreakdown, PaymentLineAmount) == r.totalPayments
    ensures |r.paymentBreakdown| == |PaymentsOn(allPayments, m.matchDate)|
    ensures r.expenseBreakdown == ExpenseBreakdown(SpentFor(allExpenses, m.id))
    ensures r.paymentBreakdown == PaymentBreakdown(PaymentsOn(allPayments, m.matchDate))
  {
    var es := SpentFor(allExpenses, m.id);
    var ps := PaymentsOn(allPayments, m.matchDate);
    PaymentBreakdownSum(ps);
    Row(m.id, m.matchDate, NullIfEmpty(m.opponent), NullIfEmpty(m.venue), m.matchType,
        TotalSpent(es), TotalPaid(ps), TotalPaid(ps) - TotalSpent(es),
        ExpenseBreakdown(es), PaymentBreakdown(ps))
  }

  /** The match days carrying the given id (`.eq('id', matchDayId)`). */
  function WithId(matchDays: seq<MatchDay>, id: string): seq<MatchDay>
  {
    Seqs.Filter(matchDays, (m: MatchDay) => m.id == id)
  }

  /** No two match days share an id. */
  predicate UniqueIds(matchDays: seq<MatchDay>)
  {
    forall i, j :: 0 <= i < j < |matchDays| ==> matchDays[i].id != matchDays[j].id
  }

  /**
    Single mode: `.single()` succeeds only when exactly one match day has the id;
    otherwise the response is "Match day not found" with status 404.
   */
  function SingleReport(id: string, matchDays: seq<MatchDay>, allExpenses: seq<Expense>, allPayments: seq<Payment>): (r: Result<Detail>)
    ensures r.Err? <==> |WithId(matchDays, id)| != 1
    ensures r.Err? ==> r.failure == NotFound("Match day not found") && StatusCode(r.failure) == 404
    ensures r.Ok? ==> r.value.report.matchDayId == id && r.value.report.matchDate in set m | m in matchDays && m.id == id :: m.matchDate
    ensures r.Ok? ==> r.value.expenses == SpentFor(allExpenses, id) && r.value.payments == PaymentsOn(allPayments, r.value.report.matchDate)
    ensures r.Ok? ==> r.value.report == Figures(WithId(matchDays, id)[0], allExpenses, allPayments)
  {
    var found := WithId(matchDays, id);
    if |found| != 1 then Err(NotFound("Match day not found"))
    else
      var m := found[0];
      Ok(Detail(Figures(m, allExpenses, allPayments), SpentFor(allExpenses, id), PaymentsOn(allPayments, m.matchDate)))
  }

  /** With unique ids, the one match day carrying an id is what `.eq('id', …)` finds. */
  lemma {:induction false} WithUniqueId(matchDays: seq<MatchDay>, k: int)
    requires UniqueIds(matchDays)
    requires 0 <= k < |matchDays|
    ensures WithId(matchDays, matchDays[k].id) == [matchDays[k]]
    decreases |matchDays|
  {
    var n := |matchDays| - 1;
    var init, x := matchDays[..n], matchDays[n];
    var id := matchDays[k].id;
    Seqs.FilterAppend(init, x, (m: MatchDay) => m.id == id);
    assert matchDays == init + [x];
    if k == n {
      Seqs.FilterNone(init, (m: MatchDay) => m.id == id);
    } else {
      assert init[k] == matchDays[k];
      WithUniqueId(init, k);
    }
  }

  // ---------------------------------------------------------------------------
  // List mode

  /** `gte('match_date', start)` and `lte('match_date', end)`, each only when given. */
  predicate InRange(m: MatchDay, startDate: Option<Date>, endDate: Option<Date>)
  {
    (startDate.None? || DayNumber(m.matchDate) >= DayNumber(startDate.value))
    && (endDate.None? || DayNumber(m.matchDate) <= DayNumber(endDate.value))
  }

  /** The match days the list covers, in the order the query returned them. */
  function Selected(matchDays: seq<MatchDay>, startDate: Option<Date>, endDate: Option<Date>): (s: seq<MatchDay>)
    ensures forall i :: 0 <= i < |s| ==> s[i] in matchDays && InRange(s[i], startDate, endDate)
    ensures forall m :: m in matchDays && InRange(m, startDate, endDate) ==> m in s
    ensures Seqs.IsSubsequence(s, matchDays)
  {
    var s := Seqs.Filter(matchDays, (m: MatchDay) => InRange(m, startDate, endDate));
    forall m | m in matchDays && InRange(m, startDate, endDate)
      ensures m in s
    {
      var k :| 0 <= k < |matchDays| && matchDays[k] == m;
    }
    s
  }

  /** The `for … of` loop: one row per selected match day, in order. */
  function ListRows(selected: seq<MatchDay>, allExpenses: seq<Expense>, allPayments: seq<Payment>): (rows: seq<Row>)
    ensures |rows| == |selected|
    ensures forall i :: 0 <= i < |selected| ==> rows[i] == Figures(selected[i], allExpenses, allPayments)
  {
    seq(|selected|, i requires 0 <= i < |selected| => Figures(selected[i], allExpenses, allPayments))
  }

  /**
    The listed rows are the figures of exactly the match days in the date range:
    every row is one of them and each of them has its row.
   */
  predicate ListsRange(rows: seq<Row>, q: Query, matchDays: seq<MatchDay>, allExpenses: seq<Expense>, allPayments: seq<Payment>)
  {
    Seqs.ImagesExactly(rows, matchDays, InRangeOf(q), FiguresOf(allExpenses, allPayments))
  }

  /** The date range test of a query, as a predicate on match days. */
  function InRangeOf(q: Query): MatchDay -> bool
  {
    m => InRange(m, q.startDate, q.endDate)
  }

  function FiguresOf(allExpenses: seq<Expense>, allPayments: seq<Payment>): MatchDay -> Row
  {
    m => Figures(m, allExpenses, allPayments)
  }

  /** The handler after authentication: single mode for a non-empty id, list mode otherwise. */
  function MatchDayReport(q: Query, matchDays: seq<MatchDay>, allExpenses: seq<Expense>, allPayments: seq<Payment>): (r: Result<Response>)
    ensures (q.matchDayId.None? || q.matchDayId == Some("")) ==> r.Ok? && r.value.Listing?
    ensures r.Ok? && r.value.Listing? ==> r.value.totalRecords == |r.value.data|
    ensures r.Ok? && r.value.Listing? ==> ListsRange(r.value.data, q, matchDays, allExpenses, allPayments)
    ensures r.Ok? && r.value.Listing? ==>
      r.value.data == ListRows(Selected(matchDays, q.startDate, q.endDate), allExpenses, allPayments)
    ensures q.matchDayId.Some? && q.matchDayId.value != "" ==>
      && (r.Ok? <==> |WithId(matchDays, q.matchDayId.value)| == 1)
      && (r.Ok? ==> r.value == Single(SingleReport(q.matchDayId.value, matchDays, allExpenses, allPayments).value))
    ensures r.Err? ==> r.failure == NotFound("Match day not found")
  {
    match q.matchDayId
    case Some(id) =>
      if id != "" then
        var d := SingleReport(id, matchDays, allExpenses, allPayments);
        if d.Ok? then Ok(Single(d.value)) else Err(d.failure)
      else ListReport(q, matchDays, allExpenses, allPayments)
    case None => ListReport(q, matchDays, allExpenses, allPayments)
  }

  /** List mode: one row per match day in the date range, in the order the query returned them. */
  function ListReport(q: Query, matchDays: seq<MatchDay>, allExpenses: seq<Expense>, allPayments: seq<Payment>): (r: Result<Response>)
    ensures r.Ok? && r.value.Listing? && r.value.totalRecords == |r.value.data|
    ensures ListsRange(r.value.data, q, matchDays, allExpenses, allPayments)
    ensures r.value.data == ListRows(Selected(matchDays, q.startDate, q.endDate), allExpenses, allPayments)
  {
    var rows := ListRows(Selected(matchDays, q.startDate, q.endDate), allExpenses, allPayments);
    SelectedRows(q, matchDays, allExpenses, allPayments);
    Ok(Listing(rows, |rows|))
  }

  lemma SelectedRows(q: Query, matchDays: seq<MatchDay>, allExpenses: seq<Expense>, allPayments: seq<Payment>)
    ensures ListsRange(ListRows(Selected(matchDays, q.startDate, q.endDate), allExpenses, allPayments), q, matchDays, allExpenses, allPayments)
  {
    var selected := Selected(matchDays, q.startDate, q.endDate);
    SelectedInRange(q, matchDays);
    RowsOfSelected(selected, allExpenses, allPayments);
    Seqs.ImagesOfSelection(matchDays, selected, InRangeOf(q), FiguresOf(allExpenses, allPayments),
      ListRows(selected, allExpenses, allPayments));
  }

  lemma SelectedInRange(q: Query, matchDays: seq<MatchDay>)
    ensures Seqs.Selects(Selected(matchDays, q.startDate, q.endDate), matchDays, InRangeOf(q))
  {
  }

  lemma RowsOfSelected(selected: seq<MatchDay>, allExpenses: seq<Expense>, allPayments: seq<Payment>)
    ensures Seqs.Images(ListRows(selected, allExpenses, allPayments), selected, FiguresOf(allExpenses, allPayments))
  {
  }

  /**
    Both modes agree: with unique ids, single mode for a match day gives the very
    row list mode reports for it.
   */
  lemma SingleAgreesWithList(matchDays: seq<MatchDay>, allExpenses: seq<Expense>, allPayments: seq<Payment>, m: MatchDay)
    requires UniqueIds(matchDays)
    requires m in matchDays && m.id != ""
    ensures MatchDayReport(Query(Some(m.id), None, None), matchDays, allExpenses, allPayments)
      == Ok(Single(Detail(Figures(m, allExpenses, allPayments), SpentFor(allExpenses, m.id), PaymentsOn(allPayments, m.matchDate))))
  {
    var k :| 0 <= k < |matchDays| && matchDays[k] == m;
    WithUniqueId(matchDays, k);
  }

  /** An id no match day carries is answered with 404. */
  lemma UnknownIdNotFound(id: string, matchDays: seq<MatchDay>, allExpenses: seq<Expense>, allPayments: seq<Payment>)
    requires id != ""
    requires forall k :: 0 <= k < |matchDays| ==> matchDays[k].id != id
    ensures MatchDayReport(Query(Some(id), None, None), matchDays, allExpenses, allPayments) == Err(NotFound("Match day not found"))
  {
    Seqs.FilterNone(matchDays, (m: MatchDay) => m.id == id);
  }
}

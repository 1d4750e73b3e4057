/**
  The daily financial summary: the payments and expenses recorded on one date,
  their totals and net, the number of distinct paying players, per-type payment
  buckets, per-category expense totals, and both lists newest first.
 */
module DailyReport {
  import opened Common
  import opened Calendar
  import opened Records
  import Seqs
  import Categories

  datatype Bucket = Bucket(count: nat, amount: int)

  /** `paymentsByType`: only the four known payment types have a bucket. */
  datatype ByType = ByType(annual: Bucket, monthly: Bucket, pitch: Bucket, matchday: Bucket)

  datatype Summary = Summary(
    totalPayments: int, totalExpenses: int, netAmount: int,
    paymentsCount: nat, expensesCount: nat, uniquePlayers: nat,
    paymentsByType: ByType, expensesByCategory: seq<Categories.CategoryTotal>)

  datatype Daily = Daily(selectedDate: Date, payments: seq<Payment>, expenses: seq<Expense>, summary: Summary)

  const EmptyBuckets: ByType := ByType(Bucket(0, 0), Bucket(0, 0), Bucket(0, 0), Bucket(0, 0))

  function AddTo(b: Bucket, amount: int): Bucket
  {
    Bucket(b.count + 1, b.amount + amount)
  }

  /** One payment of the `forEach`: counted in its type's bucket, ignored when the type has none. */
  function Tally(t: ByType, p: Payment): ByType
  {
    match p.paymentType
    case Annual => t.(annual := AddTo(t.annual, p.amount))
    case Monthly => t.(monthly := AddTo(t.monthly, p.amount))
    case Pitch => t.(pitch := AddTo(t.pitch, p.amount))
    case Matchday => t.(matchday := AddTo(t.matchday, p.amount))
    case Unknown(_) => t
  }

  /** The bucket that gathers exactly the payments of type `ty`. */
  function BucketOf(ps: seq<Payment>, ty: PaymentType): Bucket
  {
    Bucket(|OfType(ps, ty)|, TotalPaid(OfType(ps, ty)))
  }

  /** The buckets after one left-to-right pass over the payments. */
  function GroupByType(ps: seq<Payment>): (t: ByType)
    ensures t.annual == BucketOf(ps, Annual)
    ensures t.monthly == BucketOf(ps, Monthly)
    ensures t.pitch == BucketOf(ps, Pitch)
    ensures t.matchday == BucketOf(ps, Matchday)
    decreases |ps|
  {
    if |ps| == 0 then EmptyBuckets
    else
      var init, p := ps[..|ps| - 1], ps[|ps| - 1];
      OfTypeLast(ps, Annual);
      OfTypeLast(ps, Monthly);
      OfTypeLast(ps, Pitch);
      OfTypeLast(ps, Matchday);
      TotalPaidMaybeSnoc(OfType(init, Annual), p, p.paymentType == Annual);
      TotalPaidMaybeSnoc(OfType(init, Monthly), p, p.paymentType == Monthly);
      TotalPaidMaybeSnoc(OfType(init, Pitch), p, p.paymentType == Pitch);
      TotalPaidMaybeSnoc(OfType(init, Matchday), p, p.paymentType == Matchday);
      Tally(GroupByType(init), p)
  }

  function BucketCounts(t: ByType): int
  {
    t.annual.count + t.monthly.count + t.pitch.count + t.matchday.count
  }

  function BucketAmounts(t: ByType): int
  {
    t.annual.amount + t.monthly.amount + t.pitch.amount + t.matchday.amount
  }

  /** No payment lands in two buckets: the bucket counts add up to the payments of a known type. */
  lemma BucketCountsBound(ps: seq<Payment>)
    ensures BucketCounts(GroupByType(ps)) == |ps| - |OfUnknownType(ps)|
    ensures BucketCounts(GroupByType(ps)) <= |ps|
    ensures (forall i :: 0 <= i < |ps| ==> !ps[i].paymentType.Unknown?) ==> BucketCounts(GroupByType(ps)) == |ps|
  {
    TypePartitionCount(ps);
    if forall i :: 0 <= i < |ps| ==> !ps[i].paymentType.Unknown? {
      Seqs.FilterNone(ps, (p: Payment) => p.paymentType.Unknown?);
    }
  }

  /** The bucket amounts are the total less the payments of unknown type. */
  lemma BucketAmountsTotal(ps: seq<Payment>)
    ensures BucketAmounts(GroupByType(ps)) == TotalPaid(ps) - TotalPaid(OfUnknownType(ps))
  {
    TypePartition(ps);
  }

  /** The ordering key of both lists: `created_at`, then the amount, larger first. */
  function PaymentKey(p: Payment): (int, int)
  {
    (p.createdAt, p.amount)
  }

  function ExpenseKey(e: Expense): (int, int)
  {
    (e.createdAt, e.amount)
  }

  /** The ids of the paying players, without repetition (`new Set(payments.map(p => p.playerId))`). */
  function PlayerIds(ps: seq<Payment>): set<string>
  {
    set i | 0 <= i < |ps| :: ps[i].playerId
  }

  lemma {:induction false} PlayerIdsBound(ps: seq<Payment>)
    ensures |PlayerIds(ps)| <= |ps|
    ensures |ps| > 0 ==> |PlayerIds(ps)| >= 1
    decreases |ps|
  {
    if |ps| > 0 {
      var init := ps[..|ps| - 1];
      assert PlayerIds(ps) == PlayerIds(init) + {ps[|ps| - 1].playerId};
      PlayerIdsBound(init);
    }
  }

  /**
    The daily report for the `date` query parameter (`None` when it is missing
    or empty) over the whole ledger and expense list.
   */
  function DailyReport(date: Option<Date>, ledger: seq<Payment>, allExpenses: seq<Expense>): (r: Result<Daily>)
    ensures date.None? <==> r == Err(BadRequest("Date parameter is required"))
    ensures r.Ok? ==> r.value.selectedDate == date.value
    ensures r.Ok? ==> var d := r.value; var ps := PaidOn(ledger, date.value); var es := SpentOn(allExpenses, date.value);
      && multiset(d.payments) == multiset(ps) && multiset(d.expenses) == multiset(es)
      && Seqs.SortedDesc(d.payments, PaymentKey) && Seqs.SortedDesc(d.expenses, ExpenseKey)
      && d.summary.totalPayments == TotalPaid(ps) && d.summary.totalExpenses == TotalSpent(es)
      && d.summary.netAmount == d.summary.totalPayments - d.summary.totalExpenses
      && d.summary.paymentsCount == |ps| && d.summary.expensesCount == |es|
      && d.summary.uniquePlayers == |PlayerIds(ps)| <= |ps|
      && d.summary.paymentsByType == GroupByType(ps)
      && d.summary.expensesByCategory == Categories.GroupByCategory(es)
  {
    match date
    case None => Err(BadRequest("Date parameter is required"))
    case Some(day) =>
      var ps := PaidOn(ledger, day);
      var es := SpentOn(allExpenses, day);
      PlayerIdsBound(ps);
      var summary := Summary(
        TotalPaid(ps), TotalSpent(es), TotalPaid(ps) - TotalSpent(es),
        |ps|, |es|, |PlayerIds(ps)|, GroupByType(ps), Categories.GroupByCategory(es));
      Ok(Daily(day, Seqs.SortDesc(ps, PaymentKey), Seqs.SortDesc(es, ExpenseKey), summary))
  }

  /** The sorted lists carry the same totals as the unsorted ones. */
  lemma SortKeepsTotals(ps: seq<Payment>, es: seq<Expense>)
    ensures TotalPaid(Seqs.SortDesc(ps, PaymentKey)) == TotalPaid(ps)
    ensures TotalSpent(Seqs.SortDesc(es, ExpenseKey)) == TotalSpent(es)
  {
    Seqs.SumPermutation(Seqs.SortDesc(ps, PaymentKey), ps, PaymentAmount);
    Seqs.SumPermutation(Seqs.SortDesc(es, ExpenseKey), es, ExpenseAmount);
  }

  /**
    The per-category entries of a day cover every expense of that day once: their
    counts add up to the expense count and their amounts to the total spent.
   */
  lemma CategoryTotalsMatch(date: Date, ledger: seq<Payment>, allExpenses: seq<Expense>)
    ensures var d := DailyReport(Some(date), ledger, allExpenses).value;
      && Seqs.Sum(d.summary.expensesByCategory, Categories.CountOf) == d.summary.expensesCount
      && Seqs.Sum(d.summary.expensesByCategory, Categories.AmountOf) == d.summary.totalExpenses
      && Categories.DistinctCategories(d.summary.expensesByCategory)
  {
    var es := SpentOn(allExpenses, date);
    Categories.GroupCountsSum(es);
    Categories.GroupAmountsSum(es);
  }
}

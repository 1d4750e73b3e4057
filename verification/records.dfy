/**
  The stored entities the reports read (players, payments, expenses, match days)
  and the ledger filters and totals every report is built from.
 */
module Records {
  import opened Common
  import opened Calendar
  import Seqs

  /** `payment_type`; any other string read from the store is kept as `Unknown`. */
  datatype PaymentType = Annual | Monthly | Pitch | Matchday | Unknown(name: string)

  /** The text stored in `payment_type`. */
  function TypeName(t: PaymentType): string
  {
    match t
    case Annual => "annual"
    case Monthly => "monthly"
    case Pitch => "pitch"
    case Matchday => "matchday"
    case Unknown(name) => name
  }

  /** The four names the handlers compare `payment_type` against. */
  predicate IsKnownName(name: string)
  {
    name == "annual" || name == "monthly" || name == "pitch" || name == "matchday"
  }

  /** Each stored name has one representation: `Unknown` never carries a known name. */
  predicate CanonicalType(t: PaymentType)
  {
    t.Unknown? ==> !IsKnownName(t.name)
  }

  /** Reading `payment_type` as the handlers' string comparisons classify it. */
  function ReadType(name: string): (t: PaymentType)
    ensures CanonicalType(t)
    ensures TypeName(t) == name
    ensures t.Unknown? <==> !IsKnownName(name)
  {
    if name == "annual" then Annual
    else if name == "monthly" then Monthly
    else if name == "pitch" then Pitch
    else if name == "matchday" then Matchday
    else Unknown(name)
  }

  /** A canonical type is what reading its own name gives back. */
  lemma ReadTypeName(t: PaymentType)
    requires CanonicalType(t)
    ensures ReadType(TypeName(t)) == t
  {
  }

  /** Player dues are amounts in the smallest currency unit. */
  datatype Player = Player(
    id: string, name: string, phone: string,
    annual: int, monthly: int, pitch: int, matchDay: Option<int>)

  datatype Payment = Payment(
    id: string, playerId: string, playerName: string,
    paymentType: PaymentType, amount: int, date: Date, createdAt: int)

  datatype Expense = Expense(
    id: string, description: string, category: string, amount: int,
    expenseDate: Date, matchDayId: Option<string>, createdAt: int)

  datatype MatchDay = MatchDay(
    id: string, matchDate: Date, opponent: Option<string>, venue: Option<string>, matchType: string)

  function PaymentAmount(p: Payment): int
  {
    p.amount
  }

  function ExpenseAmount(e: Expense): int
  {
    e.amount
  }

  /** `payments.reduce((sum, p) => sum + p.amount, 0)`. */
  function TotalPaid(ps: seq<Payment>): int
  {
    Seqs.Sum(ps, PaymentAmount)
  }

  /** `expenses.reduce((sum, e) => sum + e.amount, 0)`. */
  function TotalSpent(es: seq<Expense>): int
  {
    Seqs.Sum(es, ExpenseAmount)
  }

  lemma TotalPaidAppend(a: seq<Payment>, b: seq<Payment>)
    ensures TotalPaid(a + b) == TotalPaid(a) + TotalPaid(b)
  {
    Seqs.SumAppend(a, b, PaymentAmount);
  }

  function OfPlayer(ps: seq<Payment>, playerId: string): seq<Payment>
  {
    Seqs.Filter(ps, (p: Payment) => p.playerId == playerId)
  }

  function OfType(ps: seq<Payment>, t: PaymentType): seq<Payment>
  {
    Seqs.Filter(ps, (p: Payment) => p.paymentType == t)
  }

  function OfUnknownType(ps: seq<Payment>): seq<Payment>
  {
    Seqs.Filter(ps, (p: Payment) => p.paymentType.Unknown?)
  }

  /** Payments recorded on exactly the given date. */
  function PaidOn(ps: seq<Payment>, d: Date): seq<Payment>
  {
    Seqs.Filter(ps, (p: Payment) => p.date == d)
  }

  /** Expenses dated on exactly the given date. */
  function SpentOn(es: seq<Expense>, d: Date): seq<Expense>
  {
    Seqs.Filter(es, (e: Expense) => e.expenseDate == d)
  }

  /** Expenses attached to the match day with the given id. */
  function SpentFor(es: seq<Expense>, matchDayId: string): seq<Expense>
  {
    Seqs.Filter(es, (e: Expense) => e.matchDayId == Some(matchDayId))
  }

  /**
    The date of the first payment once `ps` is sorted by date, newest first
    (`sort((a, b) => new Date(b.date) - new Date(a.date))[0].date`), or null.
   */
  function LatestDate(ps: seq<Payment>): (d: Option<Date>)
    ensures d.None? <==> |ps| == 0
    ensures d.Some? ==> exists i :: 0 <= i < |ps| && ps[i].date == d.value
    ensures d.Some? ==> exists p :: p in ps && p.date == d.value
    ensures d.Some? ==> forall i :: 0 <= i < |ps| ==> DayNumber(ps[i].date) <= DayNumber(d.value)
    decreases |ps|
  {
    if |ps| == 0 then None
    else
      var init, last := ps[..|ps| - 1], ps[|ps| - 1];
      assert forall k :: 0 <= k < |init| ==> init[k] == ps[k];
      var earlier := LatestDate(init);
      if earlier.None? || DayNumber(last.date) > DayNumber(earlier.value) then Some(last.date)
      else earlier
  }

  lemma TotalPaidSnoc(a: seq<Payment>, x: Payment)
    ensures TotalPaid(a + [x]) == TotalPaid(a) + x.amount
  {
    assert (a + [x])[..|a|] == a;
  }

  /** Adding a payment to a filtered ledger adds its amount when it passes the filter. */
  lemma TotalPaidMaybeSnoc(a: seq<Payment>, x: Payment, keep: bool)
    ensures TotalPaid(a + (if keep then [x] else [])) == TotalPaid(a) + (if keep then x.amount else 0)
  {
    if keep {
      TotalPaidSnoc(a, x);
    } else {
      assert a + [] == a;
    }
  }

  lemma OfTypeLast(ps: seq<Payment>, t: PaymentType)
    requires |ps| > 0
    ensures OfType(ps, t) == OfType(ps[..|ps| - 1], t) + (if ps[|ps| - 1].paymentType == t then [ps[|ps| - 1]] else [])
  {
  }

  lemma OfUnknownTypeLast(ps: seq<Payment>)
    requires |ps| > 0
    ensures OfUnknownType(ps) == OfUnknownType(ps[..|ps| - 1]) + (if ps[|ps| - 1].paymentType.Unknown? then [ps[|ps| - 1]] else [])
  {
  }

  /**
    Every payment counts towards exactly one of the four known types or towards
    the unknown ones, so the per-type totals add up to the whole.
   */
  lemma {:induction false} TypePartition(ps: seq<Payment>)
    ensures TotalPaid(ps) ==
      TotalPaid(OfType(ps, Annual)) + TotalPaid(OfType(ps, Monthly)) +
      TotalPaid(OfType(ps, Pitch)) + TotalPaid(OfType(ps, Matchday)) +
      TotalPaid(OfUnknownType(ps))
    decreases |ps|
  {
    if |ps| > 0 {
      var init := ps[..|ps| - 1];
      var x := ps[|ps| - 1];
      var t := x.paymentType;
      TypePartition(init);
      OfTypeLast(ps, Annual);
      OfTypeLast(ps, Monthly);
      OfTypeLast(ps, Pitch);
      OfTypeLast(ps, Matchday);
      OfUnknownTypeLast(ps);
      TotalPaidMaybeSnoc(OfType(init, Annual), x, t == Annual);
      TotalPaidMaybeSnoc(OfType(init, Monthly), x, t == Monthly);
      TotalPaidMaybeSnoc(OfType(init, Pitch), x, t == Pitch);
      TotalPaidMaybeSnoc(OfType(init, Matchday), x, t == Matchday);
      TotalPaidMaybeSnoc(OfUnknownType(init), x, t.Unknown?);
    }
  }

  /** The same partition counted: each payment is in exactly one type bucket. */
  lemma {:induction false} TypePartitionCount(ps: seq<Payment>)
    ensures |ps| ==
      |OfType(ps, Annual)| + |OfType(ps, Monthly)| + |OfType(ps, Pitch)| +
      |OfType(ps, Matchday)| + |OfUnknownType(ps)|
    decreases |ps|
  {
    if |ps| > 0 {
      TypePartitionCount(ps[..|ps| - 1]);
      OfTypeLast(ps, Annual);
      OfTypeLast(ps, Monthly);
      OfTypeLast(ps, Pitch);
      OfTypeLast(ps, Matchday);
      OfUnknownTypeLast(ps);
    }
  }

  /** Every payment amount is non-negative (amounts are positive in the store). */
  predicate NonNegativeAmounts(ps: seq<Payment>)
  {
    forall i :: 0 <= i < |ps| ==> ps[i].amount >= 0
  }

  lemma TotalPaidNonNegative(ps: seq<Payment>)
    requires NonNegativeAmounts(ps)
    ensures TotalPaid(ps) >= 0
  {
    Seqs.SumNonNegative(ps, PaymentAmount);
  }
}

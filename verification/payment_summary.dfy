/**
  The payment-type summary: one pass over every payment, adding each amount to
  the grand total and to the total of its type when the type is one of the four
  known ones.
 */
module PaymentSummary {
  import opened Records
  import Seqs

  datatype Stats = Stats(
    annualTotal: int, monthlyTotal: int, pitchTotal: int, matchdayTotal: int,
    totalAmount: int, totalPayments: nat)

  /** The per-type totals, left out the payments of unknown type. */
  function KnownTypesTotal(s: Stats): int
  {
    s.annualTotal + s.monthlyTotal + s.pitchTotal + s.matchdayTotal
  }

  /** The `forEach` over all payments with its `switch` on the payment type. */
  method Summarize(ps: seq<Payment>) returns (s: Stats)
    ensures s.totalPayments == |ps|
    ensures s.totalAmount == TotalPaid(ps)
    ensures s.annualTotal == TotalPaid(OfType(ps, Annual))
    ensures s.monthlyTotal == TotalPaid(OfType(ps, Monthly))
    ensures s.pitchTotal == TotalPaid(OfType(ps, Pitch))
    ensures s.matchdayTotal == TotalPaid(OfType(ps, Matchday))
    ensures KnownTypesTotal(s) == s.totalAmount - TotalPaid(OfUnknownType(ps))
    ensures NonNegativeAmounts(ps) ==> KnownTypesTotal(s) <= s.totalAmount
    ensures (forall i :: 0 <= i < |ps| ==> !ps[i].paymentType.Unknown?) ==> KnownTypesTotal(s) == s.totalAmount
  {
    s := Stats(0, 0, 0, 0, 0, |ps|);
    var i := 0;
    while i < |ps|
      invariant 0 <= i <= |ps|
      invariant s.totalPayments == |ps|
      invariant s.totalAmount == TotalPaid(ps[..i])
      invariant s.annualTotal == TotalPaid(OfType(ps[..i], Annual))
      invariant s.monthlyTotal == TotalPaid(OfType(ps[..i], Monthly))
      invariant s.pitchTotal == TotalPaid(OfType(ps[..i], Pitch))
      invariant s.matchdayTotal == TotalPaid(OfType(ps[..i], Matchday))
    {
      var p := ps[i];
      var prefix := ps[..i + 1];
      assert prefix[..i] == ps[..i] && prefix[i] == p;
      OfTypeLast(prefix, Annual);
      OfTypeLast(prefix, Monthly);
      OfTypeLast(prefix, Pitch);
      OfTypeLast(prefix, Matchday);
      TotalPaidMaybeSnoc(OfType(ps[..i], Annual), p, p.paymentType == Annual);
      TotalPaidMaybeSnoc(OfType(ps[..i], Monthly), p, p.paymentType == Monthly);
      TotalPaidMaybeSnoc(OfType(ps[..i], Pitch), p, p.paymentType == Pitch);
      TotalPaidMaybeSnoc(OfType(ps[..i], Matchday), p, p.paymentType == Matchday);
      s := s.(totalAmount := s.totalAmount + p.amount);
      match p.paymentType {
        case Annual => s := s.(annualTotal := s.annualTotal + p.amount);
        case Monthly => s := s.(monthlyTotal := s.monthlyTotal + p.amount);
        case Pitch => s := s.(pitchTotal := s.pitchTotal + p.amount);
        case Matchday => s := s.(matchdayTotal := s.matchdayTotal + p.amount);
        case Unknown(_) =>
      }
      i := i + 1;
    }
    assert ps[..i] == ps;
    TypePartition(ps);
    if NonNegativeAmounts(ps) {
      var u := OfUnknownType(ps);
      assert NonNegativeAmounts(u);
      TotalPaidNonNegative(u);
    }
    if forall k :: 0 <= k < |ps| ==> !ps[k].paymentType.Unknown? {
      Seqs.FilterNone(ps, (p: Payment) => p.paymentType.Unknown?);
    }
  }
}

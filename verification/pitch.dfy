/**
  The pitch dues report: one row per (player, month) with the month's pitch
  payments, a carryover accumulated since the start of the fiscal year, the
  clamped balance and a two-way status. With no month selected it covers every
  month from July 2025 through the current one.
 */
module PitchReport {
  import opened Common
  import opened Calendar
  import opened Records
  import Seqs
  import Text

  /** The fiscal year starts in July. */
  const FiscalStartMonth: int := 7

  /** The first fiscal year of the club's books starts in July 2025. */
  const FirstFiscalYear: int := 2025

  /** The month index of July 2025, where the "all months" listing starts. */
  const FirstMonthIndex: int := FirstFiscalYear * 12 + (FiscalStartMonth - 1)

  datatype Status = Complete | Incomplete

  /** The `month` query parameter: `all` (the default) or a single month of `year`. */
  datatype MonthSelection = AllMonths | OneMonth(month: int)

  datatype Row = Row(
    playerId: string, playerName: string, phone: string,
    expectedAmount: int, amountPaid: int, balance: int,
    carryoverAmount: int, totalAmount: int, paymentCount: nat,
    lastPaymentDate: Option<Date>, status: Status, monthKey: string)

  /** `month` is `None` for `all`. */
  datatype Summary = Summary(
    month: Option<int>, year: int, totalPlayers: nat,
    totalExpected: int, totalPaid: int, totalBalance: int, totalCarryover: int,
    completeCount: nat, incompleteCount: nat)

  datatype Report = Report(summary: Summary, data: seq<Row>, totalRecords: nat)

  // ---------------------------------------------------------------------------
  // Month keys

  /**
    A key whose text splits back into its own year and month: neither number
    carries a minus sign that `split('-')` would cut at.
   */
  predicate KeyInRange(k: MonthKey)
  {
    k.year >= 0 && k.month >= 0
  }

  /**
    The calendar month `new Date(yearNum, monthNum - 1, 1)` lands in. A year from
    0 to 99 is read as 1900 + year (FullYear); then a month number past 12 rolls
    into the following years, month 0 into the December before, and a month
    from 1 to 12 is itself.
   */
  function Window(k: MonthKey): (w: MonthKey)
    ensures ValidMonthKey(w)
    ensures MonthIndex(w) == FullYear(k.year) * 12 + k.month - 1
    ensures ValidMonthKey(k) ==> w == MonthKey(FullYear(k.year), k.month)
  {
    var w := MonthAt(FullYear(k.year) * 12 + k.month - 1);
    MonthIndexInjective(w, MonthKey(FullYear(k.year), if ValidMonthKey(k) then k.month else 1));
    w
  }

  /** `${y}-${String(m).padStart(2, '0')}`. */
  function FormatMonthKey(k: MonthKey): (s: string)
    requires KeyInRange(k)
    ensures |s| >= |Text.NatToString(k.year)| + 3 && s[|Text.NatToString(k.year)|] == '-'
  {
    Text.NatToString(k.year) + "-" + Text.PadStart2(Text.NatToString(k.month))
  }

  /** The index of the first `-` in `s`, or `|s|` when there is none. */
  function DashIndex(s: string): (i: nat)
    ensures i <= |s|
    ensures forall j :: 0 <= j < i ==> s[j] != '-'
    ensures i < |s| ==> s[i] == '-'
    decreases |s|
  {
    if |s| == 0 then 0
    else if s[0] == '-' then 0
    else 1 + DashIndex(s[1..])
  }

  /**
    `const [yearStr, monthStr] = monthKey.split('-')` followed by `parseInt` on
    both parts; a key that does not split into two numbers has no month.
   */
  function ParseMonthKey(s: string): (k: Option<MonthKey>)
    ensures k.Some? ==> Text.AllDigits(s[..DashIndex(s)])
  {
    var i := DashIndex(s);
    if i == |s| then None
    else
      var rest := s[i + 1..];
      var monthStr := rest[..DashIndex(rest)];
      match (Text.ParseNat(s[..i]), Text.ParseNat(monthStr))
      case (Some(y), Some(m)) => Some(MonthKey(y, m))
      case _ => None
  }

  lemma DashIndexOfDigits(a: string, b: string)
    requires Text.AllDigits(a)
    ensures DashIndex(a + b) == |a| + DashIndex(b)
    decreases |a|
  {
    if |a| > 0 {
      assert (a + b)[1..] == a[1..] + b;
      DashIndexOfDigits(a[1..], b);
    } else {
      assert a + b == b;
    }
  }

  /** Splitting a formatted key at its dash and parsing both halves gives the month back. */
  lemma ParseFormatMonthKey(k: MonthKey)
    requires KeyInRange(k)
    ensures ParseMonthKey(FormatMonthKey(k)) == Some(k)
  {
    var ys := Text.NatToString(k.year);
    var ms := Text.PadStart2(Text.NatToString(k.month));
    PaddedMonth(k.month);
    SplitAtDash(ys, ms);
    Text.ParseNatToString(k.year);
    assert FormatMonthKey(k) == ys + "-" + ms;
  }

  /** The padded month is all digits, has no dash and parses back to the month. */
  lemma PaddedMonth(m: nat)
    ensures var ms := Text.PadStart2(Text.NatToString(m));
      Text.AllDigits(ms) && DashIndex(ms) == |ms| && Text.ParseNat(ms) == Some(m)
  {
    var ds := Text.NatToString(m);
    Text.ParseNatToString(m);
    Text.PadDigits(ds);
    DigitsHaveNoDash(Text.PadStart2(ds));
  }

  lemma DigitsHaveNoDash(s: string)
    requires Text.AllDigits(s)
    ensures DashIndex(s) == |s|
  {
    DashIndexOfDigits(s, "");
    assert s + "" == s;
  }

  /** `ys-ms` with digits before the dash splits into `ys` and `ms`. */
  lemma SplitAtDash(ys: string, ms: string)
    requires Text.AllDigits(ys) && DashIndex(ms) == |ms|
    ensures var s := ys + "-" + ms;
      DashIndex(s) == |ys| && s[..|ys|] == ys && s[|ys| + 1..] == ms
      && s[|ys| + 1..][..DashIndex(s[|ys| + 1..])] == ms
  {
    Seqs.AroundOne(ys, '-', ms);
    DashIndexOfDigits(ys, "-" + ms);
  }

  lemma FourDigits(n: nat)
    requires 1000 <= n < 10000
    ensures |Text.NatToString(n)| == 4
  {
    assert |Text.NatToString(n / 1000)| == 1;
    assert |Text.NatToString(n / 100)| == |Text.NatToString(n / 100 / 10)| + 1;
    assert n / 100 / 10 == n / 1000;
    assert |Text.NatToString(n / 10)| == |Text.NatToString(n / 10 / 10)| + 1;
    assert n / 10 / 10 == n / 100;
  }

  /** For four-digit years a key is `YYYY-MM`: seven characters with the dash in the middle. */
  lemma MonthKeyShape(k: MonthKey)
    requires ValidMonthKey(k) && 1000 <= k.year < 10000
    ensures |FormatMonthKey(k)| == 7 && FormatMonthKey(k)[4] == '-'
    ensures Text.AllDigits(FormatMonthKey(k)[..4]) && Text.AllDigits(FormatMonthKey(k)[5..])
  {
    var ys := Text.NatToString(k.year);
    var ms := Text.PadStart2(Text.NatToString(k.month));
    FourDigits(k.year);
    PaddedMonth(k.month);
    TwoDigits(k.month);
    Seqs.AroundOne(ys, '-', ms);
    assert FormatMonthKey(k) == ys + ['-'] + ms;
  }

  /** A month number below 100 pads to exactly two digits. */
  lemma TwoDigits(m: nat)
    requires m < 100
    ensures |Text.PadStart2(Text.NatToString(m))| == 2
  {
    if m >= 10 {
      assert |Text.NatToString(m / 10)| == 1;
    }
  }

  // ---------------------------------------------------------------------------
  // Month enumeration

  /** The consecutive months with indices `lo` (inclusive) to `hi` (exclusive). */
  function MonthRange(lo: int, hi: int): (ks: seq<MonthKey>)
    ensures |ks| == if hi > lo then hi - lo else 0
    ensures forall i :: 0 <= i < |ks| ==> ks[i] == MonthAt(lo + i)
  {
    seq(if hi > lo then hi - lo else 0, i => MonthAt(lo + i))
  }

  lemma MonthRangeSnoc(lo: int, hi: int)
    requires lo <= hi
    ensures MonthRange(lo, hi + 1) == MonthRange(lo, hi) + [MonthAt(hi)]
  {
  }

  lemma MonthRangeEmpty(lo: int, hi: int)
    requires hi <= lo
    ensures MonthRange(lo, hi) == []
  {
  }

  /** Every month from July 2025 through the month of `today`, in order. */
  function MonthsThrough(today: Date): seq<MonthKey>
  {
    MonthRange(FirstMonthIndex, MonthIndex(MonthOf(today)) + 1)
  }

  /**
    The `month === 'all'` branch: for each year from 2025 to the current one, the
    months from July (in 2025) or January through December or the current month.
   */
  method EnumerateMonths(today: Date) returns (keys: seq<MonthKey>)
    ensures keys == MonthsThrough(today)
    ensures forall i :: 0 <= i < |keys| ==> ValidMonthKey(keys[i]) && keys[i].year >= FirstFiscalYear
    ensures |keys| > 0 ==> keys[0] == MonthKey(FirstFiscalYear, FiscalStartMonth) && keys[|keys| - 1] == MonthOf(today)
    ensures forall i :: 0 <= i < |keys| - 1 ==> MonthIndex(keys[i + 1]) == MonthIndex(keys[i]) + 1
  {
    var last := MonthIndex(MonthOf(today));
    keys := [];
    var y := FirstFiscalYear;
    NothingBeforeStart(last);
    while y <= today.year
      invariant FirstFiscalYear <= y <= if today.year >= FirstFiscalYear then today.year + 1 else FirstFiscalYear
      invariant keys == MonthRange(FirstMonthIndex, YearCap(y, last))
      decreases today.year - y
    {
      keys := AppendYear(keys, y, today);
      y := y + 1;
    }
    AllYearsCovered(today, y);
    MonthsThroughShape(today);
  }

  lemma NothingBeforeStart(last: int)
    ensures MonthRange(FirstMonthIndex, YearCap(FirstFiscalYear, last)) == []
  {
    MonthRangeEmpty(FirstMonthIndex, YearCap(FirstFiscalYear, last));
  }

  /** Once every year through today's has been added, the listing reaches today's month. */
  lemma AllYearsCovered(today: Date, y: int)
    requires y == if today.year >= FirstFiscalYear then today.year + 1 else FirstFiscalYear
    ensures MonthRange(FirstMonthIndex, YearCap(y, MonthIndex(MonthOf(today)))) == MonthsThrough(today)
  {
    var last := MonthIndex(MonthOf(today));
    if today.year < FirstFiscalYear {
      MonthRangeEmpty(FirstMonthIndex, last + 1);
      MonthRangeEmpty(FirstMonthIndex, YearCap(y, last));
    } else {
      assert YearCap(y, last) == last + 1;
    }
  }

  /** Where the listing stands before year `y`: every month before `y` and not after `last`. */
  function YearCap(y: int, last: int): int
  {
    Min(Max(FirstMonthIndex, y * 12), last + 1)
  }

  /**
    One pass of the outer loop: the months of year `y`, from July (in 2025) or
    January through December or the current month, appended in order.
   */
  method AppendYear(keys0: seq<MonthKey>, y: int, today: Date) returns (keys: seq<MonthKey>)
    requires FirstFiscalYear <= y <= today.year
    requires keys0 == MonthRange(FirstMonthIndex, YearCap(y, MonthIndex(MonthOf(today))))
    ensures keys == MonthRange(FirstMonthIndex, YearCap(y + 1, MonthIndex(MonthOf(today))))
  {
    var last := MonthIndex(MonthOf(today));
    keys := keys0;
    var startMonth := if y == FirstFiscalYear then FiscalStartMonth else 1;
    var endMonth := if y == today.year then today.month else 12;
    if startMonth > endMonth {
      // July 2025 has not come yet: the year adds nothing.
      assert YearCap(y + 1, last) == YearCap(y, last);
      return;
    }
    var cap := y * 12 + startMonth - 1;
    assert cap == YearCap(y, last);
    var m := startMonth;
    while m <= endMonth
      invariant startMonth <= m <= endMonth + 1
      invariant keys == MonthRange(FirstMonthIndex, cap + (m - startMonth))
      decreases endMonth - m
    {
      MonthRangeSnoc(FirstMonthIndex, y * 12 + m - 1);
      keys := keys + [MonthKey(y, m)];
      m := m + 1;
    }
  }

  /** The months through `today` are valid, start in July 2025, end with today's month and run consecutively. */
  lemma MonthsThroughShape(today: Date)
    ensures var keys := MonthsThrough(today);
      && (forall i :: 0 <= i < |keys| ==> ValidMonthKey(keys[i]) && keys[i].year >= FirstFiscalYear)
      && (|keys| > 0 ==> keys[0] == MonthKey(FirstFiscalYear, FiscalStartMonth) && keys[|keys| - 1] == MonthOf(today))
      && (forall i :: 0 <= i < |keys| - 1 ==> MonthIndex(keys[i + 1]) == MonthIndex(keys[i]) + 1)
  {
    var keys := MonthsThrough(today);
    if |keys| > 0 {
      MonthIndexInjective(keys[0], MonthKey(FirstFiscalYear, FiscalStartMonth));
      MonthIndexInjective(keys[|keys| - 1], MonthOf(today));
    }
  }

  function Min(a: int, b: int): int
  {
    if a <= b then a else b
  }

  // ---------------------------------------------------------------------------
  // One row

  /** A player's payments dated between the first and the last day of the month the key lands in. */
  function PaymentsInMonth(payments: seq<Payment>, playerId: string, k: MonthKey): seq<Payment>
  {
    PaymentsDuring(payments, playerId, Window(k))
  }

  function PaymentsDuring(payments: seq<Payment>, playerId: string, w: MonthKey): seq<Payment>
    requires ValidMonthKey(w)
  {
    Seqs.Filter(payments, (p: Payment) =>
      p.playerId == playerId && DayNumber(FirstDay(w)) <= DayNumber(p.date) <= DayNumber(LastDay(w)))
  }

  /**
    Month 13 reads the payments of January of the next year and month 0 those of
    the December before, as `new Date(yearNum, monthNum - 1, 1)` rolls them over.
   */
  lemma MonthRollsOver(payments: seq<Payment>, playerId: string, y: int)
    ensures PaymentsInMonth(payments, playerId, MonthKey(y, 13)) == PaymentsDuring(payments, playerId, MonthKey(FullYear(y) + 1, 1))
    ensures PaymentsInMonth(payments, playerId, MonthKey(y, 0)) == PaymentsDuring(payments, playerId, MonthKey(FullYear(y) - 1, 12))
  {
    MonthIndexInjective(Window(MonthKey(y, 13)), MonthKey(FullYear(y) + 1, 1));
    MonthIndexInjective(Window(MonthKey(y, 0)), MonthKey(FullYear(y) - 1, 12));
  }

  /** A two-digit year is a year of the 1900s: key (y, m) reads the payments of month m of 1900 + y. */
  lemma TwoDigitYears(payments: seq<Payment>, playerId: string, y: int, m: int)
    requires 0 <= y <= 99 && 1 <= m <= 12
    ensures PaymentsInMonth(payments, playerId, MonthKey(y, m)) == PaymentsDuring(payments, playerId, MonthKey(1900 + y, m))
  {
  }

  /** `year=50&month=3` counts a pitch payment dated 1950-03-10. */
  lemma TwoDigitYearExample(payments: seq<Payment>, p: Payment)
    requires p in payments && p.date == CivilDate(1950, 3, 10)
    ensures p in PaymentsInMonth(payments, p.playerId, MonthKey(50, 3))
  {
    PaymentsInMonthMeaning(payments, p.playerId, MonthKey(50, 3), p);
    assert MonthOf(p.date) == MonthKey(1950, 3);
  }

  /** The month window holds exactly the player's payments whose date is in the month the key lands in. */
  lemma PaymentsInMonthMeaning(payments: seq<Payment>, playerId: string, k: MonthKey, p: Payment)
    ensures p in PaymentsInMonth(payments, playerId, k) <==>
      p in payments && p.playerId == playerId && MonthOf(p.date) == Window(k)
  {
    WithinMonth(p.date, Window(k));
    if p in payments && p.playerId == playerId && MonthOf(p.date) == Window(k) {
      var i :| 0 <= i < |payments| && payments[i] == p;
    }
  }

  /** A month after July 2025 accrues a carryover (`monthNum > 7 || yearNum > 2025`). */
  predicate CarryoverApplies(k: MonthKey)
  {
    k.month > FiscalStartMonth || k.year > FirstFiscalYear
  }

  /**
    July 1 of `yearNum - 1` from 2026 on, of 2025 before: for every month of 2026
    and later the span starts in July of the previous calendar year.
   */
  function FiscalStart(k: MonthKey): (d: Date)
    ensures d.month == FiscalStartMonth && d.day == 1
    ensures d.year == if k.year >= 2026 then k.year - 1 else FirstFiscalYear
  {
    CivilDate(if k.year >= 2026 then k.year - 1 else FirstFiscalYear, FiscalStartMonth, 1)
  }

  /** Whole 30.44-day months from the fiscal start to midnight of the month's first day. */
  function MonthsSinceFiscalStart(k: MonthKey): int
  {
    MonthsSince(FiscalStart(k), Moment(FirstDay(Window(k)), 0))
  }

  /** A player's payments dated from the fiscal start up to, not including, the month's first day. */
  function FiscalPayments(payments: seq<Payment>, playerId: string, k: MonthKey): seq<Payment>
  {
    Seqs.Filter(payments, (p: Payment) =>
      p.playerId == playerId && DayNumber(FiscalStart(k)) <= DayNumber(p.date) < DayNumber(FirstDay(Window(k))))
  }

  /** What the months since fiscal start should have brought in and was not paid then. */
  function Carryover(player: Player, payments: seq<Payment>, k: MonthKey): (c: int)
    ensures c >= 0
    ensures !CarryoverApplies(k) ==> c == 0
    ensures CarryoverApplies(k) ==>
      c == Max(0, MonthsSinceFiscalStart(k) * player.pitch - TotalPaid(FiscalPayments(payments, player.id, k)))
  {
    if CarryoverApplies(k) then
      Max(0, MonthsSinceFiscalStart(k) * player.pitch - TotalPaid(FiscalPayments(payments, player.id, k)))
    else 0
  }

  function RowFor(player: Player, payments: seq<Payment>, k: MonthKey): (r: Row)
    requires KeyInRange(k)
    ensures r.playerId == player.id && r.playerName == player.name && r.phone == player.phone
    ensures r.monthKey == FormatMonthKey(k)
    ensures r.expectedAmount == player.pitch
    ensures r.amountPaid == TotalPaid(PaymentsInMonth(payments, player.id, k))
    ensures r.paymentCount == |PaymentsInMonth(payments, player.id, k)|
    ensures r.carryoverAmount == Carryover(player, payments, k)
    ensures r.totalAmount == player.pitch + r.carryoverAmount
    ensures r.balance >= 0 && r.balance >= r.totalAmount - r.amountPaid
    ensures r.balance == 0 <==> r.amountPaid >= r.totalAmount
    ensures r.balance > 0 ==> r.balance == r.totalAmount - r.amountPaid
    ensures r.status == Complete <==> r.amountPaid >= r.totalAmount
    ensures r.lastPaymentDate.None? <==> r.paymentCount == 0
    ensures r.lastPaymentDate.Some? ==>
      forall p :: p in PaymentsInMonth(payments, player.id, k) ==> DayNumber(p.date) <= DayNumber(r.lastPaymentDate.value)
    ensures r.lastPaymentDate.Some? ==>
      exists p :: p in PaymentsInMonth(payments, player.id, k) && p.date == r.lastPaymentDate.value
  {
    var paid := PaymentsInMonth(payments, player.id, k);
    var carryover := Carryover(player, payments, k);
    var totalAmount := player.pitch + carryover;
    var amountPaid := TotalPaid(paid);
    var balance := Max(0, totalAmount - amountPaid);
    Row(player.id, player.name, player.phone, player.pitch, amountPaid, balance,
        carryover, totalAmount, |paid|, LatestDate(paid),
        if balance <= 0 then Complete else Incomplete, FormatMonthKey(k))
  }

  // ---------------------------------------------------------------------------
  // The report

  /** The months a request covers. */
  function MonthsFor(selection: MonthSelection, year: int, today: Date): seq<MonthKey>
    requires selection.OneMonth? ==> selection.month >= 0
  {
    match selection
    case AllMonths => MonthsThrough(today)
    case OneMonth(m) => [MonthKey(year, m)]
  }

  predicate ValidKeys(keys: seq<MonthKey>)
  {
    forall j :: 0 <= j < |keys| ==> KeyInRange(keys[j])
  }

  /** The rows of one player, one per month in order. */
  function PlayerRows(player: Player, keys: seq<MonthKey>, payments: seq<Payment>): (rows: seq<Row>)
    requires ValidKeys(keys)
    ensures |rows| == |keys|
    ensures forall j :: 0 <= j < |keys| ==> rows[j] == RowFor(player, payments, keys[j])
  {
    seq(|keys|, j requires 0 <= j < |keys| => RowFor(player, payments, keys[j]))
  }

  /** Each player's block of rows. */
  function Blocks(players: seq<Player>, keys: seq<MonthKey>, payments: seq<Payment>): (blocks: seq<seq<Row>>)
    requires ValidKeys(keys)
    ensures |blocks| == |players| && Seqs.Uniform(blocks, |keys|)
    ensures forall i :: 0 <= i < |players| ==> blocks[i] == PlayerRows(players[i], keys, payments)
  {
    seq(|players|, i requires 0 <= i < |players| => PlayerRows(players[i], keys, payments))
  }

  /** Players in the outer loop, months in the inner one. */
  function Rows(players: seq<Player>, keys: seq<MonthKey>, payments: seq<Payment>): (rows: seq<Row>)
    requires ValidKeys(keys)
    ensures |rows| == |players| * |keys|
  {
    var blocks := Blocks(players, keys, payments);
    Seqs.ConcatLength(blocks, |keys|);
    Seqs.Concat(blocks)
  }

  /** The row of player `i` and month `j` sits at position `i * |keys| + j`. */
  lemma RowAt(players: seq<Player>, keys: seq<MonthKey>, payments: seq<Payment>, i: int, j: int)
    requires ValidKeys(keys)
    requires 0 <= i < |players| && 0 <= j < |keys|
    ensures 0 <= i * |keys| + j < |Rows(players, keys, payments)|
    ensures Rows(players, keys, payments)[i * |keys| + j] == RowFor(players[i], payments, keys[j])
  {
    FlatAt(players, keys, payments, i, j);
    BlockEntry(players, keys, payments, i, j);
  }

  /** The same position read through the blocks, before any row is looked into. */
  lemma FlatAt(players: seq<Player>, keys: seq<MonthKey>, payments: seq<Payment>, i: int, j: int)
    requires ValidKeys(keys)
    requires 0 <= i < |players| && 0 <= j < |keys|
    ensures 0 <= i * |keys| + j < |Rows(players, keys, payments)|
    ensures Rows(players, keys, payments)[i * |keys| + j] == Blocks(players, keys, payments)[i][j]
  {
    var blocks := Blocks(players, keys, payments);
    RowsAreBlocks(players, keys, payments);
    Seqs.ConcatEntry(blocks, |keys|, i, j, Rows(players, keys, payments), blocks[i][j]);
  }

  lemma RowsAreBlocks(players: seq<Player>, keys: seq<MonthKey>, payments: seq<Payment>)
    requires ValidKeys(keys)
    ensures Rows(players, keys, payments) == Seqs.Concat(Blocks(players, keys, payments))
  {
  }

  lemma BlockEntry(players: seq<Player>, keys: seq<MonthKey>, payments: seq<Payment>, i: int, j: int)
    requires ValidKeys(keys)
    requires 0 <= i < |players| && 0 <= j < |keys|
    ensures |Blocks(players, keys, payments)[i]| == |keys|
    ensures Blocks(players, keys, payments)[i][j] == RowFor(players[i], payments, keys[j])
  {
  }

  /** Conversely every row is the row of some player and some month. */
  lemma RowOrigin(players: seq<Player>, keys: seq<MonthKey>, payments: seq<Payment>, x: int)
    returns (i: int, j: int)
    requires ValidKeys(keys)
    requires 0 <= x < |Rows(players, keys, payments)|
    ensures 0 <= i < |players| && 0 <= j < |keys|
    ensures Rows(players, keys, payments)[x] == RowFor(players[i], payments, keys[j])
  {
    var blocks := Blocks(players, keys, payments);
    i, j := Seqs.ConcatOrigin(blocks, |keys|, x);
  }

  function PlayerIdOf(r: Row): string { r.playerId }
  function TotalAmountOf(r: Row): int { r.totalAmount }
  function AmountPaidOf(r: Row): int { r.amountPaid }
  function BalanceOf(r: Row): int { r.balance }
  function CarryoverOf(r: Row): int { r.carryoverAmount }

  /** The distinct player ids among the rows (`new Set(reportData.map(r => r.playerId))`). */
  function PlayerIds(rows: seq<Row>): set<string>
  {
    set i | 0 <= i < |rows| :: rows[i].playerId
  }

  function CountComplete(rows: seq<Row>): nat
  {
    |Seqs.Filter(rows, (r: Row) => r.status == Complete)|
  }

  function CountIncomplete(rows: seq<Row>): nat
  {
    |Seqs.Filter(rows, (r: Row) => r.status == Incomplete)|
  }

  lemma {:induction false} StatusCountsPartition(rows: seq<Row>)
    ensures CountComplete(rows) + CountIncomplete(rows) == |rows|
    decreases |rows|
  {
    if |rows| > 0 {
      StatusCountsPartition(rows[..|rows| - 1]);
    }
  }

  /** The summary block: every total is the sum of that column, every count the rows with that status. */
  function Summarize(selection: MonthSelection, year: int, rows: seq<Row>): (s: Summary)
    ensures s.totalExpected == Seqs.Sum(rows, TotalAmountOf) && s.totalPaid == Seqs.Sum(rows, AmountPaidOf)
    ensures s.totalBalance == Seqs.Sum(rows, BalanceOf) && s.totalCarryover == Seqs.Sum(rows, CarryoverOf)
    ensures s.completeCount == CountComplete(rows) && s.incompleteCount == CountIncomplete(rows)
    ensures s.completeCount + s.incompleteCount == |rows|
    ensures s.totalPlayers == |PlayerIds(rows)|
    ensures s.month == (if selection.AllMonths? then None else Some(selection.month)) && s.year == year
  {
    StatusCountsPartition(rows);
    Summary(
      if selection.AllMonths? then None else Some(selection.month), year, |PlayerIds(rows)|,
      Seqs.Sum(rows, TotalAmountOf), Seqs.Sum(rows, AmountPaidOf),
      Seqs.Sum(rows, BalanceOf), Seqs.Sum(rows, CarryoverOf),
      CountComplete(rows), CountIncomplete(rows))
  }

  /** The set of ids of a list of players. */
  function Ids(players: seq<Player>): set<string>
  {
    set i | 0 <= i < |players| :: players[i].id
  }

  /**
    The pitch report for a request, over all players and the ledger's pitch
    payments, as of the date `today`.
   */
  function PitchReport(selection: MonthSelection, year: int, today: Date,
                       players: seq<Player>, ledger: seq<Payment>): (rep: Report)
    requires selection.OneMonth? ==> selection.month >= 0 && year >= 0
    ensures rep.data == Rows(players, MonthsFor(selection, year, today), OfType(ledger, Pitch))
    ensures rep.totalRecords == |rep.data| == |players| * |MonthsFor(selection, year, today)|
    ensures rep.summary.completeCount + rep.summary.incompleteCount == rep.totalRecords
    ensures rep.summary == Summarize(selection, year, rep.data)
  {
    var keys := MonthsFor(selection, year, today);
    assert ValidKeys(keys);
    var rows := Rows(players, keys, OfType(ledger, Pitch));
    Report(Summarize(selection, year, rows), rows, |rows|)
  }

  // ---------------------------------------------------------------------------
  // Properties of the summary

  /** What a player paid in each month, and the carryover each month charges them. */
  function MonthlyPaid(payments: seq<Payment>, playerId: string): MonthKey -> int
  {
    (k: MonthKey) => TotalPaid(PaymentsInMonth(payments, playerId, k))
  }

  function MonthlyCarryover(player: Player, payments: seq<Payment>): MonthKey -> int
  {
    (k: MonthKey) => Carryover(player, payments, k)
  }

  /** The same summed over the months of the report. */
  function PlayerPaid(keys: seq<MonthKey>, payments: seq<Payment>): Player -> int
  {
    (player: Player) => Seqs.Sum(keys, MonthlyPaid(payments, player.id))
  }

  function PlayerCarryover(keys: seq<MonthKey>, payments: seq<Payment>): Player -> int
  {
    (player: Player) => Seqs.Sum(keys, MonthlyCarryover(player, payments))
  }

  /**
    The report's paid and carryover totals, player by player: the sum over all
    players of what each paid, and was charged as carryover, month by month.
   */
  lemma TotalsPerPlayer(selection: MonthSelection, year: int, today: Date, players: seq<Player>, ledger: seq<Payment>)
    requires selection.OneMonth? ==> selection.month >= 0 && year >= 0
    ensures var keys, pays := MonthsFor(selection, year, today), OfType(ledger, Pitch);
      && PitchReport(selection, year, today, players, ledger).summary.totalPaid == Seqs.Sum(players, PlayerPaid(keys, pays))
      && PitchReport(selection, year, today, players, ledger).summary.totalCarryover == Seqs.Sum(players, PlayerCarryover(keys, pays))
  {
    var keys, pays := MonthsFor(selection, year, today), OfType(ledger, Pitch);
    assert ValidKeys(keys);
    var blocks := Blocks(players, keys, pays);
    RowsAreBlocks(players, keys, pays);
    Seqs.SumConcat(blocks, AmountPaidOf);
    Seqs.SumConcat(blocks, CarryoverOf);
    forall i | 0 <= i < |players|
      ensures Seqs.SumOf(AmountPaidOf)(blocks[i]) == PlayerPaid(keys, pays)(players[i])
      ensures Seqs.SumOf(CarryoverOf)(blocks[i]) == PlayerCarryover(keys, pays)(players[i])
    {
      Seqs.SumMapped(keys, MonthlyPaid(pays, players[i].id), blocks[i], AmountPaidOf);
      Seqs.SumMapped(keys, MonthlyCarryover(players[i], pays), blocks[i], CarryoverOf);
    }
    Seqs.SumMapped(players, PlayerPaid(keys, pays), blocks, Seqs.SumOf(AmountPaidOf));
    Seqs.SumMapped(players, PlayerCarryover(keys, pays), blocks, Seqs.SumOf(CarryoverOf));
  }

  /** Clamping each balance at zero can only raise the total above what is due minus what is paid. */
  lemma TotalBalanceBound(players: seq<Player>, keys: seq<MonthKey>, payments: seq<Payment>)
    requires ValidKeys(keys)
    ensures var rows := Rows(players, keys, payments);
      Seqs.Sum(rows, BalanceOf) >= Seqs.Sum(rows, TotalAmountOf) - Seqs.Sum(rows, AmountPaidOf)
    ensures Seqs.Sum(Rows(players, keys, payments), BalanceOf) >= 0
    ensures Seqs.Sum(Rows(players, keys, payments), CarryoverOf) >= 0
  {
    var rows := Rows(players, keys, payments);
    assert forall x :: 0 <= x < |rows| ==> ConsistentRow(rows[x]) by {
      forall x | 0 <= x < |rows|
        ensures ConsistentRow(rows[x])
      {
        var i, j := RowOrigin(players, keys, payments, x);
      }
    }
    Seqs.SumDifference(rows, NetOf, TotalAmountOf, AmountPaidOf);
    Seqs.SumMonotone(rows, NetOf, BalanceOf);
    Seqs.SumNonNegative(rows, BalanceOf);
    Seqs.SumNonNegative(rows, CarryoverOf);
  }

  function NetOf(r: Row): int { r.totalAmount - r.amountPaid }

  predicate ConsistentRow(r: Row)
  {
    r.balance >= 0 && r.balance >= r.totalAmount - r.amountPaid && r.carryoverAmount >= 0
  }

  /**
    When at least one month is covered every player appears, so the summary's
    player count is the number of distinct player ids; with no months it is 0.
   */
  lemma TotalPlayersCount(players: seq<Player>, keys: seq<MonthKey>, payments: seq<Payment>)
    requires ValidKeys(keys)
    ensures |keys| > 0 ==> PlayerIds(Rows(players, keys, payments)) == Ids(players)
    ensures |keys| == 0 ==> PlayerIds(Rows(players, keys, payments)) == {}
  {
    var rows := Rows(players, keys, payments);
    if |keys| > 0 {
      forall id | id in Ids(players)
        ensures id in PlayerIds(rows)
      {
        var i :| 0 <= i < |players| && players[i].id == id;
        PlayerHasRow(players, keys, payments, i);
      }
      forall id | id in PlayerIds(rows)
        ensures id in Ids(players)
      {
        var x :| 0 <= x < |rows| && rows[x].playerId == id;
        RowHasPlayer(players, keys, payments, x);
      }
    }
  }

  lemma PlayerHasRow(players: seq<Player>, keys: seq<MonthKey>, payments: seq<Payment>, i: int)
    requires ValidKeys(keys) && |keys| > 0 && 0 <= i < |players|
    ensures players[i].id in PlayerIds(Rows(players, keys, payments))
  {
    RowAt(players, keys, payments, i, 0);
    IdListed(Rows(players, keys, payments), i * |keys| + 0);
  }

  lemma IdListed(rows: seq<Row>, x: int)
    requires 0 <= x < |rows|
    ensures rows[x].playerId in PlayerIds(rows)
  {
  }

  lemma RowHasPlayer(players: seq<Player>, keys: seq<MonthKey>, payments: seq<Payment>, x: int)
    requires ValidKeys(keys) && 0 <= x < |Rows(players, keys, payments)|
    ensures Rows(players, keys, payments)[x].playerId in Ids(players)
  {
    var i, j := RowOrigin(players, keys, payments, x);
    assert players[i].id == Rows(players, keys, payments)[x].playerId;
  }

  // ---------------------------------------------------------------------------
  // The fiscal span

  /** July 2025, the first month of the books, never carries anything over. */
  lemma FirstMonthNoCarryover(player: Player, payments: seq<Payment>)
    ensures Carryover(player, payments, MonthKey(FirstFiscalYear, FiscalStartMonth)) == 0
  {
  }

  /** No payments at all: the months since fiscal start are owed in full. */
  lemma CarryoverWithoutPayments(player: Player, k: MonthKey)
    requires CarryoverApplies(k) && player.pitch >= 0
    requires MonthsSinceFiscalStart(k) >= 0
    ensures Carryover(player, [], k) == MonthsSinceFiscalStart(k) * player.pitch
  {
    var m := MonthsSinceFiscalStart(k);
    assert |FiscalPayments([], player.id, k)| == 0;
    ProductNonNegative(m, player.pitch);
  }

  lemma ProductNonNegative(a: int, b: int)
    requires a >= 0 && b >= 0
    ensures a * b >= 0
  {
  }

  /** October 2025 is 92 days after July 1, 2025: three 30.44-day months. */
  lemma OctoberExample(player: Player)
    requires player.pitch == 5000
    ensures var r := RowFor(player, [], MonthKey(2025, 10));
      && r.carryoverAmount == 15000 && r.totalAmount == 20000
      && r.balance == 20000 && r.status == Incomplete && r.monthKey == "2025-10"
  {
    OctoberCarryover(player);
    RowWithoutPayments(player, MonthKey(2025, 10));
    OctoberKeyText();
  }

  /** With nothing paid, the whole amount due is the balance and the month is incomplete. */
  lemma RowWithoutPayments(player: Player, k: MonthKey)
    requires KeyInRange(k) && player.pitch + Carryover(player, [], k) > 0
    ensures var r := RowFor(player, [], k);
      && r.amountPaid == 0 && r.carryoverAmount == Carryover(player, [], k)
      && r.totalAmount == player.pitch + r.carryoverAmount
      && r.balance == r.totalAmount && r.status == Incomplete && r.monthKey == FormatMonthKey(k)
  {
    NothingPaid(player.id, k);
  }

  lemma OctoberCarryover(player: Player)
    requires player.pitch == 5000
    ensures Carryover(player, [], MonthKey(2025, 10)) == 15000
  {
    OctoberSpan(MonthKey(2025, 10));
    CarryoverWithoutPayments(player, MonthKey(2025, 10));
  }

  lemma NothingPaid(playerId: string, k: MonthKey)
    ensures TotalPaid(PaymentsInMonth([], playerId, k)) == 0
  {
    assert PaymentsInMonth([], playerId, k) == [];
  }

  /** Day counts from July 1, 2025 to the first days used in the examples below. */
  lemma DaysSinceJuly2025()
    ensures DayNumber(CivilDate(2025, 10, 1)) - DayNumber(CivilDate(2025, 7, 1)) == 92
    ensures DayNumber(CivilDate(2026, 7, 1)) - DayNumber(CivilDate(2025, 7, 1)) == 365
    ensures DayNumber(CivilDate(2027, 8, 1)) - DayNumber(CivilDate(2025, 7, 1)) == 761
  {
    assert DaysBeforeYear(2025) == 739251;
    assert DaysBeforeYear(2026) == 739616;
    assert DaysBeforeYear(2027) == 739981;
    assert !IsLeapYear(2025) && !IsLeapYear(2026) && !IsLeapYear(2027);
  }

  /**
    A key whose first day lies `days` whole days after its fiscal start counts
    `n` months when `n` 30.44-day months fall short of `days` days and `n + 1`
    months do not.
   */
  lemma SpanOfDays(k: MonthKey, days: int, n: int)
    requires ValidMonthKey(k) && k.year >= 100 && 0 < days <= 1000
    requires DayNumber(FirstDay(k)) - DayNumber(FiscalStart(k)) == days
    requires n * 761 < days * 25 <= n * 761 + 761
    ensures MonthsSinceFiscalStart(k) == n
  {
    assert Window(k) == k;
    MonthsSinceWholeDays(FiscalStart(k), FirstDay(k));
  }

  /** October 1, 2025 is 92 days after July 1, 2025. */
  lemma OctoberSpan(k: MonthKey)
    requires k == MonthKey(2025, 10)
    ensures MonthsSinceFiscalStart(k) == 3
  {
    OctoberDays(k);
    SpanOfDays(k, 92, 3);
  }

  lemma OctoberDays(k: MonthKey)
    requires k == MonthKey(2025, 10)
    ensures ValidMonthKey(k) && k.year >= 100
    ensures DayNumber(FirstDay(k)) - DayNumber(FiscalStart(k)) == 92
  {
    assert FiscalStart(k) == CivilDate(2025, 7, 1) && FirstDay(k) == CivilDate(2025, 10, 1);
    DaysSinceJuly2025();
  }

  /**
    August 2027 (key 2026-20) starts 761 days, exactly 25 months of 30.44 days,
    after July 1, 2025: the double divisor makes that 24 months.
   */
  lemma ExactMonthSpan(k: MonthKey)
    requires k == MonthKey(2026, 20)
    ensures MonthsSinceFiscalStart(k) == 24
  {
    AugustDays(k);
    ExactSpan(k, 25);
  }

  /** A key whose first day lies exactly `n` 30.44-day months after its fiscal start counts n - 1. */
  lemma ExactSpan(k: MonthKey, n: int)
    requires 1 <= n <= 1000
    requires Elapsed(FiscalStart(k), Moment(FirstDay(Window(k)), 0)) == n * AverageMonthMillis
    ensures MonthsSinceFiscalStart(k) == n - 1
  {
    ExactMonthsCountOneLess(FiscalStart(k), Moment(FirstDay(Window(k)), 0), n);
  }

  lemma AugustDays(k: MonthKey)
    requires k == MonthKey(2026, 20)
    ensures Elapsed(FiscalStart(k), Moment(FirstDay(Window(k)), 0)) == 25 * AverageMonthMillis
  {
    AugustWindow(k);
    assert FiscalStart(k) == CivilDate(2025, 7, 1);
    DaysSinceJuly2025();
  }

  /** Month 20 of 2026 is August 2027. */
  lemma AugustWindow(k: MonthKey)
    requires k == MonthKey(2026, 20)
    ensures FirstDay(Window(k)) == CivilDate(2027, 8, 1)
  {
    MonthIndexInjective(Window(k), MonthKey(2027, 8));
  }

  lemma OctoberKeyText()
    ensures FormatMonthKey(MonthKey(2025, 10)) == "2025-10"
  {
    YearText();
    assert Text.NatToString(10) == "10";
    assert Text.PadStart2("10") == "10";
  }

  lemma YearText()
    ensures Text.NatToString(2025) == "2025"
  {
    assert Text.NatToString(2) == "2";
    assert Text.NatToString(20) == "20";
    assert Text.NatToString(202) == "202";
  }

  lemma JulyDays(k: MonthKey)
    requires k == MonthKey(2026, 7)
    ensures ValidMonthKey(k) && k.year >= 100
    ensures DayNumber(FirstDay(k)) - DayNumber(FiscalStart(k)) == 365
  {
    assert FiscalStart(k) == CivilDate(2025, 7, 1) && FirstDay(k) == CivilDate(2026, 7, 1);
    DaysSinceJuly2025();
  }

  /**
    July 2026 is measured from July 2025 (365 days, eleven 30.44-day months), not
    from July 2026: the span for every month of 2026 and later begins in July of
    the previous calendar year.
   */
  lemma July2026Span(player: Player)
    requires player.pitch >= 0
    ensures MonthsSinceFiscalStart(MonthKey(2026, 7)) == 11
    ensures Carryover(player, [], MonthKey(2026, 7)) == 11 * player.pitch
  {
    var k := MonthKey(2026, 7);
    JulyDays(k);
    SpanOfDays(k, 365, 11);
    CarryoverWithoutPayments(player, k);
  }
}

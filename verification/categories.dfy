/**
  Grouping expenses by category in one left-to-right pass: the first expense of
  a category opens its entry at the end, later ones add to that entry. The
  daily report keeps a count and an amount per category, the match-day report
  the amount only; both see the categories in order of first appearance.
 */
module Categories {
  import opened Records
  import Seqs

  datatype CategoryTotal = CategoryTotal(category: string, count: nat, amount: int)

  /** The expenses of one category, in their original order. */
  function InCategory(es: seq<Expense>, c: string): seq<Expense>
  {
    Seqs.Filter(es, (e: Expense) => e.category == c)
  }

  lemma InCategoryLast(es: seq<Expense>, c: string)
    requires |es| > 0
    ensures InCategory(es, c) == InCategory(es[..|es| - 1], c) + (if es[|es| - 1].category == c then [es[|es| - 1]] else [])
  {
  }

  /** The position of the first entry for category `c`, or `|g|` when there is none. */
  function Find(g: seq<CategoryTotal>, c: string): (i: nat)
    ensures i <= |g|
    ensures i < |g| ==> g[i].category == c
    ensures forall j :: 0 <= j < i ==> g[j].category != c
    decreases |g|
  {
    if |g| == 0 then 0
    else if g[0].category == c then 0
    else 1 + Find(g[1..], c)
  }

  /** No category has two entries. */
  predicate DistinctCategories(g: seq<CategoryTotal>)
  {
    forall i, j :: 0 <= i < j < |g| ==> g[i].category != g[j].category
  }

  /** The categories that occur among the expenses. */
  function CategoriesOf(es: seq<Expense>): set<string>
  {
    set i | 0 <= i < |es| :: es[i].category
  }

  /** The categories that have an entry. */
  function Keys(g: seq<CategoryTotal>): set<string>
  {
    set i | 0 <= i < |g| :: g[i].category
  }

  /** The index of the first expense of category `c`, or `|es|` when there is none. */
  function FirstIndex(es: seq<Expense>, c: string): (i: nat)
    ensures i <= |es|
    ensures i < |es| ==> es[i].category == c
    ensures forall j :: 0 <= j < i ==> es[j].category != c
    decreases |es|
  {
    if |es| == 0 then 0
    else
      var k := FirstIndex(es[..|es| - 1], c);
      if k < |es| - 1 then k
      else if es[|es| - 1].category == c then |es| - 1
      else |es|
  }

  /** What one more expense does to an expense's category group and its total. */
  lemma InCategorySnoc(es: seq<Expense>, c: string)
    requires |es| > 0
    ensures var init, e := es[..|es| - 1], es[|es| - 1];
      && |InCategory(es, c)| == |InCategory(init, c)| + (if e.category == c then 1 else 0)
      && TotalSpent(InCategory(es, c)) == TotalSpent(InCategory(init, c)) + (if e.category == c then e.amount else 0)
  {
    var init, e := es[..|es| - 1], es[|es| - 1];
    InCategoryLast(es, c);
    if e.category == c {
      Seqs.SumAppend(InCategory(init, c), [e], ExpenseAmount);
      assert [e][..0] == [];
    } else {
      assert InCategory(init, c) + [] == InCategory(init, c);
    }
  }

  /** One more expense of the entry's category. */
  function Bump(t: CategoryTotal, e: Expense): CategoryTotal
  {
    CategoryTotal(t.category, t.count + 1, t.amount + e.amount)
  }

  /** What `expense` does to the running totals: add to its category's entry, or open one at the end. */
  function Add(g: seq<CategoryTotal>, e: Expense): (r: seq<CategoryTotal>)
    requires DistinctCategories(g)
    ensures DistinctCategories(r)
    ensures Keys(r) == Keys(g) + {e.category}
    ensures e.category in Keys(g) <==> Find(g, e.category) < |g|
    ensures Find(g, e.category) < |g| ==> r == g[Find(g, e.category) := Bump(g[Find(g, e.category)], e)]
    ensures Find(g, e.category) == |g| ==> r == g + [CategoryTotal(e.category, 1, e.amount)]
  {
    var i := Find(g, e.category);
    if i < |g| then
      var r := g[i := Bump(g[i], e)];
      assert Keys(r) == Keys(g) by {
        assert forall j :: 0 <= j < |r| ==> r[j].category == g[j].category;
      }
      r
    else
      var r := g + [CategoryTotal(e.category, 1, e.amount)];
      assert Keys(r) == Keys(g) + {e.category} by {
        assert forall j :: 0 <= j < |g| ==> r[j] == g[j];
        assert r[|g|].category == e.category;
      }
      r
  }

  /** One entry per distinct category among the expenses, folded left to right. */
  function GroupByCategory(es: seq<Expense>): (g: seq<CategoryTotal>)
    ensures DistinctCategories(g)
    ensures Keys(g) == CategoriesOf(es)
    decreases |es|
  {
    if |es| == 0 then []
    else
      var init := es[..|es| - 1];
      assert CategoriesOf(es) == CategoriesOf(init) + {es[|es| - 1].category};
      Add(GroupByCategory(init), es[|es| - 1])
  }

  /** Each entry holds the number and the total amount of its category's expenses. */
  lemma {:induction false} GroupEntries(es: seq<Expense>)
    ensures AllEntriesMatch(es, GroupByCategory(es))
    decreases |es|
  {
    if |es| > 0 {
      var init, e := es[..|es| - 1], es[|es| - 1];
      var g0 := GroupByCategory(init);
      var g := GroupByCategory(es);
      GroupEntries(init);
      forall i | 0 <= i < |g|
        ensures EntryMatches(es, g[i])
      {
        GroupEntryStep(es, i);
      }
    }
  }

  lemma GroupEntryStep(es: seq<Expense>, i: int)
    requires |es| > 0
    requires AllEntriesMatch(es[..|es| - 1], GroupByCategory(es[..|es| - 1]))
    requires 0 <= i < |GroupByCategory(es)|
    ensures EntryMatches(es, GroupByCategory(es)[i])
  {
    var init, e := es[..|es| - 1], es[|es| - 1];
    var g0 := GroupByCategory(init);
    var g := GroupByCategory(es);
    assert g == Add(g0, e);
    AddShape(g0, e);
    if i < |g0| {
      assert EntryMatches(init, g0[i]);
      EntryStep(es, g0[i]);
    } else {
      EntryNew(es);
    }
  }

  /** An entry that matched before the last expense still matches once that expense is added to it, if it is its category. */
  lemma EntryStep(es: seq<Expense>, t: CategoryTotal)
    requires |es| > 0 && EntryMatches(es[..|es| - 1], t)
    ensures EntryMatches(es, if t.category == es[|es| - 1].category then Bump(t, es[|es| - 1]) else t)
  {
    InCategorySnoc(es, t.category);
  }

  /** The entry a new category opens matches its one expense. */
  lemma EntryNew(es: seq<Expense>)
    requires |es| > 0 && es[|es| - 1].category !in CategoriesOf(es[..|es| - 1])
    ensures var e := es[|es| - 1]; EntryMatches(es, CategoryTotal(e.category, 1, e.amount))
  {
    var init, e := es[..|es| - 1], es[|es| - 1];
    InCategorySnoc(es, e.category);
    NoneInCategory(init, e.category);
  }

  /** The shape of `Add(g, e)` entry by entry: only the entry of the expense's category changes. */
  lemma AddShape(g: seq<CategoryTotal>, e: Expense)
    requires DistinctCategories(g)
    ensures var r := Add(g, e);
      && |r| == (if e.category in Keys(g) then |g| else |g| + 1)
      && (forall j :: 0 <= j < |g| ==> r[j] == (if g[j].category == e.category then Bump(g[j], e) else g[j]))
      && (|r| > |g| ==> r[|g|] == CategoryTotal(e.category, 1, e.amount))
  {
    var k := Find(g, e.category);
    forall j | 0 <= j < |g| && g[j].category == e.category
      ensures j == k
    {
    }
  }

  /** A category none of the expenses has selects nothing. */
  lemma NoneInCategory(es: seq<Expense>, c: string)
    requires c !in CategoriesOf(es)
    ensures InCategory(es, c) == []
  {
    NotAmong(es, c);
    Seqs.FilterNone(es, (e: Expense) => e.category == c);
  }

  predicate AllEntriesMatch(es: seq<Expense>, g: seq<CategoryTotal>)
  {
    forall i :: 0 <= i < |g| ==> EntryMatches(es, g[i])
  }

  /** Entries are ordered by the position of their category's first expense. */
  predicate InFirstOccurrenceOrder(es: seq<Expense>, g: seq<CategoryTotal>)
  {
    && (forall i :: 0 <= i < |g| ==> FirstIndex(es, g[i].category) < |es|)
    && (forall i, j :: 0 <= i < j < |g| ==> FirstIndex(es, g[i].category) < FirstIndex(es, g[j].category))
  }

  /** An entry's count and amount are those of its category's expenses. */
  predicate EntryMatches(es: seq<Expense>, t: CategoryTotal)
  {
    t.count == |InCategory(es, t.category)| && t.amount == TotalSpent(InCategory(es, t.category))
  }

  /** The entries appear in the order in which their categories first occur. */
  lemma {:induction false} GroupOrder(es: seq<Expense>)
    ensures InFirstOccurrenceOrder(es, GroupByCategory(es))
    decreases |es|
  {
    if |es| > 0 {
      GroupOrder(es[..|es| - 1]);
      GroupOrderStep(es);
    }
  }

  lemma FirstIndexPrefix(es: seq<Expense>, c: string)
    requires |es| > 0 && FirstIndex(es[..|es| - 1], c) < |es| - 1
    ensures FirstIndex(es, c) == FirstIndex(es[..|es| - 1], c)
  {
  }

  lemma GroupOrderStep(es: seq<Expense>)
    requires |es| > 0
    requires InFirstOccurrenceOrder(es[..|es| - 1], GroupByCategory(es[..|es| - 1]))
    ensures InFirstOccurrenceOrder(es, GroupByCategory(es))
  {
    var init, e := es[..|es| - 1], es[|es| - 1];
    var g0 := GroupByCategory(init);
    var g := GroupByCategory(es);
    assert g == Add(g0, e);
    AddShape(g0, e);
    forall j | 0 <= j < |g0|
      ensures g[j].category == g0[j].category
      ensures FirstIndex(es, g[j].category) == FirstIndex(init, g0[j].category) < |init|
    {
      FirstIndexPrefix(es, g0[j].category);
    }
    if |g| > |g0| {
      NewCategoryLast(es);
    }
  }

  /** The first expense of a category not seen before sits at the end. */
  lemma NewCategoryLast(es: seq<Expense>)
    requires |es| > 0 && es[|es| - 1].category !in CategoriesOf(es[..|es| - 1])
    ensures FirstIndex(es, es[|es| - 1].category) == |es| - 1
  {
    var init, c := es[..|es| - 1], es[|es| - 1].category;
    NotAmong(init, c);
  }

  /** A category absent from the expenses is not the category of any of them. */
  lemma NotAmong(es: seq<Expense>, c: string)
    requires c !in CategoriesOf(es)
    ensures forall i :: 0 <= i < |es| ==> es[i].category != c
  {
    forall i | 0 <= i < |es|
      ensures es[i].category != c
    {
      assert es[i].category in CategoriesOf(es);
    }
  }

  function CountOf(t: CategoryTotal): int { t.count }
  function AmountOf(t: CategoryTotal): int { t.amount }

  /** Every expense is counted once: the counts add up to the number of expenses. */
  lemma {:induction false} GroupCountsSum(es: seq<Expense>)
    ensures Seqs.Sum(GroupByCategory(es), CountOf) == |es|
    decreases |es|
  {
    if |es| > 0 {
      var init, e := es[..|es| - 1], es[|es| - 1];
      var g0 := GroupByCategory(init);
      GroupCountsSum(init);
      var i := Find(g0, e.category);
      if i < |g0| {
        Seqs.SumUpdate(g0, i, Bump(g0[i], e), CountOf);
      } else {
        assert (g0 + [CategoryTotal(e.category, 1, e.amount)])[..|g0|] == g0;
      }
    }
  }

  /** Every expense is added once: the amounts add up to the total spent. */
  lemma {:induction false} GroupAmountsSum(es: seq<Expense>)
    ensures Seqs.Sum(GroupByCategory(es), AmountOf) == TotalSpent(es)
    decreases |es|
  {
    if |es| > 0 {
      var init, e := es[..|es| - 1], es[|es| - 1];
      var g0 := GroupByCategory(init);
      GroupAmountsSum(init);
      assert TotalSpent(es) == TotalSpent(init) + e.amount;
      var i := Find(g0, e.category);
      if i < |g0| {
        Seqs.SumUpdate(g0, i, Bump(g0[i], e), AmountOf);
      } else {
        assert (g0 + [CategoryTotal(e.category, 1, e.amount)])[..|g0|] == g0;
      }
    }
  }

  /** `Referee 5000` and `Referee 3000` merge into one entry of 8000, counted twice. */
  lemma MergeExample(a: Expense, b: Expense)
    requires a.category == "Referee" && a.amount == 5000
    requires b.category == "Referee" && b.amount == 3000
    ensures GroupByCategory([a, b]) == [CategoryTotal("Referee", 2, 8000)]
  {
    assert [a, b][..1] == [a];
    assert [a][..0] == [];
    assert GroupByCategory([a]) == [CategoryTotal("Referee", 1, 5000)];
  }
}

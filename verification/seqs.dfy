/**
  Generic sequence folds used by every report: filtering, summing a numeric field,
  counting distinct values and a stable descending sort. Folds run left to right,
  the way JavaScript's `filter` and `reduce` visit an array.
 */
module Seqs {
  import opened Common

  /** `r` can be obtained from `s` by deleting elements, keeping the order of the rest. */
  predicate IsSubsequence<T(==)>(r: seq<T>, s: seq<T>)
    decreases |s|
  {
    |r| == 0 ||
    (|s| > 0 &&
      (IsSubsequence(r, s[..|s| - 1]) ||
       (r[|r| - 1] == s[|s| - 1] && IsSubsequence(r[..|r| - 1], s[..|s| - 1]))))
  }

  lemma {:induction false} SubsequenceOfItself<T>(s: seq<T>)
    ensures IsSubsequence(s, s)
    decreases |s|
  {
    if |s| > 0 {
      SubsequenceOfItself(s[..|s| - 1]);
    }
  }

  /** The elements of `s` that satisfy `p`, in their original order (`Array.prototype.filter`). */
  function Filter<T(==)>(s: seq<T>, p: T -> bool): (r: seq<T>)
    ensures |r| <= |s|
    ensures forall i :: 0 <= i < |r| ==> r[i] in s && p(r[i])
    ensures forall i :: 0 <= i < |s| && p(s[i]) ==> s[i] in r
    ensures IsSubsequence(r, s)
    decreases |s|
  {
    if |s| == 0 then []
    else
      var init := s[..|s| - 1];
      assert s == init + [s[|s| - 1]];
      var r := Filter(init, p);
      if p(s[|s| - 1]) then
        assert (r + [s[|s| - 1]])[..|r|] == r;
        r + [s[|s| - 1]]
      else r
  }

  lemma FilterAppend<T>(a: seq<T>, x: T, p: T -> bool)
    ensures Filter(a + [x], p) == Filter(a, p) + (if p(x) then [x] else [])
  {
    assert (a + [x])[..|a|] == a;
  }

  /** The filter of a non-empty sequence extends the filter of all but its last element. */
  lemma FilterLast<T>(s: seq<T>, p: T -> bool)
    requires |s| > 0
    ensures Filter(s, p) == Filter(s[..|s| - 1], p) + (if p(s[|s| - 1]) then [s[|s| - 1]] else [])
  {
    var n := |s| - 1;
    FilterAppend(s[..n], s[n], p);
    assert s[..n] + [s[n]] == s;
  }

  /** A property of every element holds of every element of the prefix. */
  lemma AllInit<T>(s: seq<T>, p: T -> bool, want: bool)
    requires |s| > 0 && AllAre(s, p, want)
    ensures AllAre(s[..|s| - 1], p, want)
  {
  }

  /** `p` has the value `want` on every element of `s`. */
  predicate AllAre<T>(s: seq<T>, p: T -> bool, want: bool)
  {
    forall i :: 0 <= i < |s| ==> p(s[i]) == want
  }

  lemma {:induction false} FilterAll<T>(s: seq<T>, p: T -> bool)
    requires forall i :: 0 <= i < |s| ==> p(s[i])
    ensures Filter(s, p) == s
    decreases |s|
  {
    if |s| > 0 {
      AllInit(s, p, true);
      FilterAll(s[..|s| - 1], p);
      FilterLast(s, p);
      assert s[..|s| - 1] + [s[|s| - 1]] == s;
    }
  }

  lemma {:induction false} FilterNone<T>(s: seq<T>, p: T -> bool)
    requires forall i :: 0 <= i < |s| ==> !p(s[i])
    ensures Filter(s, p) == []
    decreases |s|
  {
    if |s| > 0 {
      AllInit(s, p, false);
      FilterNone(s[..|s| - 1], p);
      FilterLast(s, p);
    }
  }

  /** Two predicates that agree on every element select the same elements. */
  lemma {:induction false} FilterSame<T>(s: seq<T>, p: T -> bool, q: T -> bool)
    requires forall i :: 0 <= i < |s| ==> p(s[i]) == q(s[i])
    ensures Filter(s, p) == Filter(s, q)
    decreases |s|
  {
    if |s| > 0 {
      var init := s[..|s| - 1];
      assert forall i :: 0 <= i < |init| ==> init[i] == s[i];
      FilterSame(init, p, q);
      FilterLast(s, p);
      FilterLast(s, q);
    }
  }

  /** A slice holding `a + b` splits into a slice holding `a` followed by one holding `b`. */
  lemma SliceSplit<T>(line: seq<T>, s: nat, a: seq<T>, b: seq<T>)
    requires s + |a| + |b| <= |line| && line[s..s + |a| + |b|] == a + b
    ensures line[s..s + |a|] == a && line[s + |a|..s + |a| + |b|] == b
  {
    assert line[s..s + |a|] == line[s..s + |a| + |b|][..|a|];
    assert line[s + |a|..s + |a| + |b|] == line[s..s + |a| + |b|][|a|..];
  }

  /** A slice is the concatenation of the five slices between its cut points. */
  lemma Join5<T>(line: seq<T>, s: nat, k: nat, e: nat, p: nat, q: nat, r: nat)
    requires s <= k <= e <= p <= q <= r <= |line|
    ensures line[s..r] == line[s..k] + line[k..e] + line[e..p] + line[p..q] + line[q..r]
  {
    Join2(line, s, q, r);
    Join2(line, s, p, q);
    Join2(line, s, e, p);
    Join2(line, s, k, e);
  }

  /** A slice is the concatenation of the two slices either side of a cut point. */
  lemma Join2<T>(line: seq<T>, a: nat, b: nat, c: nat)
    requires a <= b <= c <= |line|
    ensures line[a..c] == line[a..b] + line[b..c]
  {
  }

  /** `a + [x] + b` taken apart around `x`. */
  lemma AroundOne<T>(a: seq<T>, x: T, b: seq<T>)
    ensures var s := a + [x] + b;
      && s == a + ([x] + b) && s[..|a|] == a && s[|a| + 1..] == b
      && ([x] + b)[0] == x && ([x] + b)[1..] == b && b[..|b|] == b
  {
  }

  lemma EmptyPrefix<T>(s: seq<T>)
    ensures [] + s == s
  {
  }

  /** Appending two elements is appending them one at a time. */
  lemma SnocTwo<T>(a: seq<T>, x: T, y: T)
    ensures a + [x, y] == (a + [x]) + [y]
  {
  }

  /** `sel` holds the elements of `s` that satisfy `p`, and every such element. */
  predicate Selects<A(==)>(sel: seq<A>, s: seq<A>, p: A -> bool)
  {
    && (forall i :: 0 <= i < |sel| ==> sel[i] in s && p(sel[i]))
    && (forall x :: x in s && p(x) ==> x in sel)
  }

  /** `rows` is `sel` mapped through `f`. */
  predicate Images<A, B(==)>(rows: seq<B>, sel: seq<A>, f: A -> B)
  {
    |rows| == |sel| && forall i :: 0 <= i < |sel| ==> rows[i] == f(sel[i])
  }

  /** `y` is the image of an element of `s` satisfying `p`. */
  predicate ImageOf<A(==), B(==)>(y: B, s: seq<A>, p: A -> bool, f: A -> B)
  {
    exists x :: x in s && p(x) && y == f(x)
  }

  /** Every entry of `rows` is the image of an element of `s` satisfying `p`, and every such image is in `rows`. */
  predicate ImagesExactly<A(==), B(==)>(rows: seq<B>, s: seq<A>, p: A -> bool, f: A -> B)
  {
    && (forall i :: 0 <= i < |rows| ==> ImageOf(rows[i], s, p, f))
    && (forall x :: x in s && p(x) ==> f(x) in rows)
  }

  /** Mapping a selection gives exactly the images of the selected elements. */
  lemma ImagesOfSelection<A, B>(s: seq<A>, sel: seq<A>, p: A -> bool, f: A -> B, rows: seq<B>)
    requires Selects(sel, s, p) && Images(rows, sel, f)
    ensures ImagesExactly(rows, s, p, f)
  {
    forall i | 0 <= i < |rows|
      ensures ImageOf(rows[i], s, p, f)
    {
      var x := sel[i];
      assert x in s && p(x) && rows[i] == f(x);
    }
    forall x | x in s && p(x)
      ensures f(x) in rows
    {
      var k :| 0 <= k < |sel| && sel[k] == x;
      assert rows[k] == f(x);
    }
  }

  /** Left fold of `f` with `+` starting from 0 (`reduce((sum, x) => sum + f(x), 0)`). */
  function Sum<T>(s: seq<T>, f: T -> int): int
    decreases |s|
  {
    if |s| == 0 then 0 else Sum(s[..|s| - 1], f) + f(s[|s| - 1])
  }

  lemma {:induction false} SumAppend<T>(a: seq<T>, b: seq<T>, f: T -> int)
    ensures Sum(a + b, f) == Sum(a, f) + Sum(b, f)
    decreases |b|
  {
    if |b| == 0 {
      assert a + b == a;
    } else {
      assert (a + b)[..|a + b| - 1] == a + b[..|b| - 1];
      SumAppend(a, b[..|b| - 1], f);
    }
  }

  lemma {:induction false} SumNonNegative<T>(s: seq<T>, f: T -> int)
    requires forall i :: 0 <= i < |s| ==> f(s[i]) >= 0
    ensures Sum(s, f) >= 0
    decreases |s|
  {
    if |s| > 0 {
      SumNonNegative(s[..|s| - 1], f);
    }
  }

  lemma {:induction false} SumZero<T>(s: seq<T>, f: T -> int)
    requires forall i :: 0 <= i < |s| ==> f(s[i]) == 0
    ensures Sum(s, f) == 0
    decreases |s|
  {
    if |s| > 0 {
      SumZero(s[..|s| - 1], f);
    }
  }

  /** Summing a pointwise difference is the difference of the sums. */
  lemma {:induction false} SumDifference<T>(s: seq<T>, f: T -> int, g: T -> int, h: T -> int)
    requires forall i :: 0 <= i < |s| ==> f(s[i]) == g(s[i]) - h(s[i])
    ensures Sum(s, f) == Sum(s, g) - Sum(s, h)
    decreases |s|
  {
    if |s| > 0 {
      SumDifference(s[..|s| - 1], f, g, h);
    }
  }

  /** Pointwise `f <= g` carries over to the sums. */
  lemma {:induction false} SumMonotone<T>(s: seq<T>, f: T -> int, g: T -> int)
    requires forall i :: 0 <= i < |s| ==> f(s[i]) <= g(s[i])
    ensures Sum(s, f) <= Sum(s, g)
    decreases |s|
  {
    if |s| > 0 {
      SumMonotone(s[..|s| - 1], f, g);
    }
  }

  /** Replacing one element changes the sum by the difference of the two values. */
  lemma {:induction false} SumUpdate<T>(s: seq<T>, k: int, x: T, f: T -> int)
    requires 0 <= k < |s|
    ensures Sum(s[k := x], f) == Sum(s, f) - f(s[k]) + f(x)
    decreases |s|
  {
    var n := |s| - 1;
    if k == n {
      assert s[k := x][..n] == s[..n];
    } else {
      assert s[k := x][..n] == s[..n][k := x];
      SumUpdate(s[..n], k, x, f);
    }
  }

  /** Two equally long sequences whose terms agree position by position have the same sum. */
  lemma {:induction false} SumMapped<A, B>(a: seq<A>, g: A -> int, b: seq<B>, f: B -> int)
    requires |a| == |b|
    requires forall i :: 0 <= i < |a| ==> f(b[i]) == g(a[i])
    ensures Sum(b, f) == Sum(a, g)
    decreases |a|
  {
    if |a| > 0 {
      SumMapped(a[..|a| - 1], g, b[..|b| - 1], f);
    }
  }

  /** 1 where `p` holds, 0 elsewhere. */
  function Indicator<T>(p: T -> bool): T -> int
  {
    x => if p(x) then 1 else 0
  }

  /** Counting the elements that pass `p` is summing its indicator. */
  lemma {:induction false} CountIsSum<T>(s: seq<T>, p: T -> bool)
    ensures |Filter(s, p)| == Sum(s, Indicator(p))
    decreases |s|
  {
    if |s| > 0 {
      FilterLast(s, p);
      CountIsSum(s[..|s| - 1], p);
    }
  }

  /** So the count, too, does not depend on the order of the elements. */
  lemma CountPermutation<T>(a: seq<T>, b: seq<T>, p: T -> bool)
    requires multiset(a) == multiset(b)
    ensures |Filter(a, p)| == |Filter(b, p)|
  {
    CountIsSum(a, p);
    CountIsSum(b, p);
    SumPermutation(a, b, Indicator(p));
  }

  /** The sum of one block. */
  function SumOf<T>(f: T -> int): seq<T> -> int
  {
    b => Sum(b, f)
  }

  /** Summing the blocks laid end to end is summing the sums of the blocks. */
  lemma {:induction false} SumConcat<T>(blocks: seq<seq<T>>, f: T -> int)
    ensures Sum(Concat(blocks), f) == Sum(blocks, SumOf(f))
    decreases |blocks|
  {
    if |blocks| > 0 {
      var m := |blocks| - 1;
      SumConcat(blocks[..m], f);
      SumAppend(Concat(blocks[..m]), blocks[m], f);
    }
  }

  /** The sum does not depend on the order of the elements. */
  lemma {:induction false} SumPermutation<T>(a: seq<T>, b: seq<T>, f: T -> int)
    requires multiset(a) == multiset(b)
    ensures Sum(a, f) == Sum(b, f)
    decreases |a|
  {
    if |a| > 0 {
      var init, x := a[..|a| - 1], a[|a| - 1];
      assert a == init + [x];
      assert multiset(a) == multiset(init) + multiset{x};
      assert x in multiset(b);
      var k :| 0 <= k < |b| && b[k] == x;
      var rest := b[..k] + b[k + 1..];
      RemoveAt(b, k, f);
      SumPermutation(init, rest, f);
      SumAppend(init, [x], f);
      SumSingle(x, f);
    }
  }

  /** Taking out the element at `k` takes it out of the multiset and its value out of the sum. */
  lemma RemoveAt<T>(b: seq<T>, k: int, f: T -> int)
    requires 0 <= k < |b|
    ensures multiset(b[..k] + b[k + 1..]) == multiset(b) - multiset{b[k]}
    ensures Sum(b, f) == Sum(b[..k] + b[k + 1..], f) + f(b[k])
  {
    MultisetRemove(b, k);
    SumRemove(b, k, f);
  }

  lemma MultisetRemove<T>(b: seq<T>, k: int)
    requires 0 <= k < |b|
    ensures multiset(b[..k] + b[k + 1..]) == multiset(b) - multiset{b[k]}
  {
    assert b[..k + 1] + b[k + 1..] == b;
    assert b[..k + 1] == b[..k] + [b[k]];
  }

  lemma SumRemove<T>(b: seq<T>, k: int, f: T -> int)
    requires 0 <= k < |b|
    ensures Sum(b, f) == Sum(b[..k] + b[k + 1..], f) + f(b[k])
  {
    SplitAround(b, k);
    SumAround(b[..k], b[k], b[k + 1..], f);
  }

  lemma SplitAround<T>(b: seq<T>, k: int)
    requires 0 <= k < |b|
    ensures b == b[..k] + [b[k]] + b[k + 1..]
  {
  }

  /** Taking one element out of the middle takes its term out of the sum. */
  lemma SumAround<T>(a: seq<T>, x: T, c: seq<T>, f: T -> int)
    ensures Sum(a + [x] + c, f) == Sum(a + c, f) + f(x)
  {
    SumAppend(a + [x], c, f);
    SumAppend(a, c, f);
    SumAppend(a, [x], f);
    SumSingle(x, f);
  }

  lemma SumSingle<T>(x: T, f: T -> int)
    ensures Sum([x], f) == f(x)
  {
    assert [x][..0] == [];
  }

  /** The set of values occurring in `s`. */
  function Elements<T>(s: seq<T>): set<T>
  {
    set x | x in s
  }

  lemma {:induction false} ElementsAtMostLength<T>(s: seq<T>)
    ensures |Elements(s)| <= |s|
    decreases |s|
  {
    if |s| > 0 {
      var init := s[..|s| - 1];
      assert Elements(s) == Elements(init) + {s[|s| - 1]} by {
        assert s == init + [s[|s| - 1]];
      }
      ElementsAtMostLength(init);
    }
  }

  /** The lexicographic "greater or equal" on two-part sort keys. */
  predicate KeyGeq(a: (int, int), b: (int, int))
  {
    a.0 > b.0 || (a.0 == b.0 && a.1 >= b.1)
  }

  /** `s` is ordered by `key`, largest first. */
  predicate SortedDesc<T>(s: seq<T>, key: T -> (int, int))
  {
    forall i, j :: 0 <= i < j < |s| ==> KeyGeq(key(s[i]), key(s[j]))
  }

  /** Puts `x` in front of the first element whose key is not larger than its own. */
  function Insert<T(==)>(x: T, s: seq<T>, key: T -> (int, int)): (r: seq<T>)
    requires SortedDesc(s, key)
    ensures SortedDesc(r, key)
    ensures multiset(r) == multiset(s) + multiset{x}
    ensures |r| == |s| + 1
    decreases |s|
  {
    if |s| == 0 || KeyGeq(key(x), key(s[0])) then
      [x] + s
    else
      var rest := Insert(x, s[1..], key);
      assert s == [s[0]] + s[1..];
      assert forall k :: 0 <= k < |rest| ==> KeyGeq(key(s[0]), key(rest[k])) by {
        forall k | 0 <= k < |rest|
          ensures KeyGeq(key(s[0]), key(rest[k]))
        {
          assert rest[k] in multiset(rest);
          if rest[k] != x {
            assert rest[k] in multiset(s[1..]);
            var j :| 0 <= j < |s[1..]| && s[1..][j] == rest[k];
            assert s[j + 1] == rest[k];
          }
        }
      }
      [s[0]] + rest
  }

  /**
    A stable sort, largest key first: elements with equal keys keep their input
    order, as `Array.prototype.sort` with the comparator `(a, b) => key(b) - key(a)`.
   */
  function SortDesc<T(==)>(s: seq<T>, key: T -> (int, int)): (r: seq<T>)
    ensures SortedDesc(r, key)
    ensures multiset(r) == multiset(s)
    ensures |r| == |s|
    decreases |s|
  {
    if |s| == 0 then []
    else
      assert s == [s[0]] + s[1..];
      Insert(s[0], SortDesc(s[1..], key), key)
  }

  /** The test for elements whose key is `k`. */
  function KeyIs<T>(key: T -> (int, int), k: (int, int)): T -> bool
  {
    (e: T) => key(e) == k
  }

  /** Filtering a concatenation filters each part. */
  lemma {:induction false} FilterConcat<T>(a: seq<T>, b: seq<T>, p: T -> bool)
    ensures Filter(a + b, p) == Filter(a, p) + Filter(b, p)
    decreases |b|
  {
    if |b| == 0 {
      assert a + b == a;
    } else {
      var n := |b| - 1;
      FilterConcat(a, b[..n], p);
      FilterLast(a + b, p);
      FilterLast(b, p);
      assert (a + b)[..|a + b| - 1] == a + b[..n];
    }
  }

  lemma FilterCons<T>(x: T, s: seq<T>, p: T -> bool)
    ensures Filter([x] + s, p) == (if p(x) then [x] else []) + Filter(s, p)
  {
    FilterConcat([x], s, p);
    FilterAppend([], x, p);
    assert [] + [x] == [x];
  }

  /** Inserting `x` puts it in front of every element with the same key. */
  lemma {:induction false} InsertKeepsOrder<T>(x: T, s: seq<T>, key: T -> (int, int), k: (int, int))
    requires SortedDesc(s, key)
    ensures Filter(Insert(x, s, key), KeyIs(key, k)) == (if key(x) == k then [x] else []) + Filter(s, KeyIs(key, k))
    decreases |s|
  {
    var p := KeyIs(key, k);
    assert p(x) == (key(x) == k);
    if |s| == 0 || KeyGeq(key(x), key(s[0])) {
      FilterCons(x, s, p);
    } else {
      var tail := s[1..];
      assert SortedDesc(tail, key) by {
        forall i, j | 0 <= i < j < |tail|
          ensures KeyGeq(key(tail[i]), key(tail[j]))
        {
          assert tail[i] == s[i + 1] && tail[j] == s[j + 1];
        }
      }
      var rest := Insert(x, tail, key);
      assert Insert(x, s, key) == [s[0]] + rest;
      InsertKeepsOrder(x, tail, key, k);
      FilterCons(s[0], rest, p);
      FilterCons(s[0], tail, p);
      assert s == [s[0]] + tail;
      var a: seq<T> := if p(s[0]) then [s[0]] else [];
      var b: seq<T> := if key(x) == k then [x] else [];
      assert p(s[0]) == (key(s[0]) == k) && key(s[0]) != key(x);
      assert a == [] || b == [];
      calc {
        Filter(Insert(x, s, key), p);
        a + Filter(rest, p);
        a + (b + Filter(tail, p));
        { if a == [] { assert a + (b + Filter(tail, p)) == b + Filter(tail, p); }
          else { assert b + (a + Filter(tail, p)) == a + Filter(tail, p); } }
        b + (a + Filter(tail, p));
        b + Filter(s, p);
      }
    }
  }

  /** `SortDesc` is stable: the elements with any one key come out in their input order. */
  lemma {:induction false} SortDescStable<T>(s: seq<T>, key: T -> (int, int), k: (int, int))
    ensures Filter(SortDesc(s, key), KeyIs(key, k)) == Filter(s, KeyIs(key, k))
    decreases |s|
  {
    if |s| > 0 {
      SortDescStable(s[1..], key, k);
      InsertKeepsOrder(s[0], SortDesc(s[1..], key), key, k);
      FilterCons(s[0], s[1..], KeyIs(key, k));
      assert s == [s[0]] + s[1..];
    }
  }

  /** `Array.prototype.slice(0, end)`: a negative `end` counts back from the length. */
  function SliceTo<T>(s: seq<T>, end: int): (r: seq<T>)
    ensures end >= 0 ==> |r| == if end < |s| then end else |s|
    ensures end < 0 ==> |r| == if |s| + end > 0 then |s| + end else 0
    ensures r == s[..|r|]
  {
    if end >= |s| then s
    else if end >= 0 then s[..end]
    else if |s| + end > 0 then s[..|s| + end]
    else []
  }

  /** A prefix of a sorted sequence is sorted and holds no element the sequence does not. */
  lemma PrefixOfSorted<T>(s: seq<T>, n: int, key: T -> (int, int))
    requires SortedDesc(s, key)
    requires 0 <= n <= |s|
    ensures SortedDesc(s[..n], key)
    ensures multiset(s[..n]) <= multiset(s)
  {
    assert s == s[..n] + s[n..];
  }

  /**
    Cutting a sorted sequence after `n` elements keeps its top: everything cut off
    ranks no higher than anything kept.
   */
  lemma PrefixIsTop<T>(s: seq<T>, n: int, key: T -> (int, int))
    requires SortedDesc(s, key)
    requires 0 <= n <= |s|
    ensures forall x, i :: x in multiset(s) - multiset(s[..n]) && 0 <= i < n ==> KeyGeq(key(s[i]), key(x))
  {
    assert s == s[..n] + s[n..];
    assert multiset(s) - multiset(s[..n]) == multiset(s[n..]);
    forall x, i | x in multiset(s) - multiset(s[..n]) && 0 <= i < n
      ensures KeyGeq(key(s[i]), key(x))
    {
      assert x in s[n..];
      var k :| 0 <= k < |s[n..]| && s[n..][k] == x;
      assert s[n + k] == x;
    }
  }

  /**
    The first `end` elements, in `slice(0, end)`'s sense, of `s` sorted largest
    first: sorted, drawn from `s`, and ranking no lower than anything left out.
   */
  lemma TopSlice<T>(s: seq<T>, end: int, key: T -> (int, int))
    ensures var r := SliceTo(SortDesc(s, key), end);
      && SortedDesc(r, key)
      && multiset(r) <= multiset(s)
      && (forall x, i :: multiset(r)[x] < multiset(s)[x] && 0 <= i < |r| ==> KeyGeq(key(r[i]), key(x)))
  {
    var sorted := SortDesc(s, key);
    var r := SliceTo(sorted, end);
    PrefixOfSorted(sorted, |r|, key);
    PrefixIsTop(sorted, |r|, key);
  }

  /**
    In a list ordered by `key`, largest first, the first element passing `p` has
    the largest key among those that pass.
   */
  lemma FilterHeadIsMax<T>(s: seq<T>, p: T -> bool, key: T -> int, x: T)
    requires forall i, j :: 0 <= i < j < |s| ==> key(s[i]) >= key(s[j])
    requires x in Filter(s, p)
    ensures key(x) <= key(Filter(s, p)[0])
  {
    var r := Filter(s, p);
    var m :| 0 <= m < |r| && r[m] == x;
    FilterSorted(s, p, key);
  }

  /** `s` is ordered by `key`, largest first. */
  predicate Descending<T>(s: seq<T>, key: T -> int)
  {
    forall i, j :: 0 <= i < j < |s| ==> key(s[i]) >= key(s[j])
  }

  /** Every element of `s` has a key at least that of `x`. */
  predicate AllAtLeast<T>(s: seq<T>, key: T -> int, x: T)
  {
    forall i :: 0 <= i < |s| ==> key(s[i]) >= key(x)
  }

  /** Filtering keeps a key-descending sequence key-descending. */
  lemma {:induction false} FilterSorted<T>(s: seq<T>, p: T -> bool, key: T -> int)
    requires Descending(s, key)
    ensures Descending(Filter(s, p), key)
    decreases |s|
  {
    if |s| > 0 {
      var n := |s| - 1;
      DescendingInit(s, key);
      FilterSorted(s[..n], p, key);
      FilterBelow(s[..n], p, key, s[n]);
      FilterSortedStep(s, p, key);
    }
  }

  lemma DescendingInit<T>(s: seq<T>, key: T -> int)
    requires |s| > 0 && Descending(s, key)
    ensures Descending(s[..|s| - 1], key) && AllAtLeast(s[..|s| - 1], key, s[|s| - 1])
  {
  }

  lemma FilterBelow<T>(s: seq<T>, p: T -> bool, key: T -> int, x: T)
    requires AllAtLeast(s, key, x)
    ensures AllAtLeast(Filter(s, p), key, x)
  {
    var r := Filter(s, p);
    forall i | 0 <= i < |r|
      ensures key(r[i]) >= key(x)
    {
      var k :| 0 <= k < |s| && s[k] == r[i];
    }
  }

  lemma FilterSortedStep<T>(s: seq<T>, p: T -> bool, key: T -> int)
    requires |s| > 0
    requires Descending(Filter(s[..|s| - 1], p), key)
    requires AllAtLeast(Filter(s[..|s| - 1], p), key, s[|s| - 1])
    ensures Descending(Filter(s, p), key)
  {
    var n := |s| - 1;
    FilterLast(s, p);
    SortedSnocEq(Filter(s, p), Filter(s[..n], p), s[n], p(s[n]), key);
  }

  lemma SortedSnocEq<T>(a: seq<T>, r: seq<T>, x: T, add: bool, key: T -> int)
    requires a == r + (if add then [x] else [])
    requires Descending(r, key) && AllAtLeast(r, key, x)
    ensures Descending(a, key)
  {
    SortedSnoc(r, x, add, key);
  }

  /** Appending an element no larger than all others keeps the order. */
  lemma SortedSnoc<T>(r: seq<T>, x: T, add: bool, key: T -> int)
    requires Descending(r, key) && AllAtLeast(r, key, x)
    ensures Descending(r + (if add then [x] else []), key)
  {
  }

  /** The defined results of `f` over `s`, in order (`s.map(f).filter(x => x !== null)`). */
  function FilterMap<A, B>(s: seq<A>, f: A -> Option<B>): (r: seq<B>)
    ensures |r| <= |s|
    decreases |s|
  {
    if |s| == 0 then []
    else
      var init := FilterMap(s[..|s| - 1], f);
      var y := f(s[|s| - 1]);
      if y.Some? then init + [y.value] else init
  }

  /** A value is kept exactly when `f` yields it for some element. */
  lemma {:induction false} FilterMapMeaning<A, B>(s: seq<A>, f: A -> Option<B>, b: B)
    ensures b in FilterMap(s, f) <==> exists j :: 0 <= j < |s| && f(s[j]) == Some(b)
    decreases |s|
  {
    if |s| > 0 {
      var init := s[..|s| - 1];
      FilterMapMeaning(init, f, b);
      if exists j :: 0 <= j < |s| && f(s[j]) == Some(b) {
        var j :| 0 <= j < |s| && f(s[j]) == Some(b);
        if j < |s| - 1 {
          assert init[j] == s[j];
        }
      }
      if b in FilterMap(init, f) {
        var j :| 0 <= j < |init| && f(init[j]) == Some(b);
        assert s[j] == init[j];
      }
    }
  }

  /** A sequence of length two is the display of its two elements. */
  lemma Pair<T>(v: seq<T>, x: T, y: T)
    requires |v| == 2 && v[0] == x && v[1] == y
    ensures v == [x, y]
  {
  }

  /** The blocks one after the other. */
  function Concat<T>(blocks: seq<seq<T>>): seq<T>
    decreases |blocks|
  {
    if |blocks| == 0 then [] else Concat(blocks[..|blocks| - 1]) + blocks[|blocks| - 1]
  }

  /** Every block holds `n` elements. */
  predicate Uniform<T>(blocks: seq<seq<T>>, n: nat)
  {
    forall i :: 0 <= i < |blocks| ==> |blocks[i]| == n
  }

  lemma {:induction false} ConcatLength<T>(blocks: seq<seq<T>>, n: nat)
    requires Uniform(blocks, n)
    ensures |Concat(blocks)| == |blocks| * n
    decreases |blocks|
  {
    if |blocks| > 0 {
      var m := |blocks| - 1;
      assert Uniform(blocks[..m], n) by {
        assert forall i :: 0 <= i < m ==> blocks[..m][i] == blocks[i];
      }
      ConcatLength(blocks[..m], n);
      assert |blocks| * n == m * n + n;
    }
  }

  /** Element `j` of block `i` sits at position `i * n + j`. */
  lemma {:induction false} ConcatAt<T>(blocks: seq<seq<T>>, n: nat, i: int, j: int)
    requires Uniform(blocks, n)
    requires 0 <= i < |blocks| && 0 <= j < n
    ensures 0 <= i * n + j < |Concat(blocks)|
    ensures Concat(blocks)[i * n + j] == blocks[i][j]
    decreases |blocks|
  {
    var m := |blocks| - 1;
    var init := blocks[..m];
    assert Uniform(init, n) by {
      assert forall k :: 0 <= k < m ==> init[k] == blocks[k];
    }
    ConcatLength(init, n);
    ConcatLength(blocks, n);
    if i < m {
      ConcatAt(init, n, i, j);
      assert init[i] == blocks[i];
      assert i * n + j < m * n by {
        assert i * n <= (m - 1) * n;
      }
    } else {
      assert i * n == |Concat(init)|;
    }
  }

  /** The same as `ConcatAt`, for a caller that names the concatenation and the entry. */
  lemma ConcatEntry<T>(blocks: seq<seq<T>>, n: nat, i: int, j: int, flat: seq<T>, x: T)
    requires Uniform(blocks, n)
    requires 0 <= i < |blocks| && 0 <= j < n
    requires flat == Concat(blocks) && blocks[i][j] == x
    ensures 0 <= i * n + j < |flat| && flat[i * n + j] == x
  {
    ConcatAt(blocks, n, i, j);
  }

  /** Conversely every position lies in some block. */
  lemma {:induction false} ConcatOrigin<T>(blocks: seq<seq<T>>, n: nat, x: int) returns (i: int, j: int)
    requires Uniform(blocks, n)
    requires 0 <= x < |Concat(blocks)|
    ensures 0 <= i < |blocks| && 0 <= j < n
    ensures Concat(blocks)[x] == blocks[i][j]
    decreases |blocks|
  {
    var m := |blocks| - 1;
    var init := blocks[..m];
    assert Uniform(init, n) by {
      assert forall k :: 0 <= k < m ==> init[k] == blocks[k];
    }
    if x < |Concat(init)| {
      i, j := ConcatOrigin(init, n, x);
      assert init[i] == blocks[i];
    } else {
      i, j := m, x - |Concat(init)|;
    }
  }
}

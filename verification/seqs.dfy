/** Order-preserving filtering, the one list operation the application uses
    on both tiers (`Array.prototype.filter` and the database's `$pull`). */
module Seqs {

  /** The items of `xs` that satisfy `p`, in their original order. */
  function Filter<T(!new)>(xs: seq<T>, p: T -> bool): (r: seq<T>)
    ensures |r| <= |xs|
  {
    if |xs| == 0 then []
    else
      var rest := Filter(xs[1..], p);
      if p(xs[0]) then [xs[0]] + rest else rest
  }

  /** An item is kept exactly when it occurs in the input and passes the test. */
  lemma {:induction false} FilterMembers<T(!new)>(xs: seq<T>, p: T -> bool)
    ensures forall y :: y in Filter(xs, p) <==> y in xs && p(y)
  {
    if |xs| > 0 {
      FilterMembers(xs[1..], p);
      assert xs == [xs[0]] + xs[1..];
    }
  }

  /** Each item occurs in the result as often as in the input when it passes
      the test, and not at all otherwise. */
  lemma {:induction false} FilterCount<T(!new)>(xs: seq<T>, p: T -> bool, y: T)
    ensures multiset(Filter(xs, p))[y] == if p(y) then multiset(xs)[y] else 0
  {
    if |xs| > 0 {
      FilterCount(xs[1..], p, y);
      assert xs == [xs[0]] + xs[1..];
      assert multiset(xs) == multiset{xs[0]} + multiset(xs[1..]);
    }
  }

  /** `FilterCount` for every item at once. */
  lemma FilterMultiset<T(!new)>(xs: seq<T>, p: T -> bool)
    ensures forall y :: multiset(Filter(xs, p))[y] == if p(y) then multiset(xs)[y] else 0
  {
    forall y {
      FilterCount(xs, p, y);
    }
  }

  /** A one-item list keeps its item exactly when it passes. */
  lemma FilterSingle<T(!new)>(y: T, p: T -> bool)
    ensures Filter([y], p) == if p(y) then [y] else []
  {
    assert [y][1..] == [];
  }

  /** Filtering distributes over concatenation: kept items keep their relative order. */
  lemma {:induction false} FilterAppend<T(!new)>(xs: seq<T>, ys: seq<T>, p: T -> bool)
    ensures Filter(xs + ys, p) == Filter(xs, p) + Filter(ys, p)
  {
    if |xs| == 0 {
      assert xs + ys == ys;
    } else {
      var z := xs + ys;
      assert z[0] == xs[0] && z[1..] == xs[1..] + ys;
      FilterAppend(xs[1..], ys, p);
      if p(xs[0]) {
        calc {
          Filter(z, p);
          [xs[0]] + Filter(xs[1..] + ys, p);
          [xs[0]] + (Filter(xs[1..], p) + Filter(ys, p));
          ([xs[0]] + Filter(xs[1..], p)) + Filter(ys, p);
          Filter(xs, p) + Filter(ys, p);
        }
      } else {
        calc {
          Filter(z, p);
          Filter(xs[1..] + ys, p);
          Filter(xs[1..], p) + Filter(ys, p);
          Filter(xs, p) + Filter(ys, p);
        }
      }
    }
  }

  /** A filter that every item passes changes nothing. */
  lemma {:induction false} FilterKeepsAll<T(!new)>(xs: seq<T>, p: T -> bool)
    requires forall k :: 0 <= k < |xs| ==> p(xs[k])
    ensures Filter(xs, p) == xs
  {
    if |xs| > 0 {
      FilterKeepsAll(xs[1..], p);
      assert xs == [xs[0]] + xs[1..];
    }
  }

  /** Every occurrence of `x` removed, the rest kept in order. */
  function RemoveAll<T(==,!new)>(xs: seq<T>, x: T): (r: seq<T>)
    ensures x !in r
    ensures forall y :: y != x ==> (y in r <==> y in xs)
  {
    FilterMembers(xs, y => y != x);
    Filter(xs, y => y != x)
  }

  /** Removing every occurrence shortens the list by the number of occurrences. */
  lemma {:induction false} RemoveAllLength<T(!new)>(xs: seq<T>, x: T)
    ensures |RemoveAll(xs, x)| == |xs| - multiset(xs)[x]
  {
    if |xs| > 0 {
      RemoveAllLength(xs[1..], x);
      assert xs == [xs[0]] + xs[1..];
      assert multiset(xs) == multiset{xs[0]} + multiset(xs[1..]);
      assert RemoveAll(xs, x) == (if xs[0] != x then [xs[0]] + RemoveAll(xs[1..], x) else RemoveAll(xs[1..], x));
    }
  }

  /** Removing an item that is absent changes nothing. */
  lemma RemoveAbsent<T(!new)>(xs: seq<T>, x: T)
    requires x !in xs
    ensures RemoveAll(xs, x) == xs
  {
    FilterKeepsAll(xs, y => y != x);
  }

  /** Removing `x` from a list that ends with one added `x` gives back the
      list without it. */
  lemma RemoveAllAppend<T(!new)>(xs: seq<T>, x: T)
    ensures RemoveAll(xs + [x], x) == RemoveAll(xs, x)
  {
    FilterAppend(xs, [x], y => y != x);
    assert Filter([x], y => y != x) == [];
  }

  /** Every occurrence of `x` is gone and every other item keeps its number
      of occurrences. */
  lemma RemoveAllCount<T(!new)>(xs: seq<T>, x: T)
    ensures multiset(RemoveAll(xs, x)) == multiset(xs)[x := 0]
  {
    FilterMultiset(xs, y => y != x);
  }

  /** Removal works piecewise, so the kept items stay in their order: a
      one-item list loses its item exactly when it is `x`, and removing from
      a concatenation concatenates the removals. */
  lemma RemoveAllSplit<T(!new)>(xs: seq<T>, ys: seq<T>, x: T)
    ensures RemoveAll(xs + ys, x) == RemoveAll(xs, x) + RemoveAll(ys, x)
    ensures forall y :: RemoveAll([y], x) == if y == x then [] else [y]
  {
    FilterAppend(xs, ys, y => y != x);
    forall y {
      FilterSingle(y, z => z != x);
    }
  }
}

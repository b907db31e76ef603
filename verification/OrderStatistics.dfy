/** Order statistics of a list of scores: sums, ranks, and what sorting does to them. */
module OrderStatistics {
  import opened Ordering

  predicate RealLeq(a: real, b: real) { a <= b }

  function SortReals(s: seq<real>): (r: seq<real>)
    ensures |r| == |s|
    ensures multiset(r) == multiset(s)
  {
    Sort(RealLeq, s)
  }

  function Sum(s: seq<real>): real {
    if s == [] then 0.0 else Sum(s[..|s| - 1]) + s[|s| - 1]
  }

  /** How many elements are at most x. */
  ghost function CountLe(s: seq<real>, x: real): nat {
    if s == [] then 0 else CountLe(s[..|s| - 1], x) + if s[|s| - 1] <= x then 1 else 0
  }

  lemma {:induction false} Append(a: seq<real>, b: seq<real>, x: real)
    ensures Sum(a + b) == Sum(a) + Sum(b)
    ensures CountLe(a + b, x) == CountLe(a, x) + CountLe(b, x)
    decreases |b|
  {
    if b == [] {
      assert a + b == a;
    } else {
      var n := |b| - 1;
      assert (a + b)[..|a| + n] == a + b[..n];
      Append(a, b[..n], x);
    }
  }

  /** Sum and rank counts do not depend on the order of the list. */
  lemma {:induction false} Permutation(a: seq<real>, b: seq<real>, x: real)
    requires multiset(a) == multiset(b)
    ensures Sum(a) == Sum(b)
    ensures CountLe(a, x) == CountLe(b, x)
    decreases |a|
  {
    assert |multiset(a)| == |a| && |multiset(b)| == |b|;
    if a != [] {
      var n := |a| - 1;
      assert a[n] in multiset(b);
      var j :| 0 <= j < |b| && b[j] == a[n];
      RemoveOccurrence(a, b, j);
      Permutation(a[..n], b[..j] + b[j + 1..], x);
      Append(b[..j], b[j + 1..], x);
      Append(b[..j] + [b[j]], b[j + 1..], x);
      Append(b[..j], [b[j]], x);
    }
  }

  lemma SumOfSnoc(s: seq<real>, x: real)
    ensures Sum(s + [x]) == Sum(s) + x
  {
    assert (s + [x])[..|s|] == s;
  }

  lemma RealOrder()
    ensures TotalOrder(RealLeq)
  {
  }

  lemma RealsSorted(s: seq<real>)
    ensures forall i, j | 0 <= i <= j < |s| :: SortReals(s)[i] <= SortReals(s)[j]
  {
    RealOrder();
    SortSorts(RealLeq, s);
    var r := SortReals(s);
    assert forall i, j | 0 <= i < j < |r| :: RealLeq(r[i], r[j]);
  }

  lemma SortRealsPermutation(a: seq<real>, b: seq<real>)
    requires multiset(a) == multiset(b)
    ensures SortReals(a) == SortReals(b)
  {
    RealOrder();
    SortPermutation(RealLeq, a, b);
  }

  lemma SortRealsOfSorted(s: seq<real>)
    requires forall i, j | 0 <= i < j < |s| :: s[i] <= s[j]
    ensures SortReals(s) == s
  {
    RealOrder();
    SortOfSorted(RealLeq, s);
  }

  lemma {:induction false} CountAll(s: seq<real>, x: real)
    ensures CountLe(s, x) <= |s|
    ensures (forall i | 0 <= i < |s| :: s[i] <= x) ==> CountLe(s, x) == |s|
  {
    if s != [] {
      CountAll(s[..|s| - 1], x);
    }
  }

  lemma ManyLow(r: seq<real>, k: nat, x: real)
    requires k <= |r| && forall i | 0 <= i < k :: r[i] <= x
    ensures CountLe(r, x) >= k
  {
    assert r == r[..k] + r[k..];
    Append(r[..k], r[k..], x);
    CountAll(r[..k], x);
  }

  lemma {:induction false} ManyHigh(r: seq<real>, k: nat, x: real)
    requires k <= |r| && forall i | k <= i < |r| :: r[i] > x
    ensures CountLe(r, x) <= k
  {
    if k == |r| {
      CountAll(r, x);
    } else {
      ManyHigh(r[..|r| - 1], k, x);
    }
  }

  /** The k-th smallest value is at most x exactly when more than k values are at most x. */
  lemma Rank(s: seq<real>, k: nat, x: real)
    requires k < |s|
    ensures SortReals(s)[k] <= x <==> CountLe(s, x) >= k + 1
  {
    var r := SortReals(s);
    RealsSorted(s);
    Permutation(r, s, x);
    if r[k] <= x {
      ManyLow(r, k + 1, x);
    } else {
      ManyHigh(r, k, x);
    }
  }

  lemma {:induction false} CountMonotone(a: seq<real>, b: seq<real>, x: real)
    requires |a| == |b| && forall i | 0 <= i < |a| :: a[i] <= b[i]
    ensures CountLe(a, x) >= CountLe(b, x)
  {
    if a != [] {
      CountMonotone(a[..|a| - 1], b[..|b| - 1], x);
    }
  }

  /** Sorted dominance: raising entries of the unsorted list never lowers any order statistic. */
  lemma Dominance(a: seq<real>, b: seq<real>, k: nat)
    requires |a| == |b| && forall i | 0 <= i < |a| :: a[i] <= b[i]
    requires k < |a|
    ensures SortReals(a)[k] <= SortReals(b)[k]
  {
    var x := SortReals(b)[k];
    Rank(b, k, x);
    CountMonotone(a, b, x);
    Rank(a, k, x);
  }

  /** With all but the positions in `touched` bounded by hi, few values exceed hi. */
  lemma {:induction false} CountUntouchedLe(s: seq<real>, touched: set<nat>, hi: real)
    requires forall i | 0 <= i < |s| && i !in touched :: s[i] <= hi
    ensures CountLe(s, hi) + |touched| >= |s|
    decreases |s|
  {
    if s != [] {
      var n := |s| - 1;
      var rest := touched - {n};
      CountUntouchedLe(s[..n], rest, hi);
      if n in touched {
        assert touched == rest + {n};
      } else {
        assert rest == touched;
      }
    }
  }

  /** With all but the positions in `touched` above x, at most that many values are at most x. */
  lemma {:induction false} CountTouchedLe(s: seq<real>, touched: set<nat>, x: real)
    requires forall i | 0 <= i < |s| && i !in touched :: s[i] > x
    ensures CountLe(s, x) <= |touched|
    decreases |s|
  {
    if s != [] {
      var n := |s| - 1;
      var rest := touched - {n};
      CountTouchedLe(s[..n], rest, x);
      if n in touched {
        assert touched == rest + {n};
      } else {
        assert rest == touched;
      }
    }
  }

  /** The middle order statistics ignore any |touched| corrupted entries. */
  lemma MiddleIsBounded(s: seq<real>, touched: set<nat>, lo: real, hi: real, k: nat)
    requires |touched| <= k < |s| - |touched|
    requires forall i | 0 <= i < |s| && i !in touched :: lo <= s[i] <= hi
    ensures lo <= SortReals(s)[k] <= hi
  {
    CountUntouchedLe(s, touched, hi);
    Rank(s, k, hi);
    var x := SortReals(s)[k];
    if x < lo {
      CountTouchedLe(s, touched, x);
      Rank(s, k, x);
    }
  }

  lemma {:induction false} SumBetween(s: seq<real>, lo: real, hi: real)
    requires forall i | 0 <= i < |s| :: lo <= s[i] <= hi
    ensures lo * |s| as real <= Sum(s) <= hi * |s| as real
  {
    if s != [] {
      SumBetween(s[..|s| - 1], lo, hi);
    }
  }

  lemma {:induction false} SumMonotone(a: seq<real>, b: seq<real>)
    requires |a| == |b| && forall i | 0 <= i < |a| :: a[i] <= b[i]
    ensures Sum(a) <= Sum(b)
  {
    if a != [] {
      SumMonotone(a[..|a| - 1], b[..|b| - 1]);
    }
  }
}

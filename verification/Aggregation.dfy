/** Mean, median and trimmed mean of judge scores, with scores as exact reals. */
module Aggregation {
  import opened OrderStatistics

  /** A judge's score; of its reasoning only the presence of the two possible sources matters here. */
  datatype Score = Score(
    answerId: string, value: real, valid: bool, error: string, hasReasonRef: bool, hasInlineReasoning: bool, cents: int)
  {
    predicate IsValid() { valid && error == "" }

    /** A score marked valid needs exactly one reasoning source. */
    predicate IsReasoned() { valid ==> hasReasonRef != hasInlineReasoning }
  }

  datatype Rule = MeanRule | MedianRule | TrimmedMeanRule | UnknownRule(name: string)

  datatype Policy = Policy(rule: Rule, trimFraction: real)

  datatype Result<T> = Ok(value: T) | Err(message: string)

  const MAX_TRIM_FRACTION := 0.5

  // ----- what the three methods compute -----

  function Mean(s: seq<real>): real {
    if s == [] then 0.0 else Sum(s) / |s| as real
  }

  function Median(s: seq<real>): real {
    var sorted, n := SortReals(s), |s|;
    if n == 0 then 0.0
    else if n % 2 == 1 then sorted[n / 2]
    else (sorted[n / 2 - 1] + sorted[n / 2]) / 2.0
  }

  function Clamp(fraction: real): (r: real)
    ensures 0.0 <= r <= MAX_TRIM_FRACTION
  {
    if fraction < 0.0 then 0.0
    else if fraction > MAX_TRIM_FRACTION then MAX_TRIM_FRACTION
    else fraction
  }

  lemma HalfAtMost(n: real, fraction: real)
    requires n >= 0.0 && 0.0 <= fraction <= 0.5
    ensures 0.0 <= n * fraction <= n / 2.0
    ensures n > 0.0 && fraction < 0.5 ==> n * fraction < n / 2.0
  {
    assert n * (0.5 - fraction) >= 0.0;
    if n > 0.0 && fraction < 0.5 {
      assert n * (0.5 - fraction) > 0.0;
    }
  }

  /** The part of n values that a fraction of at most one half amounts to. */
  function Share(n: nat, fraction: real): (r: real)
    requires 0.0 <= fraction <= MAX_TRIM_FRACTION
    ensures 0.0 <= r <= n as real / 2.0
    ensures n > 0 && fraction < MAX_TRIM_FRACTION ==> r < n as real / 2.0
  {
    HalfAtMost(n as real, fraction);
    n as real * fraction
  }

  function TrimCount(n: nat, fraction: real): (k: nat)
    ensures 2 * k <= n
  {
    Share(n, Clamp(fraction)).Floor
  }

  function TrimmedMean(s: seq<real>, fraction: real): real {
    var k := TrimCount(|s|, fraction);
    if s == [] then 0.0
    else if k * 2 >= |s| then Mean(s)
    else Mean(SortReals(s)[k..|s| - k])
  }

  /** The value an answer receives; an unknown method falls back to the mean. */
  function Aggregate(policy: Policy, s: seq<real>): real {
    match policy.rule
    case MeanRule => Mean(s)
    case MedianRule => Median(s)
    case TrimmedMeanRule => TrimmedMean(s, policy.trimFraction)
    case UnknownRule(_) => Mean(s)
  }

  // ----- the loops that compute them -----

  method CalculateMeanValues(values: seq<real>) returns (r: real)
    ensures r == Mean(values)
  {
    if |values| == 0 {
      return 0.0;
    }
    var sum := 0.0;
    for i := 0 to |values|
      invariant sum == Sum(values[..i])
    {
      assert values[..i + 1][..i] == values[..i];
      sum := sum + values[i];
    }
    assert values[..|values|] == values;
    return sum / |values| as real;
  }

  method CalculateMedianValues(values: seq<real>) returns (r: real)
    ensures r == Median(values)
  {
    if |values| == 0 {
      return 0.0;
    }
    var sorted := SortReals(values);
    var n := |sorted|;
    if n % 2 == 1 {
      return sorted[n / 2];
    }
    return (sorted[n / 2 - 1] + sorted[n / 2]) / 2.0;
  }

  method CalculateTrimmedMeanValues(values: seq<real>, trimFraction: real) returns (r: real)
    ensures r == TrimmedMean(values, trimFraction)
  {
    if |values| == 0 {
      return 0.0;
    }
    var sorted := SortReals(values);
    var n := |sorted|;
    var trimCount := TrimCount(n, trimFraction);
    if trimCount * 2 >= n {
      r := CalculateMeanValues(values);
      return;
    }
    ghost var middle := sorted[trimCount..n - trimCount];
    var sum := 0.0;
    for i := trimCount to n - trimCount
      invariant sum == Sum(middle[..i - trimCount])
    {
      assert middle[..i + 1 - trimCount][..i - trimCount] == middle[..i - trimCount];
      sum := sum + sorted[i];
    }
    assert middle[..|middle|] == middle;
    assert |middle| == n - trimCount * 2;
    return sum / (n - trimCount * 2) as real;
  }

  method AggregateValues(policy: Policy, values: seq<real>) returns (r: real)
    ensures r == Aggregate(policy, values)
  {
    match policy.rule {
      case MeanRule => r := CalculateMeanValues(values);
      case MedianRule => r := CalculateMedianValues(values);
      case TrimmedMeanRule => r := CalculateTrimmedMeanValues(values, policy.trimFraction);
      case UnknownRule(_) => r := CalculateMeanValues(values);
    }
  }

  // ----- scores -----

  function ValidScores(scores: seq<Score>): seq<Score> {
    if scores == [] then []
    else
      var last := scores[|scores| - 1];
      ValidScores(scores[..|scores| - 1]) + if last.IsValid() then [last] else []
  }

  function Values(scores: seq<Score>): (r: seq<real>)
    ensures |r| == |scores|
    ensures forall i | 0 <= i < |scores| :: r[i] == scores[i].value
  {
    seq(|scores|, i requires 0 <= i < |scores| => scores[i].value)
  }

  /** Filtering keeps each valid score as often as it occurs, and drops the rest. */
  lemma {:induction false} FilterExact(scores: seq<Score>, s: Score)
    ensures multiset(ValidScores(scores))[s] == if s.IsValid() then multiset(scores)[s] else 0
  {
    if scores != [] {
      var n := |scores| - 1;
      FilterExact(scores[..n], s);
      assert scores == scores[..n] + [scores[n]];
    }
  }

  method FilterValidScores(scores: seq<Score>) returns (valid: seq<Score>)
    ensures valid == ValidScores(scores)
  {
    valid := [];
    for i := 0 to |scores|
      invariant valid == ValidScores(scores[..i])
    {
      assert scores[..i + 1][..i] == scores[..i];
      if scores[i].IsValid() {
        valid := valid + [scores[i]];
      }
    }
    assert scores[..|scores|] == scores;
  }

  lemma ValidStep(scores: seq<Score>, i: nat)
    requires i < |scores|
    ensures var before, after := ValidScores(scores[..i]), ValidScores(scores[..i + 1]);
            if scores[i].IsValid() then
              |after| == |before| + 1 && Sum(Values(after)) == Sum(Values(before)) + scores[i].value
            else after == before
  {
    var before := ValidScores(scores[..i]);
    assert scores[..i + 1][..i] == scores[..i];
    assert Values(before + [scores[i]]) == Values(before) + [scores[i].value];
    SumOfSnoc(Values(before), scores[i].value);
  }

  /** The mean over scores skips the invalid ones a second time. */
  method CalculateMean(scores: seq<Score>) returns (r: real)
    ensures r == Mean(Values(ValidScores(scores)))
  {
    var sum, count := 0.0, 0;
    for i := 0 to |scores|
      invariant count == |ValidScores(scores[..i])|
      invariant sum == Sum(Values(ValidScores(scores[..i])))
    {
      ValidStep(scores, i);
      if scores[i].IsValid() {
        sum := sum + scores[i].value;
        count := count + 1;
      }
    }
    assert scores[..|scores|] == scores;
    if count == 0 {
      return 0.0;
    }
    return sum / count as real;
  }

  lemma {:induction false} AllValid(scores: seq<Score>)
    requires forall i | 0 <= i < |scores| :: scores[i].IsValid()
    ensures ValidScores(scores) == scores
  {
    if scores != [] {
      var n := |scores| - 1;
      AllValid(scores[..n]);
      assert scores == scores[..n] + [scores[n]];
    }
  }

  /** The trimmed mean over scores; when trimming would leave nothing it is the mean of the valid ones. */
  method CalculateTrimmedMean(scores: seq<Score>, trimFraction: real) returns (r: real)
    ensures r == if TrimCount(|scores|, trimFraction) * 2 >= |scores| then Mean(Values(ValidScores(scores)))
                 else TrimmedMean(Values(scores), trimFraction)
  {
    if TrimCount(|scores|, trimFraction) * 2 >= |scores| {
      r := CalculateMean(scores);
    } else {
      r := CalculateTrimmedMeanValues(Values(scores), trimFraction);
    }
  }

  /** The overall score; unknown methods are refused here, unless there is nothing to combine. Median and trimming also
      use invalid scores, which is why the list is filtered first. */
  method ApplyAggregationPolicy(scores: seq<Score>, policy: Policy) returns (r: Result<real>)
    ensures r.Err? <==> scores != [] && policy.rule.UnknownRule?
    ensures r.Ok? && (forall i | 0 <= i < |scores| :: scores[i].IsValid()) ==>
              r.value == Aggregate(policy, Values(scores))
    ensures r.Ok? ==>
              r.value == match policy.rule
                         case MedianRule => Median(Values(scores))
                         case TrimmedMeanRule =>
                           if TrimCount(|scores|, policy.trimFraction) * 2 < |scores|
                           then TrimmedMean(Values(scores), policy.trimFraction)
                           else Mean(Values(ValidScores(scores)))
                         case _ => Mean(Values(ValidScores(scores)))
  {
    if |scores| == 0 {
      return Ok(0.0);
    }
    if forall i | 0 <= i < |scores| :: scores[i].IsValid() {
      AllValid(scores);
    }
    match policy.rule {
      case MeanRule =>
        var mean := CalculateMean(scores);
        return Ok(mean);
      case MedianRule =>
        var median := CalculateMedianValues(Values(scores));
        return Ok(median);
      case TrimmedMeanRule =>
        var trimmed := CalculateTrimmedMean(scores, policy.trimFraction);
        return Ok(trimmed);
      case UnknownRule(_) =>
        return Err("unsupported aggregation method");
    }
  }

  /** Every score marked valid has exactly one reasoning source; other scores need none. */
  method ValidateScoreReasoning(scores: seq<Score>) returns (ok: bool)
    ensures ok <==> forall i | 0 <= i < |scores| :: scores[i].IsReasoned()
  {
    for i := 0 to |scores|
      invariant forall j | 0 <= j < i :: scores[j].IsReasoned()
    {
      if !scores[i].valid {
        continue;
      }
      if scores[i].hasReasonRef == scores[i].hasInlineReasoning {
        return false;
      }
    }
    return true;
  }

  // ----- costs -----

  function Cost(scores: seq<Score>): int {
    if scores == [] then 0 else Cost(scores[..|scores| - 1]) + scores[|scores| - 1].cents
  }

  /** The loop adds up the costs of all scores, valid or not. */
  method AggregateCosts(scores: seq<Score>) returns (total: int)
    ensures total == Cost(scores)
  {
    total := 0;
    for i := 0 to |scores|
      invariant total == Cost(scores[..i])
    {
      assert scores[..i + 1][..i] == scores[..i];
      total := total + scores[i].cents;
    }
    assert scores[..|scores|] == scores;
  }

  function InvalidScores(scores: seq<Score>): seq<Score> {
    if scores == [] then []
    else
      var last := scores[|scores| - 1];
      InvalidScores(scores[..|scores| - 1]) + if last.IsValid() then [] else [last]
  }

  lemma CostOfSnoc(scores: seq<Score>, s: Score)
    ensures Cost(scores + [s]) == Cost(scores) + s.cents
  {
    assert (scores + [s])[..|scores|] == scores;
  }

  /** The total is what the scores that count cost, and what the others cost on top. */
  lemma {:induction false} CostOfAll(scores: seq<Score>)
    ensures Cost(scores) == Cost(ValidScores(scores)) + Cost(InvalidScores(scores))
  {
    if scores != [] {
      var past, last := scores[..|scores| - 1], scores[|scores| - 1];
      CostOfAll(past);
      CostOfSnoc(ValidScores(past), last);
      CostOfSnoc(InvalidScores(past), last);
      assert ValidScores(past) + [] == ValidScores(past) && InvalidScores(past) + [] == InvalidScores(past);
    }
  }

  // ----- every method is the mean of the middle of the sorted list -----

  /** How many values the method ignores at each end of a sorted list of n values. */
  function Depth(policy: Policy, n: nat): (k: nat)
    ensures n > 0 ==> 2 * k < n
  {
    match policy.rule
    case MedianRule => if n == 0 then 0 else (n - 1) / 2
    case TrimmedMeanRule =>
      var k := TrimCount(n, policy.trimFraction);
      if k * 2 >= n then 0 else k
    case _ => 0
  }

  function Middle(s: seq<real>, k: nat): seq<real>
    requires 2 * k <= |s|
  {
    SortReals(s)[k..|s| - k]
  }

  lemma AggregateIsMiddleMean(policy: Policy, s: seq<real>)
    requires s != []
    ensures Aggregate(policy, s) == Mean(Middle(s, Depth(policy, |s|)))
  {
    MeanOfWhole(s);
    if policy.rule.MedianRule? {
      MedianIsMiddle(s);
    }
  }

  lemma MeanOfWhole(s: seq<real>)
    ensures Mean(s) == Mean(Middle(s, 0))
  {
    var sorted := SortReals(s);
    assert sorted[0..|s|] == sorted;
    Permutation(s, sorted, 0.0);
  }

  /** The mean, taken as often as there are values, is their sum. */
  lemma MeanTimesCount(s: seq<real>)
    ensures Mean(s) * |s| as real == Sum(s)
  {
  }

  lemma SmallMeans(x: real, y: real)
    ensures Mean([x]) == x
    ensures Mean([x, y]) == (x + y) / 2.0
  {
    SumOfSnoc([], x);
    assert [] + [x] == [x] && [x] + [y] == [x, y];
    SumOfSnoc([x], y);
  }

  lemma MedianIsMiddle(s: seq<real>)
    requires s != []
    ensures Median(s) == Mean(Middle(s, (|s| - 1) / 2))
  {
    var sorted, n := SortReals(s), |s|;
    if n % 2 == 1 {
      assert Middle(s, (n - 1) / 2) == [sorted[n / 2]];
      SmallMeans(sorted[n / 2], 0.0);
    } else {
      assert Middle(s, (n - 1) / 2) == [sorted[n / 2 - 1], sorted[n / 2]];
      SmallMeans(sorted[n / 2 - 1], sorted[n / 2]);
    }
  }

  lemma TrimCountExtremes(n: nat)
    ensures TrimCount(n, 0.0) == 0
    ensures TrimCount(n, MAX_TRIM_FRACTION) == n / 2
  {
    assert n as real * 0.5 == n as real / 2.0;
    assert (n as real / 2.0).Floor == n / 2;
  }

  /** Trimming would leave nothing, so that the plain mean takes over, exactly for an even number of scores and a
      fraction of at least one half. */
  lemma FallbackCondition(n: nat, fraction: real)
    requires n > 0
    ensures 2 * TrimCount(n, fraction) >= n <==> n % 2 == 0 && fraction >= MAX_TRIM_FRACTION
  {
    var share := Share(n, Clamp(fraction));
    assert share.Floor as real <= share;
    if fraction >= MAX_TRIM_FRACTION {
      TrimCountExtremes(n);
    }
  }

  lemma TrimNothing(s: seq<real>)
    requires s != []
    ensures TrimmedMean(s, 0.0) == Mean(s)
  {
    TrimCountExtremes(|s|);
    MeanOfWhole(s);
  }

  lemma TrimHalf(s: seq<real>)
    requires s != []
    ensures TrimmedMean(s, MAX_TRIM_FRACTION) == if |s| % 2 == 1 then Median(s) else Mean(s)
  {
    TrimCountExtremes(|s|);
    MedianIsMiddle(s);
  }

  /** Trimming nothing is the mean; trimming half is the median of an odd list but the plain mean of an even one. */
  lemma TrimExtremes(s: seq<real>)
    requires s != []
    ensures TrimmedMean(s, 0.0) == Mean(s)
    ensures TrimmedMean(s, MAX_TRIM_FRACTION) == if |s| % 2 == 1 then Median(s) else Mean(s)
  {
    TrimNothing(s);
    TrimHalf(s);
  }

  /** No method depends on the order of the scores. */
  lemma AggregatePermutation(policy: Policy, a: seq<real>, b: seq<real>)
    requires multiset(a) == multiset(b)
    ensures Aggregate(policy, a) == Aggregate(policy, b)
  {
    assert |multiset(a)| == |a| && |multiset(b)| == |b|;
    if a != [] {
      AggregateIsMiddleMean(policy, a);
      AggregateIsMiddleMean(policy, b);
      MiddlePermutation(a, b, Depth(policy, |a|));
    }
  }

  lemma MiddlePermutation(a: seq<real>, b: seq<real>, k: nat)
    requires multiset(a) == multiset(b) && |a| == |b| && 2 * k <= |a|
    ensures Middle(a, k) == Middle(b, k)
  {
    SortRealsPermutation(a, b);
  }

  lemma MeanMonotone(a: seq<real>, b: seq<real>)
    requires |a| == |b| && forall i | 0 <= i < |a| :: a[i] <= b[i]
    ensures Mean(a) <= Mean(b)
  {
    SumMonotone(a, b);
    if a != [] {
      DivideMonotone(Sum(a), Sum(b), |a| as real);
    }
  }

  lemma DivideMonotone(x: real, y: real, n: real)
    requires x <= y && n > 0.0
    ensures x / n <= y / n
  {
    assert y / n - x / n == (y - x) / n;
  }

  /** Every method is monotone in every coordinate of its unsorted input. */
  lemma AggregateMonotone(policy: Policy, a: seq<real>, b: seq<real>)
    requires |a| == |b| && forall i | 0 <= i < |a| :: a[i] <= b[i]
    ensures Aggregate(policy, a) <= Aggregate(policy, b)
  {
    if a != [] {
      var k := Depth(policy, |a|);
      AggregateIsMiddleMean(policy, a);
      AggregateIsMiddleMean(policy, b);
      MiddleMonotone(a, b, k);
      MeanMonotone(Middle(a, k), Middle(b, k));
    }
  }

  lemma MiddleMonotone(a: seq<real>, b: seq<real>, k: nat)
    requires |a| == |b| && 2 * k <= |a| && forall i | 0 <= i < |a| :: a[i] <= b[i]
    ensures forall i | 0 <= i < |a| - 2 * k :: Middle(a, k)[i] <= Middle(b, k)[i]
  {
    forall i | 0 <= i < |a| - 2 * k ensures Middle(a, k)[i] <= Middle(b, k)[i] {
      Dominance(a, b, k + i);
    }
  }

  // ----- resistance to outliers -----

  ghost predicate UntouchedWithin(s: seq<real>, touched: set<nat>, lo: real, hi: real) {
    forall i | 0 <= i < |s| && i !in touched :: lo <= s[i] <= hi
  }

  /** Whatever m of n scores are replaced by, the result stays within any bounds the others obey. */
  ghost predicate Resists(policy: Policy, n: nat, m: nat) {
    forall s: seq<real>, touched: set<nat>, lo: real, hi: real ::
      |s| == n && |touched| <= m && UntouchedWithin(s, touched, lo, hi) ==> lo <= Aggregate(policy, s) <= hi
  }

  lemma DepthResists(policy: Policy, s: seq<real>, touched: set<nat>, lo: real, hi: real)
    requires s != [] && |touched| <= Depth(policy, |s|)
    requires UntouchedWithin(s, touched, lo, hi)
    ensures lo <= Aggregate(policy, s) <= hi
  {
    var k := Depth(policy, |s|);
    AggregateIsMiddleMean(policy, s);
    forall i | 0 <= i < |s| - 2 * k ensures lo <= Middle(s, k)[i] <= hi {
      MiddleIsBounded(s, touched, lo, hi, k + i);
    }
    MeanWithin(Middle(s, k), lo, hi);
  }

  lemma MeanWithin(s: seq<real>, lo: real, hi: real)
    requires s != [] && forall i | 0 <= i < |s| :: lo <= s[i] <= hi
    ensures lo <= Mean(s) <= hi
  {
    var n := |s| as real;
    SumBetween(s, lo, hi);
    DivideMonotone(lo * n, Sum(s), n);
    DivideMonotone(Sum(s), hi * n, n);
    DivideTimes(lo, n);
    DivideTimes(hi, n);
  }

  lemma DivideTimes(x: real, n: real)
    requires n > 0.0
    ensures x * n / n == x
    ensures x >= 0.0 ==> x * n >= 0.0
  {
  }

  /** The attack: n - m scores at zero and m at the given value, already in order. */
  function Attack(n: nat, m: nat, high: real): (r: seq<real>)
    requires m <= n
    ensures |r| == n
    ensures forall i | 0 <= i < n :: r[i] == if i < n - m then 0.0 else high
  {
    seq(n, i => if i < n - m then 0.0 else high)
  }

  /** The sorted attack, cut at the depth, still holds the value of one attacker. */
  lemma AttackMiddle(n: nat, k: nat, high: real)
    requires 2 * k < n && high >= 0.0
    ensures Sum(Middle(Attack(n, k + 1, high), k)) == high
  {
    var s := Attack(n, k + 1, high);
    SortRealsOfSorted(s);
    var middle := Middle(s, k);
    var last := |middle| - 1;
    assert middle[last] == high;
    SumBetween(middle[..last], 0.0, 0.0);
  }

  lemma AttackMean(n: nat, k: nat, target: real, high: real)
    requires 2 * k < n && target >= 0.0 && high == target * (n - 2 * k) as real
    ensures Mean(Middle(Attack(n, k + 1, high), k)) == target
  {
    DivideTimes(target, (n - 2 * k) as real);
    AttackMiddle(n, k, high);
  }

  /** One replacement more than the depth moves the result to any target. */
  lemma OneMoreBreaks(policy: Policy, n: nat, target: real, high: real)
    requires n > 0 && target >= 0.0 && high == target * (n - 2 * Depth(policy, n)) as real
    ensures Aggregate(policy, Attack(n, Depth(policy, n) + 1, high)) == target
  {
    var k := Depth(policy, n);
    var s := Attack(n, k + 1, high);
    AttackMean(n, k, target, high);
    AggregateIsMiddleMean(policy, s);
  }

  /** The breakdown point of every method: exactly `Depth` replacements are harmless. */
  lemma BreakdownPoint(policy: Policy, n: nat, m: nat)
    requires n > 0
    ensures Resists(policy, n, m) <==> m <= Depth(policy, n)
  {
    var k := Depth(policy, n);
    if m <= k {
      forall s: seq<real>, touched: set<nat>, lo: real, hi: real
        | |s| == n && |touched| <= m && UntouchedWithin(s, touched, lo, hi)
        ensures lo <= Aggregate(policy, s) <= hi
      {
        DepthResists(policy, s, touched, lo, hi);
      }
    } else {
      var high := (n - 2 * k) as real;
      OneMoreBreaks(policy, n, 1.0, high);
      var s := Attack(n, k + 1, high);
      var touched := TopPositions(n, k + 1);
      assert UntouchedWithin(s, touched, 0.0, 0.0);
      assert |s| == n && |touched| <= m;
    }
  }

  /** How many scores a fraction takes off each end: the greatest whole number that is at most its part of them. */
  lemma TrimCountExact(n: nat, fraction: real)
    requires 0.0 <= fraction <= MAX_TRIM_FRACTION
    ensures TrimCount(n, fraction) as real <= n as real * fraction < TrimCount(n, fraction) as real + 1.0
  {
  }

  /** How many corrupted scores among n a policy is to withstand, in the terms of the policy alone. */
  ghost predicate Withstands(policy: Policy, n: nat, m: nat) {
    match policy.rule
    case MedianRule => 2 * m < n
    case TrimmedMeanRule =>
      if n % 2 == 0 && policy.trimFraction >= 0.5 then m == 0
      else m == 0 || (if policy.trimFraction > 0.5 then 2 * m < n else m as real <= n as real * policy.trimFraction)
    case _ => m == 0
  }

  lemma DepthWithstands(policy: Policy, n: nat, m: nat)
    requires n > 0
    ensures m <= Depth(policy, n) <==> Withstands(policy, n, m)
  {
    if policy.rule.TrimmedMeanRule? {
      var f := policy.trimFraction;
      TrimCountExact(n, Clamp(f));
      FallbackCondition(n, f);
      if f < 0.0 {
        TrimCountExtremes(n);
        NegativeShare(n as real, f);
      } else if f > 0.5 {
        TrimCountExtremes(n);
      }
    }
  }

  lemma NegativeShare(n: real, fraction: real)
    requires n > 0.0 && fraction < 0.0
    ensures n * fraction < 0.0
  {
  }

  /** The breakdown point in numbers: below one half a trimmed mean withstands exactly its fraction of the scores, the
      median less than half of them, and the mean none. */
  lemma BreakdownInNumbers(policy: Policy, n: nat, m: nat)
    requires n > 0
    ensures Resists(policy, n, m) <==> Withstands(policy, n, m)
  {
    BreakdownPoint(policy, n, m);
    DepthWithstands(policy, n, m);
  }

  ghost function TopPositions(n: nat, m: nat): (r: set<nat>)
    requires m <= n
    ensures |r| == m
    ensures forall i: nat :: i in r <==> n - m <= i < n
  {
    if m == 0 then {} else TopPositions(n, m - 1) + {n - m}
  }
}

/** Choosing the winning answer: per-answer aggregates, the epsilon tie set, and the lexicographic tie-break. */
module Winner {
  import opened Aggregation
  import opened Ordering

  const EPSILON := 0.000000001

  ghost function Known(answers: seq<string>): set<string> {
    set id | id in answers
  }

  // ----- the table of per-answer aggregates -----

  /** The values given to one answer, in the order the scores arrived. */
  function Group(scores: seq<Score>, id: string): seq<real> {
    if scores == [] then []
    else
      var last := scores[|scores| - 1];
      Group(scores[..|scores| - 1], id) + if last.answerId == id then [last.value] else []
  }

  /** The known answers that received at least one score, with their aggregates. */
  ghost function Table(scores: seq<Score>, known: set<string>, policy: Policy): map<string, real> {
    map id | id in known && Group(scores, id) != [] :: Aggregate(policy, Group(scores, id))
  }

  // ----- ties and ranking -----

  /** The answers within EPSILON of every other answer's aggregate. */
  ghost function TopOf(table: map<string, real>): set<string> {
    set id | id in table && forall rival :: rival in table ==> table[rival] - table[id] <= EPSILON
  }

  ghost predicate Ascending(ids: seq<string>) {
    forall i, j | 0 <= i < j < |ids| :: LexLeq(ids[i], ids[j]) && ids[i] != ids[j]
  }

  /** ids lists exactly the members of top, without repetition, in lexicographic order. */
  ghost predicate Ranks(ids: seq<string>, top: set<string>) {
    Ascending(ids) && forall id :: id in ids <==> id in top
  }

  /** The winner leads the ranking of the tie set, and the tied answers follow it. */
  ghost predicate IsVerdict(winner: string, tied: seq<string>, table: map<string, real>) {
    if TopOf(table) == {} then winner == "" && tied == []
    else Ranks([winner] + tied, TopOf(table))
  }

  method DetermineWinner(scores: seq<Score>, answers: seq<string>, policy: Policy)
    returns (winner: string, tied: seq<string>)
    ensures IsVerdict(winner, tied, Table(scores, Known(answers), policy))
  {
    ghost var table := Table(scores, Known(answers), policy);
    if |scores| == 0 || |answers| == 0 {
      assert table == map[];
      return "", [];
    }
    var groups := GroupScores(scores, answers);
    var aggregated := AggregateGroups(groups, policy);
    assert aggregated == table;
    winner, tied := PickWinner(aggregated);
  }

  method PickWinner(aggregated: map<string, real>) returns (winner: string, tied: seq<string>)
    ensures IsVerdict(winner, tied, aggregated)
  {
    if |aggregated| == 0 {
      assert aggregated == map[];
      return "", [];
    }
    var highest := Highest(aggregated);
    var top := WithinTolerance(aggregated, highest);
    TopByHighest(aggregated, highest, top);
    if |top| == 0 {
      return "", [];
    }
    assert top[0] in TopOf(aggregated);
    var sorted := Sort(LexLeq, top);
    RankingOf(top, TopOf(aggregated));
    winner := sorted[0];
    tied := [];
    if |sorted| > 1 {
      tied := sorted[1..];
    }
    assert [winner] + tied == sorted;
  }

  /** Being close to the highest aggregate is being close to every rival. */
  lemma TopByHighest(table: map<string, real>, highest: real, top: seq<string>)
    requires exists id :: id in table && table[id] == highest
    requires forall id | id in table :: table[id] <= highest
    requires forall id :: id in top <==> id in table && Abs(table[id] - highest) <= EPSILON
    ensures forall id :: id in top <==> id in TopOf(table)
    ensures top == [] ==> TopOf(table) == {}
  {
    var best :| best in table && table[best] == highest;
    forall id ensures id in top <==> id in TopOf(table) {
      if id in TopOf(table) {
        assert table[best] - table[id] <= EPSILON;
      }
    }
  }

  method GroupScores(scores: seq<Score>, answers: seq<string>) returns (groups: map<string, seq<real>>)
    ensures forall id :: id in groups <==> id in answers && Group(scores, id) != []
    ensures forall id | id in groups :: groups[id] == Group(scores, id)
  {
    groups := map[];
    for i := 0 to |scores|
      invariant forall id :: id in groups <==> id in answers && Group(scores[..i], id) != []
      invariant forall id | id in groups :: groups[id] == Group(scores[..i], id)
    {
      assert scores[..i + 1][..i] == scores[..i];
      var id := scores[i].answerId;
      if id in answers {
        groups := groups[id := (if id in groups then groups[id] else []) + [scores[i].value]];
      }
    }
    assert scores[..|scores|] == scores;
  }

  /** Visits the groups in an arbitrary order, as a Go map range does. */
  method AggregateGroups(groups: map<string, seq<real>>, policy: Policy) returns (aggregated: map<string, real>)
    ensures aggregated.Keys == groups.Keys
    ensures forall id | id in groups :: aggregated[id] == Aggregate(policy, groups[id])
  {
    aggregated := map[];
    var pending := groups.Keys;
    while pending != {}
      invariant pending <= groups.Keys && aggregated.Keys == groups.Keys - pending
      invariant forall id | id in aggregated :: aggregated[id] == Aggregate(policy, groups[id])
      decreases |pending|
    {
      var id :| id in pending;
      var value := AggregateValues(policy, groups[id]);
      aggregated := aggregated[id := value];
      pending := pending - {id};
    }
  }

  method Highest(aggregated: map<string, real>) returns (highest: real)
    requires |aggregated| > 0
    ensures exists id :: id in aggregated && aggregated[id] == highest
    ensures forall id | id in aggregated :: aggregated[id] <= highest
  {
    highest := 0.0;
    var first := true;
    var pending := aggregated.Keys;
    assert pending != {};
    while pending != {}
      invariant pending <= aggregated.Keys && (first <==> pending == aggregated.Keys)
      invariant !first ==> exists id :: id in aggregated && aggregated[id] == highest
      invariant forall id | id in aggregated.Keys - pending :: aggregated[id] <= highest
      decreases |pending|
    {
      var id :| id in pending;
      if first || aggregated[id] > highest {
        highest := aggregated[id];
        first := false;
      }
      pending := pending - {id};
    }
  }

  function Abs(x: real): real { if x < 0.0 then -x else x }

  method WithinTolerance(aggregated: map<string, real>, highest: real) returns (top: seq<string>)
    ensures forall id :: id in top <==> id in aggregated && Abs(aggregated[id] - highest) <= EPSILON
    ensures forall i, j | 0 <= i < j < |top| :: top[i] != top[j]
  {
    top := [];
    var pending := aggregated.Keys;
    while pending != {}
      invariant pending <= aggregated.Keys
      invariant forall id :: id in top <==>
        id in aggregated && id !in pending && Abs(aggregated[id] - highest) <= EPSILON
      invariant forall i, j | 0 <= i < j < |top| :: top[i] != top[j]
      decreases |pending|
    {
      var id :| id in pending;
      if Abs(aggregated[id] - highest) <= EPSILON {
        top := top + [id];
      }
      pending := pending - {id};
    }
  }

  lemma {:induction false} DistinctMultiset(ids: seq<string>)
    requires forall i, j | 0 <= i < j < |ids| :: ids[i] != ids[j]
    ensures forall id :: multiset(ids)[id] == if id in ids then 1 else 0
  {
    if ids != [] {
      var n := |ids| - 1;
      DistinctMultiset(ids[..n]);
      assert ids == ids[..n] + [ids[n]];
    }
  }

  lemma RepeatCounts(ids: seq<string>, i: nat, j: nat)
    requires i < j < |ids| && ids[i] == ids[j]
    ensures multiset(ids)[ids[i]] >= 2
  {
    assert ids == ids[..j] + [ids[j]] + ids[j + 1..];
    assert ids[..j][i] == ids[i];
    assert ids[i] in multiset(ids[..j]);
  }

  /** Sorting a repetition-free list of the top answers gives their ranking. */
  lemma RankingOf(ids: seq<string>, top: set<string>)
    requires forall i, j | 0 <= i < j < |ids| :: ids[i] != ids[j]
    requires forall id :: id in ids <==> id in top
    ensures Ranks(Sort(LexLeq, ids), top)
  {
    var sorted := Sort(LexLeq, ids);
    assert Sorted(LexLeq, sorted) by {
      LexIsTotalOrder();
      SortSorts(LexLeq, ids);
    }
    DistinctMultiset(ids);
    forall i, j | 0 <= i < j < |sorted| ensures sorted[i] != sorted[j] {
      if sorted[i] == sorted[j] {
        RepeatCounts(sorted, i, j);
      }
    }
    forall id ensures id in sorted <==> id in top {
      assert id in sorted <==> id in multiset(sorted);
      assert id in ids <==> id in multiset(ids);
    }
  }

  lemma RankingUnique(a: seq<string>, b: seq<string>, top: set<string>)
    requires Ranks(a, top) && Ranks(b, top)
    ensures a == b
  {
    LexIsTotalOrder();
    DistinctMultiset(a);
    DistinctMultiset(b);
    forall id ensures multiset(a)[id] == multiset(b)[id] {
      assert id in a <==> id in b;
    }
    assert multiset(a) == multiset(b);
    SortedUnique(LexLeq, a, b);
  }

  // ----- the verdict is determined by the scores, not by any iteration order -----

  lemma VerdictUnique(winner: string, tied: seq<string>, winner': string, tied': seq<string>, table: map<string, real>)
    requires IsVerdict(winner, tied, table) && IsVerdict(winner', tied', table)
    ensures winner == winner' && tied == tied'
  {
    if TopOf(table) != {} {
      RankingUnique([winner] + tied, [winner'] + tied', TopOf(table));
      assert ([winner] + tied)[0] == ([winner'] + tied')[0];
      assert tied == ([winner] + tied)[1..] == ([winner'] + tied')[1..] == tied';
    }
  }

  function Pairs(scores: seq<Score>): (r: seq<(string, real)>)
    ensures |r| == |scores|
    ensures forall i | 0 <= i < |scores| :: r[i] == (scores[i].answerId, scores[i].value)
  {
    seq(|scores|, i requires 0 <= i < |scores| => (scores[i].answerId, scores[i].value))
  }

  lemma {:induction false} GroupCounts(scores: seq<Score>, id: string, v: real)
    ensures multiset(Group(scores, id))[v] == multiset(Pairs(scores))[(id, v)]
  {
    if scores != [] {
      var n := |scores| - 1;
      GroupCounts(scores[..n], id, v);
      assert Pairs(scores) == Pairs(scores[..n]) + [(scores[n].answerId, scores[n].value)];
    }
  }

  /** Reordering the scores permutes every group, so it leaves the table alone. */
  lemma TablePermutation(a: seq<Score>, b: seq<Score>, known: set<string>, policy: Policy)
    requires multiset(Pairs(a)) == multiset(Pairs(b))
    ensures Table(a, known, policy) == Table(b, known, policy)
  {
    forall id
      ensures |Group(a, id)| == |Group(b, id)|
      ensures Aggregate(policy, Group(a, id)) == Aggregate(policy, Group(b, id))
    {
      forall v ensures multiset(Group(a, id))[v] == multiset(Group(b, id))[v] {
        GroupCounts(a, id, v);
        GroupCounts(b, id, v);
      }
      assert multiset(Group(a, id)) == multiset(Group(b, id));
      assert |multiset(Group(a, id))| == |multiset(Group(b, id))|;
      AggregatePermutation(policy, Group(a, id), Group(b, id));
    }
  }

  /** Winner and ties depend only on the multiset of (answer, value) pairs and on the set of known answers. */
  lemma OrderIndependence(a: seq<Score>, b: seq<Score>, answers: seq<string>, answers': seq<string>, policy: Policy,
                          winner: string, tied: seq<string>, winner': string, tied': seq<string>)
    requires multiset(Pairs(a)) == multiset(Pairs(b)) && Known(answers) == Known(answers')
    requires IsVerdict(winner, tied, Table(a, Known(answers), policy))
    requires IsVerdict(winner', tied', Table(b, Known(answers'), policy))
    ensures winner == winner' && tied == tied'
  {
    TablePermutation(a, b, Known(answers), policy);
    VerdictUnique(winner, tied, winner', tied', Table(a, Known(answers), policy));
  }

  /** A nonempty table has a greatest entry. */
  lemma GreatestEntry(table: map<string, real>) returns (best: string)
    requires table != map[]
    ensures best in table && forall id | id in table :: table[id] <= table[best]
  {
    assert table.Keys != {};
    var pending := table.Keys;
    best :| best in pending;
    while pending != {}
      invariant pending <= table.Keys && best in table
      invariant forall id | id in table.Keys - pending :: table[id] <= table[best]
      decreases |pending|
    {
      var id :| id in pending;
      if table[id] > table[best] {
        best := id;
      }
      pending := pending - {id};
    }
  }

  lemma {:induction false} GroupNonEmpty(scores: seq<Score>, id: string)
    ensures Group(scores, id) != [] <==> exists i :: 0 <= i < |scores| && scores[i].answerId == id
  {
    if scores != [] {
      var n := |scores| - 1;
      GroupNonEmpty(scores[..n], id);
      if i :| 0 <= i < |scores| && scores[i].answerId == id {
        assert i < n ==> scores[..n][i].answerId == id;
      }
    }
  }

  /** There is a winner exactly when some score names a known answer; it is the least tied ID, and ties lie within
      EPSILON of the greatest aggregate. */
  lemma VerdictMeaning(scores: seq<Score>, answers: seq<string>, policy: Policy, winner: string, tied: seq<string>)
    requires IsVerdict(winner, tied, Table(scores, Known(answers), policy))
    ensures var table := Table(scores, Known(answers), policy);
            if exists i :: 0 <= i < |scores| && scores[i].answerId in answers then
              && winner in table
              && (forall id :: id in [winner] + tied <==>
                    id in table && forall rival | rival in table :: table[rival] <= table[id] + EPSILON)
              && forall id | id in tied :: LexLeq(winner, id) && id != winner
            else winner == "" && tied == []
  {
    var table := Table(scores, Known(answers), policy);
    if i :| 0 <= i < |scores| && scores[i].answerId in answers {
      GroupNonEmpty(scores, scores[i].answerId);
      assert scores[i].answerId in table;
      var best := GreatestEntry(table);
      assert best in TopOf(table);
      var ids := [winner] + tied;
      assert ids[0] in TopOf(table);
      forall id | id in tied ensures LexLeq(winner, id) && id != winner {
        var j :| 0 <= j < |tied| && tied[j] == id;
        assert ids[0] == winner && ids[j + 1] == id;
      }
    } else if TopOf(table) != {} {
      var id :| id in TopOf(table);
      GroupNonEmpty(scores, id);
      assert false;
    }
  }

  // ----- winner monotonicity -----

  /** Raising the leader while nobody else gains, without lowering the best aggregate, keeps the leader and adds no
      ties. */
  lemma TopStable(table: map<string, real>, table': map<string, real>, leader: string, best': string)
    requires table.Keys == table'.Keys && leader in TopOf(table)
    requires table'[leader] >= table[leader]
    requires forall id | id in table && id != leader :: table'[id] <= table[id]
    requires best' in table' && forall id | id in table :: table[id] <= table'[best']
    ensures leader in TopOf(table')
    ensures TopOf(table') <= TopOf(table)
  {
    forall rival | rival in table' ensures table'[rival] - table'[leader] <= EPSILON {
      assert rival in table;
    }
    forall id | id in TopOf(table') ensures id in TopOf(table) {
      if id != leader {
        assert table'[best'] - table'[id] <= EPSILON;
      }
    }
  }

  lemma LeaderKeeps(table: map<string, real>, table': map<string, real>, winner: string, tied: seq<string>,
                    winner': string, tied': seq<string>)
    requires IsVerdict(winner, tied, table) && IsVerdict(winner', tied', table')
    requires winner in TopOf(table) && winner in TopOf(table') && TopOf(table') <= TopOf(table)
    ensures winner' == winner
    ensures forall id | id in tied' :: id in tied
  {
    var ids, ids' := [winner] + tied, [winner'] + tied';
    assert winner in ids';
    assert ids'[0] in TopOf(table);
    if winner' != winner {
      var j :| 0 <= j < |ids'| && ids'[j] == winner;
      assert LexLeq(ids'[0], ids'[j]);
      assert winner' in ids;
      var i :| 0 <= i < |ids| && ids[i] == winner';
      assert LexLeq(ids[0], ids[i]);
      LexTotal(winner, winner');
    }
    forall id | id in tied' ensures id in tied {
      var j :| 0 <= j < |tied'| && tied'[j] == id;
      assert ids'[0] != ids'[j + 1];
      assert id in ids;
    }
  }

  lemma {:induction false} GroupOfRaised(scores: seq<Score>, i: nat, value: real, id: string)
    requires i < |scores| && value >= scores[i].value
    ensures var raised := Group(scores[i := scores[i].(value := value)], id);
            && |raised| == |Group(scores, id)|
            && (forall k | 0 <= k < |raised| :: Group(scores, id)[k] <= raised[k])
            && (id != scores[i].answerId ==> raised == Group(scores, id))
    decreases |scores|
  {
    var n := |scores| - 1;
    var changed := scores[i := scores[i].(value := value)];
    if i == n {
      assert changed[..n] == scores[..n];
    } else {
      assert changed[..n] == scores[..n][i := scores[i].(value := value)];
      GroupOfRaised(scores[..n], i, value, id);
    }
  }

  /** Raising one score of the current winner keeps that answer the winner and can only shed ties. */
  lemma WinnerMonotone(scores: seq<Score>, i: nat, value: real, answers: seq<string>, policy: Policy,
                       winner: string, tied: seq<string>, winner': string, tied': seq<string>)
    requires i < |scores| && scores[i].answerId == winner && winner in answers
    requires value >= scores[i].value
    requires IsVerdict(winner, tied, Table(scores, Known(answers), policy))
    requires IsVerdict(winner', tied', Table(scores[i := scores[i].(value := value)], Known(answers), policy))
    ensures winner' == winner
    ensures forall id | id in tied' :: id in tied
  {
    var raised := scores[i := scores[i].(value := value)];
    var table, table' := Table(scores, Known(answers), policy), Table(raised, Known(answers), policy);
    VerdictMeaning(scores, answers, policy, winner, tied);
    forall id
      ensures id in table <==> id in table'
      ensures id in table ==> if id == winner then table[id] <= table'[id] else table'[id] == table[id]
    {
      GroupOfRaised(scores, i, value, id);
      AggregateMonotone(policy, Group(scores, id), Group(raised, id));
    }
    assert winner in [winner] + tied;
    var best' := GreatestEntry(table');
    forall id | id in table ensures table[id] <= table'[best'] {
      assert id in table' && table[id] <= table'[id];
    }
    TopStable(table, table', winner, best');
    LeaderKeeps(table, table', winner, tied, winner', tied');
  }

  // ----- lowering a rival -----

  /** Nobody but the rival changes, and the rival does not gain. */
  ghost predicate OnlyLowers(table: map<string, real>, table': map<string, real>, rival: string) {
    && table.Keys == table'.Keys
    && forall id | id in table :: if id == rival then table'[id] <= table[id] else table'[id] == table[id]
  }

  ghost predicate Greatest(table: map<string, real>, id: string) {
    id in table && forall other | other in table :: table[other] <= table[id]
  }

  /** No answer with a smaller ID than the winner comes within EPSILON of the new greatest aggregate. */
  ghost predicate NoneMovesUp(table: map<string, real>, rival: string, winner: string, highest: real) {
    forall id | id in table && id != rival && id != winner && LexLeq(id, winner) :: table[id] < highest - EPSILON
  }

  lemma WinnerIsLeastTop(winner: string, tied: seq<string>, table: map<string, real>)
    requires IsVerdict(winner, tied, table) && TopOf(table) != {}
    ensures winner in TopOf(table)
    ensures forall id | id in TopOf(table) :: LexLeq(winner, id)
  {
    var ids := [winner] + tied;
    assert winner in ids;
    forall id | id in TopOf(table) ensures LexLeq(winner, id) {
      assert id in ids;
      var j :| 0 <= j < |ids| && ids[j] == id;
      LexTotal(winner, winner);
      assert j == 0 || LexLeq(ids[0], ids[j]);
    }
  }

  lemma TopIsNearGreatest(table: map<string, real>, best: string, id: string)
    requires Greatest(table, best)
    ensures id in TopOf(table) <==> id in table && table[best] - table[id] <= EPSILON
  {
    if id in TopOf(table) {
      assert best in table;
    }
  }

  /** When a rival of the winner drops, the winner stays exactly if no answer with a smaller ID, the rival aside, comes
      within EPSILON of what is then the greatest aggregate. */
  lemma LoweringARival(table: map<string, real>, table': map<string, real>, rival: string, best': string,
                       winner: string, tied: seq<string>, winner': string, tied': seq<string>)
    requires OnlyLowers(table, table', rival) && rival != winner
    requires IsVerdict(winner, tied, table) && IsVerdict(winner', tied', table')
    requires Greatest(table', best')
    ensures winner' == winner <==> NoneMovesUp(table, rival, winner, table'[best'])
  {
    var best := GreatestEntry(table);
    TopIsNearGreatest(table, best, best);
    WinnerIsLeastTop(winner, tied, table);
    TopIsNearGreatest(table', best', best');
    WinnerIsLeastTop(winner', tied', table');
    TopIsNearGreatest(table, best, winner);
    TopIsNearGreatest(table', best', winner);
    assert table'[best'] <= table[best'] <= table[best];
    LexTotal(winner, winner');
    if winner' == winner {
      forall id | id in table && id != rival && id != winner && LexLeq(id, winner)
        ensures table[id] < table'[best'] - EPSILON
      {
        TopIsNearGreatest(table', best', id);
        LexTotal(id, winner);
      }
    } else {
      TopIsNearGreatest(table', best', winner');
      TopIsNearGreatest(table, best, winner');
      RivalStaysBelow(table, table', rival, best, best');
      TopIsNearGreatest(table, best, rival);
      assert winner' != rival;
    }
  }

  /** A rival outside the tie set stays outside when it drops. */
  lemma RivalStaysBelow(table: map<string, real>, table': map<string, real>, rival: string, best: string, best': string)
    requires OnlyLowers(table, table', rival) && Greatest(table, best) && Greatest(table', best')
    ensures rival in TopOf(table') ==> rival in TopOf(table)
  {
    TopIsNearGreatest(table, best, rival);
    TopIsNearGreatest(table', best', rival);
    if rival in table && rival !in TopOf(table) {
      assert best != rival && table'[best] == table[best];
    }
  }

  /** In particular the winner stays whenever some other answer than the rival has the greatest aggregate. */
  lemma LoweringNoSoleLeader(table: map<string, real>, table': map<string, real>, rival: string, best: string,
                             winner: string, tied: seq<string>, winner': string, tied': seq<string>)
    requires OnlyLowers(table, table', rival) && rival != winner
    requires IsVerdict(winner, tied, table) && IsVerdict(winner', tied', table')
    requires Greatest(table, best) && best != rival
    ensures winner' == winner
  {
    assert Greatest(table', best);
    TopIsNearGreatest(table, best, best);
    WinnerIsLeastTop(winner, tied, table);
    forall id | id in table && id != rival && id != winner && LexLeq(id, winner)
      ensures table[id] < table'[best] - EPSILON
    {
      TopIsNearGreatest(table, best, id);
      LexTotal(id, winner);
    }
    LoweringARival(table, table', rival, best, winner, tied, winner', tied');
  }

  lemma LoweredTable(scores: seq<Score>, i: nat, value: real, known: set<string>, policy: Policy)
    requires i < |scores| && value <= scores[i].value
    ensures OnlyLowers(Table(scores, known, policy), Table(scores[i := scores[i].(value := value)], known, policy),
                       scores[i].answerId)
  {
    var lowered := scores[i := scores[i].(value := value)];
    var table, table' := Table(scores, known, policy), Table(lowered, known, policy);
    assert lowered[i := lowered[i].(value := scores[i].value)] == scores;
    forall id
      ensures id in table <==> id in table'
      ensures id in table ==> if id == scores[i].answerId then table'[id] <= table[id] else table'[id] == table[id]
    {
      GroupOfRaised(lowered, i, scores[i].value, id);
      AggregateMonotone(policy, Group(lowered, id), Group(scores, id));
    }
  }

  /** Lowering one score of an answer other than the winner keeps the winner exactly under the condition above, for
      every policy. */
  lemma WinnerUnderLowering(scores: seq<Score>, i: nat, value: real, answers: seq<string>, policy: Policy,
                            best': string, winner: string, tied: seq<string>, winner': string, tied': seq<string>)
    requires i < |scores| && scores[i].answerId != winner && value <= scores[i].value
    requires IsVerdict(winner, tied, Table(scores, Known(answers), policy))
    requires var table' := Table(scores[i := scores[i].(value := value)], Known(answers), policy);
             IsVerdict(winner', tied', table') && Greatest(table', best')
    ensures var table' := Table(scores[i := scores[i].(value := value)], Known(answers), policy);
            winner' == winner <==>
            NoneMovesUp(Table(scores, Known(answers), policy), scores[i].answerId, winner, table'[best'])
  {
    var table, table' := Table(scores, Known(answers), policy),
      Table(scores[i := scores[i].(value := value)], Known(answers), policy);
    LoweredTable(scores, i, value, Known(answers), policy);
    LoweringARival(table, table', scores[i].answerId, best', winner, tied, winner', tied');
  }

  /** The winner survives the lowering of any answer that does not alone have the greatest aggregate. */
  lemma WinnerSurvivesLowering(scores: seq<Score>, i: nat, value: real, answers: seq<string>, policy: Policy,
                               best: string, winner: string, tied: seq<string>, winner': string, tied': seq<string>)
    requires i < |scores| && scores[i].answerId != winner && value <= scores[i].value
    requires IsVerdict(winner, tied, Table(scores, Known(answers), policy))
    requires IsVerdict(winner', tied', Table(scores[i := scores[i].(value := value)], Known(answers), policy))
    requires Greatest(Table(scores, Known(answers), policy), best) && best != scores[i].answerId
    ensures winner' == winner
  {
    var table, table' := Table(scores, Known(answers), policy),
      Table(scores[i := scores[i].(value := value)], Known(answers), policy);
    LoweredTable(scores, i, value, Known(answers), policy);
    LoweringNoSoleLeader(table, table', scores[i].answerId, best, winner, tied, winner', tied');
  }

  /** The table when every answer has exactly one score. */
  lemma OneScoreEach(scores: seq<Score>, known: set<string>, policy: Policy)
    requires policy.rule.MeanRule?
    requires forall i, j | 0 <= i < j < |scores| :: scores[i].answerId != scores[j].answerId
    requires forall id :: id in known <==> exists i :: 0 <= i < |scores| && scores[i].answerId == id
    ensures Table(scores, known, policy).Keys == known
    ensures forall i | 0 <= i < |scores| :: Table(scores, known, policy)[scores[i].answerId] == scores[i].value
  {
    forall id ensures id in known <==> Group(scores, id) != [] {
      GroupNonEmpty(scores, id);
    }
    forall i | 0 <= i < |scores| ensures Aggregate(policy, Group(scores, scores[i].answerId)) == scores[i].value {
      OnlyScore(scores, i);
      SmallMeans(scores[i].value, 0.0);
    }
  }

  lemma {:induction false} OnlyScore(scores: seq<Score>, i: nat)
    requires i < |scores|
    requires forall j, k | 0 <= j < k < |scores| :: scores[j].answerId != scores[k].answerId
    ensures Group(scores, scores[i].answerId) == [scores[i].value]
  {
    var n := |scores| - 1;
    if i == n {
      GroupNonEmpty(scores[..n], scores[i].answerId);
    } else {
      OnlyScore(scores[..n], i);
    }
  }

  /** One score for each of a, b and c: one half, half a billionth above it, and the given one. */
  ghost function ThreeScores(c: real): seq<Score> {
    [Score("a", 0.5, true, "", true, false, 0), Score("b", 0.5000000005, true, "", true, false, 0),
     Score("c", c, true, "", true, false, 0)]
  }

  /** Lowering a rival may dethrone the winner: with scores a < b < c spread over one and a half billionths, b wins, and
      loses to a once c drops. */
  lemma LoweringARivalMayDethrone()
    ensures var answers, policy := ["a", "b", "c"], Policy(MeanRule, 0.0);
            && IsVerdict("b", ["c"], Table(ThreeScores(0.5000000015), Known(answers), policy))
            && IsVerdict("a", ["b"], Table(ThreeScores(0.0), Known(answers), policy))
  {
    ThreeTable(0.5000000015);
    ThreeTable(0.0);
    DethronedOnTables();
  }

  ghost function ThreeEntries(c: real): map<string, real> {
    map["a" := 0.5, "b" := 0.5000000005, "c" := c]
  }

  lemma ThreeTable(c: real)
    ensures Table(ThreeScores(c), Known(["a", "b", "c"]), Policy(MeanRule, 0.0)) == ThreeEntries(c)
  {
    var scores := ThreeScores(c);
    assert scores[0].answerId == "a" && scores[1].answerId == "b" && scores[2].answerId == "c";
    assert Known(["a", "b", "c"]) == {"a", "b", "c"};
    OneScoreEach(scores, {"a", "b", "c"}, Policy(MeanRule, 0.0));
  }

  lemma DethronedOnTables()
    ensures IsVerdict("b", ["c"], ThreeEntries(0.5000000015))
    ensures IsVerdict("a", ["b"], ThreeEntries(0.0))
  {
    var table, table' := ThreeEntries(0.5000000015), ThreeEntries(0.0);
    assert table["c"] - table["a"] > EPSILON;
    assert table'["b"] - table'["c"] > EPSILON;
    assert TopOf(table) == {"b", "c"};
    assert TopOf(table') == {"a", "b"};
    assert ["b"] + ["c"] == ["b", "c"] && ["a"] + ["b"] == ["a", "b"];
  }

  // ----- the whole activity -----

  datatype Verdict = Verdict(
    aggregate: real, winner: string, tied: seq<string>, validCount: nat, totalCount: nat, cents: int)

  /** Invalid scores never count, except for the cost. It is an error if the input or the output fails its declared
      validation, which are verdicts of a library here, if reasoning is missing, if there are too few valid scores, or
      if the method is unknown while there is something to combine. */
  method AggregateScores(scores: seq<Score>, minValidScores: int, answers: seq<string>, policy: Policy,
                         inputValid: bool, outputValid: Verdict -> bool)
    returns (r: Result<Verdict>)
    ensures var valid := ValidScores(scores);
            && (r.Ok? ==>
                  && inputValid && outputValid(r.value)
                  && (forall i | 0 <= i < |scores| :: scores[i].IsReasoned())
                  && |valid| >= minValidScores && (valid == [] || !policy.rule.UnknownRule?)
                  && IsOutput(r.value, scores, answers, policy))
            && (r.Err? ==>
                  || !inputValid
                  || (exists i :: 0 <= i < |scores| && !scores[i].IsReasoned())
                  || |valid| < minValidScores
                  || (valid != [] && policy.rule.UnknownRule?)
                  || exists v :: IsOutput(v, scores, answers, policy) && !outputValid(v))
  {
    if !inputValid {
      return Err("invalid input");
    }
    var reasoned := ValidateScoreReasoning(scores);
    if !reasoned {
      return Err("reasoning validation failed");
    }
    var valid := FilterValidScores(scores);
    FilteredAreValid(scores);
    if |valid| < minValidScores {
      return Err("minimum valid scores not met");
    }
    var aggregate := ApplyAggregationPolicy(valid, policy);
    if aggregate.Err? {
      return Err("aggregation failed");
    }
    var winner, tied := DetermineWinner(valid, answers, policy);
    var cents := AggregateCosts(scores);
    var output := Verdict(aggregate.value, winner, tied, |valid|, |scores|, cents);
    assert IsOutput(output, scores, answers, policy);
    if !outputValid(output) {
      return Err("invalid output");
    }
    return Ok(output);
  }

  /** What the activity reports for the scores. */
  ghost predicate IsOutput(v: Verdict, scores: seq<Score>, answers: seq<string>, policy: Policy) {
    var valid := ValidScores(scores);
    && v.aggregate == Aggregate(policy, Values(valid))
    && v.validCount == |valid| && v.totalCount == |scores| && v.cents == Cost(scores)
    && IsVerdict(v.winner, v.tied, Table(valid, Known(answers), policy))
  }

  /** The scores leave one report only, so whether it passes its validation is decided, too. */
  lemma OutputUnique(v: Verdict, v': Verdict, scores: seq<Score>, answers: seq<string>, policy: Policy)
    requires IsOutput(v, scores, answers, policy) && IsOutput(v', scores, answers, policy)
    ensures v == v'
  {
    VerdictUnique(v.winner, v.tied, v'.winner, v'.tied, Table(ValidScores(scores), Known(answers), policy));
  }

  lemma {:induction false} FilteredAreValid(scores: seq<Score>)
    ensures forall i | 0 <= i < |ValidScores(scores)| :: ValidScores(scores)[i].IsValid()
  {
    if scores != [] {
      FilteredAreValid(scores[..|scores| - 1]);
    }
  }
}

// What the fill computes: best[k] is the largest value of any selection of
// campaigns (each usable any number of times) that uses at most k impressions.
module Optimality {
  import opened Campaigns
  import opened Table
  import opened Extraction
  import Priority
  import Dominance

  /** A selection (one entry per selected unit) drawn from the list that uses
      at most k impressions. */
  ghost predicate Feasible(cs: seq<Campaign>, s: seq<Campaign>, k: int)
  {
    (forall x :: x in s ==> x in cs) && Sum(s, CostOf) <= k
  }

  lemma {:induction false} SelectionCostNonNegative(cs: seq<Campaign>, s: seq<Campaign>)
    requires PositiveCosts(cs) && forall x :: x in s ==> x in cs
    ensures Sum(s, CostOf) >= |s|
  {
    if s != [] {
      SelectionCostNonNegative(cs, s[1..]);
    }
  }

  /** On tables closed under the list with no negative level, no feasible
      selection is worth more than best[k]. */
  lemma {:induction false} ClosedBoundsSelections(cs: seq<Campaign>, best: seq<int>, s: seq<Campaign>, k: int)
    requires PositiveCosts(cs) && Closed(cs, best) && 0 <= k < |best|
    requires NonNegative(best)
    requires Feasible(cs, s, k)
    ensures Sum(s, ValueOf) <= best[k]
    decreases |s|
  {
    if s != [] {
      var c := s[0];
      SelectionCostNonNegative(cs, s[1..]);
      ClosedBoundsSelections(cs, best, s[1..], k - c.cost);
      assert Candidate(c, best, k) <= best[k];
    }
  }

  /** The bound for every feasible selection at once. */
  lemma ClosedIsUpperBound(cs: seq<Campaign>, best: seq<int>, k: int)
    requires PositiveCosts(cs) && Closed(cs, best) && 0 <= k < |best|
    requires NonNegative(best)
    ensures forall s :: Feasible(cs, s, k) ==> Sum(s, ValueOf) <= best[k]
  {
    forall s | Feasible(cs, s, k)
      ensures Sum(s, ValueOf) <= best[k]
    {
      ClosedBoundsSelections(cs, best, s, k);
    }
  }

  /** The fill is optimal: from blank tables, best[k] is the value of the
      selection the backtrack recovers from level k, that selection is
      feasible, and no feasible selection is worth more. */
  lemma FillIsOptimal(cs: seq<Campaign>, init: seq<int>, initCh: seq<Option<Campaign>>, n: int, k: int)
    requires PositiveCosts(cs) && Blank(init, initCh) && 0 <= k < n <= |init|
    ensures var r := Fill(cs, init, initCh, n);
      && ChoicesFit(r.1)
      && Feasible(cs, Picks(r.1, k), k)
      && Sum(Picks(r.1, k), ValueOf) == r.0[k]
      && forall s :: Feasible(cs, s, k) ==> Sum(s, ValueOf) <= r.0[k]
  {
    var r := Fill(cs, init, initCh, n);
    FillFromBlank(cs, init, initCh, n);
    PicksRoundTrip(r.0, r.1, k);
    PicksFromList(cs, r.1, k);
    ClosedIsUpperBound(cs, r.0, k);
  }

  /** best is non-decreasing in the capacity: unused impressions cost nothing. */
  lemma FillMonotone(cs: seq<Campaign>, init: seq<int>, initCh: seq<Option<Campaign>>, n: int, k1: int, k2: int)
    requires PositiveCosts(cs) && Blank(init, initCh) && 0 <= k1 <= k2 < n <= |init|
    ensures Fill(cs, init, initCh, n).0[k1] <= Fill(cs, init, initCh, n).0[k2]
  {
    var r := Fill(cs, init, initCh, n);
    FillIsOptimal(cs, init, initCh, n, k1);
    FillIsOptimal(cs, init, initCh, n, k2);
    assert Feasible(cs, Picks(r.1, k1), k2);
  }

  /** The values of the fill depend only on which campaigns the list holds,
      not on their order or repetition; only the choices may differ. */
  lemma FillValueIgnoresOrder(cs: seq<Campaign>, ds: seq<Campaign>, init: seq<int>, initCh: seq<Option<Campaign>>, n: int)
    requires PositiveCosts(cs) && Blank(init, initCh) && 1 <= n <= |init|
    requires forall c :: c in cs <==> c in ds
    ensures Fill(cs, init, initCh, n).0 == Fill(ds, init, initCh, n).0
  {
    var r, q := Fill(cs, init, initCh, n), Fill(ds, init, initCh, n);
    forall k | 0 <= k < n
      ensures r.0[k] == q.0[k]
    {
      FillIsOptimal(cs, init, initCh, n, k);
      FillIsOptimal(ds, init, initCh, n, k);
      assert Feasible(ds, Picks(r.1, k), k);
      assert Feasible(cs, Picks(q.1, k), k);
    }
  }

  /** applyPriorityCampaigns does not change any value of the fill. */
  lemma SortKeepsFillValues(before: (Campaign, Campaign) -> bool, cs: seq<Campaign>, init: seq<int>, initCh: seq<Option<Campaign>>, n: int)
    requires PositiveCosts(cs) && Blank(init, initCh) && 1 <= n <= |init|
    ensures PositiveCosts(Priority.SortBy(before, cs))
    ensures Fill(Priority.SortBy(before, cs), init, initCh, n).0 == Fill(cs, init, initCh, n).0
  {
    var ds := Priority.SortBy(before, cs);
    assert forall c :: c in cs <==> c in ds by {
      assert forall c :: c in cs <==> c in multiset(cs);
      assert forall c :: c in ds <==> c in multiset(ds);
    }
    FillValueIgnoresOrder(ds, cs, init, initCh, n);
  }

  /** Without campaigns every level stays at 0 and the backtrack recovers nothing. */
  lemma EmptyListSolvesToZero(init: seq<int>, initCh: seq<Option<Campaign>>, n: int, k: int)
    requires Blank(init, initCh) && 0 <= k < n <= |init|
    ensures var r := Fill([], init, initCh, n);
      r.0[k] == 0 && r.1[k] == None && ChoicesFit(r.1) && Picks(r.1, k) == []
  {
    FillKeepsClosedTable([], init, initCh, n);
    var r := Fill([], init, initCh, n);
    assert r.0[k] == init[k] && r.1[k] == initCh[k];
  }

  /** The pruning of the example list: (3, 4) knocks out (2, 2), since
      (3 * 2) / 4 == 1 < 2, and the last campaign is never tested. */
  lemma PruneExample()
    ensures var a, b, c := Campaign("a", 3, 4), Campaign("b", 2, 2), Campaign("c", 5, 1);
      Dominance.DividesSafely([a, b, c], 0) && Dominance.Prune([a, b, c]) == [a, c]
  {
    var a, b, c := Campaign("a", 3, 4), Campaign("b", 2, 2), Campaign("c", 5, 1);
    var L := [a, b, c];
    assert Dominance.Dominates(a, b) by {
      assert Dominance.JavaDiv(6, 4) == 1;
    }
    var s' := Dominance.RemoveAt(L, 1);
    assert s' == [a, c];
    assert Dominance.PruneFrom(a, L, 1) == Dominance.PruneFrom(a, s', 2);
    assert Dominance.PruneFrom(a, s', 2) == s';
    assert Dominance.PruneOuter(L, 0) == Dominance.PruneOuter(s', 1);
  }

  /** The fill of the example tables up to level 2, with and without (2, 2):
      no campaign fits level 1, and only (2, 2) fits level 2. */
  lemma FillExample()
    ensures var a, b, c := Campaign("a", 3, 4), Campaign("b", 2, 2), Campaign("c", 5, 1);
      && Fill([a, b, c], [0, 0, 0], [None, None, None], 3).0 == [0, 0, 2]
      && Fill([a, c], [0, 0, 0], [None, None, None], 3).0 == [0, 0, 0]
  {
    var a, b, c := Campaign("a", 3, 4), Campaign("b", 2, 2), Campaign("c", 5, 1);
    var init, initCh := [0, 0, 0], [None, None, None];
    var all, pruned := [a, b, c], [a, c];
    assert Fill(all, init, initCh, 1) == ([0], [None]);
    assert Fill(pruned, init, initCh, 1) == ([0], [None]);
    assert Improve(all, 0, [0], 1, 0, None) == (0, None) by {
      assert Improve(all, 1, [0], 1, 0, None) == (0, None);
    }
    assert Improve(pruned, 0, [0], 1, 0, None) == (0, None) by {
      assert Improve(pruned, 1, [0], 1, 0, None) == (0, None);
    }
    assert Fill(all, init, initCh, 2) == ([0] + [0], [None] + [None]);
    assert Fill(pruned, init, initCh, 2) == ([0] + [0], [None] + [None]);
    assert Improve(all, 2, [0, 0], 2, 2, Some(b)) == (2, Some(b));
    assert Improve(all, 0, [0, 0], 2, 0, None).0 == 2;
    assert Improve(pruned, 1, [0, 0], 2, 0, None) == (0, None);
    assert Improve(pruned, 0, [0, 0], 2, 0, None).0 == 0;
  }

  /** applyDominance can lower the optimum: with the list [(3, 4), (2, 2), (5, 1)]
      (cost, value) and 2 impressions, the middle campaign is pruned and the
      best value drops from 2 to 0. */
  lemma PruneCanLoseOptimum()
    ensures var a, b, c := Campaign("a", 3, 4), Campaign("b", 2, 2), Campaign("c", 5, 1);
      && Dominance.DividesSafely([a, b, c], 0)
      && Fill([a, b, c], [0, 0, 0], [None, None, None], 3).0[2] == 2
      && Fill(Dominance.Prune([a, b, c]), [0, 0, 0], [None, None, None], 3).0[2] == 0
  {
    var a, b, c := Campaign("a", 3, 4), Campaign("b", 2, 2), Campaign("c", 5, 1);
    PruneExample();
    FillExample();
  }
}

// The Solver class: two tables indexed by the number of impressions, filled by
// dynamic programming and read back by a backtrack, and the campaign list,
// which may be sorted or pruned before a fill.
module Optimizer {
  import opened Campaigns
  import opened Table
  import opened Extraction
  import Priority
  import Dominance
  import Optimality

  /** What obtainKnapsack returns: the value reached, the capacity it was
      reached for, and how many units of each campaign make it up. */
  datatype Knapsack = Knapsack(value: int, capacity: int, campaigns: map<Campaign, nat>)

  /** What the solver keeps between calls: the tables agree level by level
      (Consistent), no level is negative, the reported solution is a level of
      the table, and the tables are still as allocated or no campaign of the
      list can raise any level. */
  ghost predicate TablesInvariant(cs: seq<Campaign>, best: seq<int>, choice: seq<Option<Campaign>>, bt: int, v: int)
  {
    && 1 <= |best| == |choice|
    && Consistent(best, choice) && NonNegative(best)
    && 0 <= bt < |best| && v == best[bt]
    && (Blank(best, choice) || Closed(cs, best))
  }

  /** A whole fill keeps the invariant and leaves the tables closed under the
      list; from blank tables it solves them. */
  lemma FillKeepsTablesInvariant(cs: seq<Campaign>, init: seq<int>, initCh: seq<Option<Campaign>>, bt: int, v: int)
    requires PositiveCosts(cs) && TablesInvariant(cs, init, initCh, bt, v)
    ensures var r, top := Fill(cs, init, initCh, |init|), |init| - 1;
      && TablesInvariant(cs, r.0, r.1, top, r.0[top])
      && Closed(cs, r.0)
      && (Blank(init, initCh) ==> Solved(cs, r.0, r.1))
  {
    FillKeepsInvariant(cs, init, initCh);
  }

  /** Dropping or reordering campaigns keeps the invariant: a table no
      campaign could raise stays so when the list only loses members. */
  lemma TablesInvariantForFewerCampaigns(cs: seq<Campaign>, ds: seq<Campaign>, best: seq<int>, choice: seq<Option<Campaign>>, bt: int, v: int)
    requires TablesInvariant(cs, best, choice, bt, v)
    requires multiset(ds) <= multiset(cs)
    ensures TablesInvariant(ds, best, choice, bt, v)
  {
    forall c | c in ds
      ensures c in cs
    {
      assert c in multiset(ds);
    }
    if !Blank(best, choice) {
      ClosedForFewerCampaigns(cs, ds, best);
    }
  }

  class Solver {
    /** subproblems: best[k] is the best value found for k impressions. */
    const best: array<int>
    /** campaignsAdded: the campaign whose unit last raised level k, if any. */
    const choice: array<Option<Campaign>>
    var campaigns: seq<Campaign>
    var valueSolution: int
    var backtrackOfSolution: int

    /** The invariant every public operation keeps, on the current contents. */
    ghost predicate Valid()
      reads this, best, choice
    {
      TablesInvariant(campaigns, best[..], choice[..], backtrackOfSolution, valueSolution)
    }

    /** Tables for 0 .. maxImpressions impressions, every level worth 0 and
        without a choice; no solution yet. */
    constructor(campaigns: seq<Campaign>, maxImpressions: int)
      requires maxImpressions >= 0
      ensures Valid() && Blank(best[..], choice[..])
      ensures best.Length == maxImpressions + 1
      ensures this.campaigns == campaigns
      ensures valueSolution == 0 && backtrackOfSolution == 0
      ensures fresh(best) && fresh(choice)
    {
      this.campaigns := campaigns;
      best := new int[maxImpressions + 1](_ => 0);
      choice := new Option<Campaign>[maxImpressions + 1](_ => None);
      backtrackOfSolution := 0;
      valueSolution := 0;
    }

    /** generateSolution: the fill, then the top level becomes the solution.
        The tables end as Fill of their old contents, the invariant is kept,
        no campaign of the list can raise any level any more, and no selection
        of the list within the capacity is worth more than the solution. */
    method GenerateSolution()
      requires Valid() && PositiveCosts(campaigns)
      modifies this, best, choice
      ensures Valid() && campaigns == old(campaigns)
      ensures (best[..], choice[..]) == Fill(campaigns, old(best[..]), old(choice[..]), best.Length)
      ensures backtrackOfSolution == best.Length - 1 && valueSolution == best[best.Length - 1]
      ensures Closed(campaigns, best[..])
      ensures forall s :: Optimality.Feasible(campaigns, s, backtrackOfSolution) ==> Sum(s, ValueOf) <= valueSolution
      ensures old(Blank(best[..], choice[..])) ==> Solved(campaigns, best[..], choice[..])
    {
      FillLevels();
      valueSolution := best[best.Length - 1];
      backtrackOfSolution := best.Length - 1;
      ghost var init, initCh := old(best[..]), old(choice[..]);
      ghost var tables, choices := best[..], choice[..];
      FillKeepsTablesInvariant(campaigns, init, initCh, old(backtrackOfSolution), old(valueSolution));
      Optimality.ClosedIsUpperBound(campaigns, tables, backtrackOfSolution);
    }

    /** The outer loop of the fill: levels 1 up to the top, each by the inner
        loop over the levels below it. The tables end as Fill of their old
        contents. */
    method FillLevels()
      requires PositiveCosts(campaigns) && 1 <= best.Length == choice.Length
      modifies best, choice
      ensures (best[..], choice[..]) == Fill(campaigns, old(best[..]), old(choice[..]), best.Length)
    {
      ghost var init, initCh := best[..], choice[..];
      var i := 1;
      assert best[..1] == [best[0]] && choice[..1] == [choice[0]];
      while i < best.Length
        invariant 1 <= i <= best.Length
        invariant (best[..i], choice[..i]) == Fill(campaigns, init, initCh, i)
        invariant forall k :: i <= k < best.Length ==> best[k] == init[k] && choice[k] == initCh[k]
      {
        label Level:
        ImproveLevel(i);
        assert best[..i] == old@Level(best[..i]) && choice[..i] == old@Level(choice[..i]);
        FillStep(init, initCh, i);
        i := i + 1;
      }
      assert best[..] == best[..best.Length] && choice[..] == choice[..best.Length];
    }

    /** One level of the fill, the inner loop: the campaigns are tried in list
        order, and level i ends as Improve over the levels below it; every
        other level stays as it is. */
    method ImproveLevel(i: int)
      requires PositiveCosts(campaigns) && 1 <= i < best.Length == choice.Length
      modifies best, choice
      ensures forall k :: 0 <= k < best.Length && k != i ==> best[k] == old(best[k]) && choice[k] == old(choice[k])
      ensures (best[i], choice[i]) == Improve(campaigns, 0, old(best[..i]), i, old(best[i]), old(choice[i]))
    {
      ghost var row := best[..i];
      var j := 0;
      while j < |campaigns|
        invariant 0 <= j <= |campaigns|
        invariant forall k :: 0 <= k < best.Length && k != i ==> best[k] == old(best[k]) && choice[k] == old(choice[k])
        invariant Improve(campaigns, j, row, i, best[i], choice[i])
               == Improve(campaigns, 0, row, i, old(best[i]), old(choice[i]))
      {
        var element := campaigns[j];
        var itemWeight := element.cost;
        var itemValue := element.value;
        ghost var b, ch := best[i], choice[i];
        ImproveStep(campaigns, j, row, i, b, ch);
        assert 1 <= itemWeight;
        if itemWeight <= i {
          assert itemValue + best[i - itemWeight] == Candidate(element, row, i);
        }
        if itemWeight <= i && itemValue + best[i - itemWeight] > best[i] {
          best[i] := itemValue + best[i - itemWeight];
          choice[i] := Some(element);
          assert (best[i], choice[i]) == (Candidate(element, row, i), Some(element));
        }
        j := j + 1;
      }
    }

    /** The outer step of the fill: once level i holds Improve over the levels
        below, the first i + 1 levels are Fill(i + 1). */
    lemma FillStep(init: seq<int>, initCh: seq<Option<Campaign>>, i: int)
      requires PositiveCosts(campaigns) && 1 <= i < best.Length == choice.Length == |init| == |initCh|
      requires (best[..i], choice[..i]) == Fill(campaigns, init, initCh, i)
      requires (best[i], choice[i]) == Improve(campaigns, 0, best[..i], i, init[i], initCh[i])
      ensures (best[..i + 1], choice[..i + 1]) == Fill(campaigns, init, initCh, i + 1)
    {
      assert best[..i + 1] == best[..i] + [best[i]];
      assert choice[..i + 1] == choice[..i] + [choice[i]];
    }

    /** The backtrack: from level backtrackOfSolution, count the campaign of the
        level and go down by its cost, until a level without a choice. The map
        counts exactly the units of Picks, their values add up to the solution
        value and their impressions stay within the capacity. */
    method ObtainKnapsack() returns (r: Knapsack)
      requires Valid()
      ensures r.value == valueSolution && r.capacity == backtrackOfSolution
      ensures r.campaigns == CountMap(Picks(choice[..], backtrackOfSolution))
      ensures forall c :: c in r.campaigns <==> c in Picks(choice[..], backtrackOfSolution)
      ensures forall c :: c in r.campaigns ==> r.campaigns[c] >= 1
      ensures MapTotal(r.campaigns, ValueOf) == r.value
      ensures 0 <= MapTotal(r.campaigns, CostOf) <= r.capacity
      ensures backtrackOfSolution == 0 ==> r.campaigns == map[] && r.value == 0
    {
      assert Consistent(best[..], choice[..]);
      var counts := CountBacktrack(backtrackOfSolution);
      r := Knapsack(valueSolution, backtrackOfSolution, counts);
      CountedPicksRoundTrip(best[..], choice[..], backtrackOfSolution);
      CountMapCounts(Picks(choice[..], backtrackOfSolution));
    }

    /** The counting loop of the backtrack, from level top down: the counts of
        the campaigns Picks visits. */
    method CountBacktrack(top: int) returns (counts: map<Campaign, nat>)
      requires ChoicesFit(choice[..]) && 0 <= top < choice.Length
      ensures counts == CountMap(Picks(choice[..], top))
    {
      ghost var ch := choice[..];
      ghost var all := Picks(ch, top);
      counts := map[];
      var lastCampaign := choice[top];
      var i := top;
      ghost var taken: seq<Campaign> := [];
      while lastCampaign.Some? && i >= 0
        invariant 0 <= i < |ch| && lastCampaign == ch[i]
        invariant taken + Picks(ch, i) == all
        invariant counts == CountMap(taken)
        decreases i
      {
        var c := lastCampaign.value;
        BacktrackStep(ch, i, taken, all);
        ghost var prev := counts;
        TallyUnfold(prev, c);
        if c in counts {
          counts := counts[c := counts[c] + 1];
        } else {
          counts := counts[c := 1];
        }
        assert counts == Tally(prev, c);
        taken := taken + [c];
        i := i - c.cost;
        lastCampaign := choice[i];
      }
      assert Picks(ch, i) == [] && taken + [] == taken;
    }

    /** The list sorted stably by the comparator `before`; the tables and the
        solution are untouched. */
    method ApplyPriorityCampaigns(before: (Campaign, Campaign) -> bool)
      requires Valid() && Priority.TotalPreorder(before)
      modifies this
      ensures Valid()
      ensures campaigns == Priority.SortBy(before, old(campaigns))
      ensures Priority.SortedBy(before, campaigns) && multiset(campaigns) == multiset(old(campaigns))
      ensures forall x :: Priority.RankedWith(before, x, campaigns) == Priority.RankedWith(before, x, old(campaigns))
      ensures PositiveCosts(old(campaigns)) ==> PositiveCosts(campaigns)
      ensures valueSolution == old(valueSolution) && backtrackOfSolution == old(backtrackOfSolution)
    {
      campaigns := Priority.SortBy(before, campaigns);
      Priority.SortBySorted(before, old(campaigns));
      forall x
        ensures Priority.RankedWith(before, x, campaigns) == Priority.RankedWith(before, x, old(campaigns))
      {
        Priority.SortByStable(before, old(campaigns), x);
      }
      TablesInvariantForFewerCampaigns(old(campaigns), campaigns, best[..], choice[..], backtrackOfSolution, valueSolution);
      forall c | c in campaigns
        ensures c in old(campaigns)
      {
        assert c in multiset(campaigns);
      }
    }

    /** The pruning loop: each campaign i but the last knocks out the campaigns
        after it, up to the current last one, that it dominates. The list ends
        as Prune of the old list: an order-preserving sublist keeping the first
        and last campaign, where each removed unit is dominated by a kept one. */
    method ApplyDominance()
      requires Valid() && Dominance.DividesSafely(campaigns, 0)
      modifies this
      ensures Valid()
      ensures campaigns == Dominance.Prune(old(campaigns))
      ensures Dominance.SubsequenceOf(campaigns, old(campaigns))
      ensures multiset(campaigns) <= multiset(old(campaigns))
      ensures forall e :: multiset(campaigns)[e] < multiset(old(campaigns))[e] ==>
                exists t :: t in campaigns && t.value != 0 && Dominance.Dominates(t, e) && Dominance.Before(old(campaigns), t, e)
      ensures PositiveCosts(old(campaigns)) ==> PositiveCosts(campaigns)
      ensures valueSolution == old(valueSolution) && backtrackOfSolution == old(backtrackOfSolution)
    {
      var m := |campaigns|;
      var i := 0;
      while i < m - 1
        invariant m == |campaigns| && 0 <= i
        invariant valueSolution == old(valueSolution) && backtrackOfSolution == old(backtrackOfSolution)
        invariant Dominance.DividesSafely(campaigns, i)
        invariant Dominance.PruneOuter(campaigns, i) == Dominance.Prune(old(campaigns))
        decreases m - i
      {
        ghost var start := campaigns;
        m := RemoveDominatedBy(i, m);
        assert Dominance.PruneOuter(start, i) == Dominance.PruneOuter(campaigns, i + 1);
        i := i + 1;
      }
      Dominance.PruneShrinks(old(campaigns));
      Dominance.PruneIsSubsequence(old(campaigns));
      forall e | multiset(campaigns)[e] < multiset(old(campaigns))[e]
        ensures exists t :: t in campaigns && t.value != 0 && Dominance.Dominates(t, e) && Dominance.Before(old(campaigns), t, e)
      {
        Dominance.PruneRemovesOnlyDominated(old(campaigns), e);
      }
      forall c | c in campaigns
        ensures c in old(campaigns)
      {
        assert c in multiset(campaigns);
      }
      TablesInvariantForFewerCampaigns(old(campaigns), campaigns, best[..], choice[..], backtrackOfSolution, valueSolution);
    }

    /** The inner loop of the pruning for campaign i: each campaign after it,
        up to the current last one, that campaign i dominates is removed, and
        the scan goes on at the next index of the shortened list. The list
        ends as PruneFrom; m follows its length. */
    method RemoveDominatedBy(i: int, m0: int) returns (m: int)
      requires m0 == |campaigns| && 0 <= i < m0 - 1 && (i + 2 < m0 ==> campaigns[i].value != 0)
      modifies this
      ensures m == |campaigns|
      ensures campaigns == Dominance.PruneFrom(old(campaigns[i]), old(campaigns), i + 1)
      ensures valueSolution == old(valueSolution) && backtrackOfSolution == old(backtrackOfSolution)
    {
      m := m0;
      var temp1 := campaigns[i];
      ghost var target := Dominance.PruneFrom(temp1, campaigns, i + 1);
      var j := i + 1;
      while j < m - 1
        invariant m == |campaigns| && i + 1 <= j <= m
        invariant valueSolution == old(valueSolution) && backtrackOfSolution == old(backtrackOfSolution)
        invariant Dominance.PruneFrom(temp1, campaigns, j) == target
        decreases m - j
      {
        var temp2 := campaigns[j];
        var dominated := Dominance.JavaDiv(temp1.cost * temp2.value, temp1.value) < temp2.cost;
        Dominance.PruneFromStep(temp1, campaigns, j, dominated);
        if dominated {
          campaigns := Dominance.RemoveAt(campaigns, j);
          m := m - 1;
        }
        j := j + 1;
      }
    }
  }

  /** The solver run on fresh tables: construct, fill, backtrack. The knapsack
      holds campaigns of the list, its units use at most maxImpressions
      impressions and earn its value, and no selection of the list within
      maxImpressions earns more. */
  method Solve(cs: seq<Campaign>, maxImpressions: int) returns (k: Knapsack)
    requires PositiveCosts(cs) && maxImpressions >= 0
    ensures k.capacity == maxImpressions
    ensures forall c :: c in k.campaigns ==> c in cs && k.campaigns[c] >= 1
    ensures MapTotal(k.campaigns, ValueOf) == k.value
    ensures 0 <= MapTotal(k.campaigns, CostOf) <= maxImpressions
    ensures forall s :: Optimality.Feasible(cs, s, maxImpressions) ==> Sum(s, ValueOf) <= k.value
  {
    var solver := new Solver(cs, maxImpressions);
    solver.GenerateSolution();
    k := solver.ObtainKnapsack();
    PicksFromList(cs, solver.choice[..], solver.backtrackOfSolution);
  }
}

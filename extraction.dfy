// The backtrack of Solver.obtainKnapsack, as a function on the choice table.
module Extraction {
  import opened Campaigns
  import opened Table

  /** The campaigns the backtrack visits from level i: the choice of level i,
      then the picks from level i - cost, until a level without a choice. */
  function Picks(choice: seq<Option<Campaign>>, i: int): (r: seq<Campaign>)
    requires ChoicesFit(choice) && 0 <= i < |choice|
    ensures |r| <= i
    ensures r == [] <==> choice[i].None?
    decreases i
  {
    match choice[i]
    case None => []
    case Some(c) => [c] + Picks(choice, i - c.cost)
  }

  /** Round trip of fill and backtrack: on consistent tables the picks from
      level i are worth exactly best[i] and use at most i impressions. */
  lemma {:induction false} PicksRoundTrip(best: seq<int>, choice: seq<Option<Campaign>>, i: int)
    requires Consistent(best, choice) && 0 <= i < |choice|
    ensures Sum(Picks(choice, i), ValueOf) == best[i]
    ensures 0 <= Sum(Picks(choice, i), CostOf) <= i
    decreases i
  {
    if choice[i].Some? {
      var c := choice[i].value;
      PicksRoundTrip(best, choice, i - c.cost);
      assert ([c] + Picks(choice, i - c.cost))[1..] == Picks(choice, i - c.cost);
    }
  }

  /** Every pick is the choice of some level, so it comes from the list the
      table was filled with. */
  lemma {:induction false} PicksFromList(cs: seq<Campaign>, choice: seq<Option<Campaign>>, i: int)
    requires ChoicesFit(choice) && 0 <= i < |choice|
    requires forall k :: 0 <= k < |choice| && choice[k].Some? ==> choice[k].value in cs
    ensures forall x :: x in Picks(choice, i) ==> x in cs
    decreases i
  {
    if choice[i].Some? {
      PicksFromList(cs, choice, i - choice[i].value.cost);
    }
  }

  /** One step of the backtrack loop: the choice at level i joins the campaigns
      taken so far, counted by one Tally step, and the walk goes on from
      level i - cost. */
  lemma BacktrackStep(choice: seq<Option<Campaign>>, i: int, taken: seq<Campaign>, all: seq<Campaign>)
    requires ChoicesFit(choice) && 0 <= i < |choice| && choice[i].Some?
    requires taken + Picks(choice, i) == all
    ensures 0 <= i - choice[i].value.cost
    ensures (taken + [choice[i].value]) + Picks(choice, i - choice[i].value.cost) == all
    ensures CountMap(taken + [choice[i].value]) == Tally(CountMap(taken), choice[i].value)
  {
    var c := choice[i].value;
    AppendRegroup(taken, c, Picks(choice, i - c.cost));
    CountMapAppend(taken, c);
  }

  /** The round trip through the counts obtainKnapsack builds: summed
      entry by entry, the count map of the picks from level i is worth
      best[i] and uses at most i impressions. */
  lemma CountedPicksRoundTrip(best: seq<int>, choice: seq<Option<Campaign>>, i: int)
    requires Consistent(best, choice) && 0 <= i < |choice|
    ensures MapTotal(CountMap(Picks(choice, i)), ValueOf) == best[i]
    ensures 0 <= MapTotal(CountMap(Picks(choice, i)), CostOf) <= i
  {
    PicksRoundTrip(best, choice, i);
    CountMapTotal(Picks(choice, i), ValueOf);
    CountMapTotal(Picks(choice, i), CostOf);
  }
}

// The dynamic-programming fill of Solver.generateSolution, as functions on the
// contents of the two tables: best[k] (subproblems) and choice[k] (campaignsAdded).
module Table {
  import opened Campaigns

  /** Every campaign uses at least one impression: what the fill and the
      backtrack need to index the tables and to terminate. */
  predicate PositiveCosts(cs: seq<Campaign>)
  {
    forall c :: c in cs ==> c.cost >= 1
  }

  predicate Fits(c: Campaign, k: int)
  {
    1 <= c.cost <= k
  }

  /** What level k reaches when one unit of c is added on top of level k - c.cost. */
  function Candidate(c: Campaign, row: seq<int>, k: int): int
    requires Fits(c, k) && k <= |row|
  {
    c.value + row[k - c.cost]
  }

  /** One level of the fill, from the campaign at index j of the list on.
      The campaigns are tried in list order against the current entry
      (b, ch); an entry is replaced only by a strictly larger candidate. `row`
      holds the finished levels 0 .. k-1. The result is the maximum of b and
      of every fitting candidate from index j on, and a raised entry names a
      campaign of the list that fits and produces it. */
  function Improve(cs: seq<Campaign>, j: int, row: seq<int>, k: int, b: int, ch: Option<Campaign>)
    : (r: (int, Option<Campaign>))
    requires PositiveCosts(cs) && 0 <= j <= |cs| && k <= |row|
    ensures r.0 >= b
    ensures forall m :: j <= m < |cs| && cs[m].cost <= k ==> Candidate(cs[m], row, k) <= r.0
    ensures r.0 == b ==> r.1 == ch
    ensures r.0 > b ==> r.1.Some? && r.1.value in cs && Fits(r.1.value, k)
                        && r.0 == Candidate(r.1.value, row, k)
    decreases |cs| - j
  {
    if j == |cs| then (b, ch)
    else
      var c := cs[j];
      if c.cost <= k && Candidate(c, row, k) > b then
        Improve(cs, j + 1, row, k, Candidate(c, row, k), Some(c))
      else
        Improve(cs, j + 1, row, k, b, ch)
  }

  /** One pass of the inner loop: the campaign at index j is tested, then j + 1. */
  lemma ImproveStep(cs: seq<Campaign>, j: int, row: seq<int>, k: int, b: int, ch: Option<Campaign>)
    requires PositiveCosts(cs) && 0 <= j < |cs| && k <= |row|
    ensures cs[j].cost <= k && Candidate(cs[j], row, k) > b ==>
      Improve(cs, j, row, k, b, ch) == Improve(cs, j + 1, row, k, Candidate(cs[j], row, k), Some(cs[j]))
    ensures !(cs[j].cost <= k && Candidate(cs[j], row, k) > b) ==>
      Improve(cs, j, row, k, b, ch) == Improve(cs, j + 1, row, k, b, ch)
  {
  }

  /** When no campaign of the list beats the current entry, the inner loop
      leaves it as it is. */
  lemma ImproveKeepsBound(cs: seq<Campaign>, row: seq<int>, k: int, b: int, ch: Option<Campaign>)
    requires PositiveCosts(cs) && k <= |row|
    requires forall c :: c in cs && Fits(c, k) ==> Candidate(c, row, k) <= b
    ensures Improve(cs, 0, row, k, b, ch) == (b, ch)
  {
  }

  /** The first campaign in list order, from index j on, whose candidate at
      level k equals t. */
  function FirstAchieving(cs: seq<Campaign>, j: int, row: seq<int>, k: int, t: int): Option<Campaign>
    requires PositiveCosts(cs) && 0 <= j <= |cs| && k <= |row|
    decreases |cs| - j
  {
    if j == |cs| then None
    else if cs[j].cost <= k && Candidate(cs[j], row, k) == t then Some(cs[j])
    else FirstAchieving(cs, j + 1, row, k, t)
  }

  /** Tie-break of the strict test: when a level is raised, it ends up naming
      the first campaign in list order that achieves its final value. */
  lemma {:induction false} ImproveTakesFirst(cs: seq<Campaign>, j: int, row: seq<int>, k: int, b: int, ch: Option<Campaign>)
    requires PositiveCosts(cs) && 0 <= j <= |cs| && k <= |row|
    ensures var r := Improve(cs, j, row, k, b, ch);
      r.0 > b ==> r.1 == FirstAchieving(cs, j, row, k, r.0)
    decreases |cs| - j
  {
    if j < |cs| {
      var c := cs[j];
      if c.cost <= k && Candidate(c, row, k) > b {
        ImproveTakesFirst(cs, j + 1, row, k, Candidate(c, row, k), Some(c));
      } else {
        ImproveTakesFirst(cs, j + 1, row, k, b, ch);
      }
    }
  }

  /** The first n entries of both tables after the fill, starting from tables
      `init` and `initCh`: level 0 is never touched, and level k runs Improve
      over the levels below it, which are already final. */
  function Fill(cs: seq<Campaign>, init: seq<int>, initCh: seq<Option<Campaign>>, n: int)
    : (r: (seq<int>, seq<Option<Campaign>>))
    requires PositiveCosts(cs)
    requires 1 <= n <= |init| && |init| == |initCh|
    ensures |r.0| == n && |r.1| == n
    decreases n
  {
    if n == 1 then ([init[0]], [initCh[0]])
    else
      var prev := Fill(cs, init, initCh, n - 1);
      var next := Improve(cs, 0, prev.0, n - 1, init[n - 1], initCh[n - 1]);
      (prev.0 + [next.0], prev.1 + [next.1])
  }

  /** The tables as the constructor allocates them: every level worth 0, no choice. */
  ghost predicate Blank(best: seq<int>, choice: seq<Option<Campaign>>)
  {
    && |best| == |choice|
    && (forall k :: 0 <= k < |best| ==> best[k] == 0)
    && (forall k :: 0 <= k < |choice| ==> choice[k] == None)
  }

  /** Every choice fits its level, so the backtrack never leaves the table. */
  ghost predicate ChoicesFit(choice: seq<Option<Campaign>>)
  {
    forall k :: 0 <= k < |choice| && choice[k].Some? ==> Fits(choice[k].value, k)
  }

  /** The per-level invariant of the tables: a level without a choice is worth
      0, and a level with choice c is worth c.value plus level k - c.cost. */
  ghost predicate Consistent(best: seq<int>, choice: seq<Option<Campaign>>)
  {
    && |best| == |choice|
    && ChoicesFit(choice)
    && (forall k :: 0 <= k < |choice| && choice[k].None? ==> best[k] == 0)
    && (forall k :: 0 <= k < |choice| && choice[k].Some? ==>
          Fits(choice[k].value, k) && best[k] == choice[k].value.value + best[k - choice[k].value.cost])
  }

  /** No campaign of the list can raise any level any more. */
  ghost predicate Closed(cs: seq<Campaign>, best: seq<int>)
  {
    forall c, k :: c in cs && Fits(c, k) && k < |best| ==> Candidate(c, best, k) <= best[k]
  }

  lemma ClosedForFewerCampaigns(cs: seq<Campaign>, ds: seq<Campaign>, best: seq<int>)
    requires Closed(cs, best)
    requires forall c :: c in ds ==> c in cs
    ensures Closed(ds, best)
  {
  }

  /** Fill only depends on the first n entries, and its first m entries are Fill(m). */
  lemma {:induction false} FillPrefix(cs: seq<Campaign>, init: seq<int>, initCh: seq<Option<Campaign>>, m: int, n: int)
    requires PositiveCosts(cs)
    requires 1 <= m <= n <= |init| && |init| == |initCh|
    ensures Fill(cs, init, initCh, n).0[..m] == Fill(cs, init, initCh, m).0
    ensures Fill(cs, init, initCh, n).1[..m] == Fill(cs, init, initCh, m).1
    decreases n
  {
    if m < n {
      FillPrefix(cs, init, initCh, m, n - 1);
      var prev := Fill(cs, init, initCh, n - 1);
      assert Fill(cs, init, initCh, n).0[..n - 1] == prev.0;
      assert Fill(cs, init, initCh, n).1[..n - 1] == prev.1;
    }
  }

  /** The outer loop starts at level 1: level 0 keeps its initial entry. */
  lemma FillLevelZero(cs: seq<Campaign>, init: seq<int>, initCh: seq<Option<Campaign>>, n: int)
    requires PositiveCosts(cs)
    requires 1 <= n <= |init| && |init| == |initCh|
    ensures Fill(cs, init, initCh, n).0[0] == init[0] && Fill(cs, init, initCh, n).1[0] == initCh[0]
  {
    FillPrefix(cs, init, initCh, 1, n);
  }

  /** No level of the table is worth less than 0. */
  ghost predicate NonNegative(best: seq<int>)
  {
    forall k :: 0 <= k < |best| ==> best[k] >= 0
  }

  /** What the fill from blank tables establishes about its levels: the tables
      are consistent and closed under the list, every level is worth at least
      0, a level has no choice exactly when it is worth 0, and every choice is a
      campaign of the list. */
  ghost predicate Solved(cs: seq<Campaign>, best: seq<int>, choice: seq<Option<Campaign>>)
  {
    && Consistent(best, choice)
    && Closed(cs, best)
    && Marked(cs, best, choice)
  }

  /** The per-level marks of a fill from blank tables: no level is negative, a
      level has no choice exactly when it is worth 0, and every choice is a
      campaign of the list. */
  ghost predicate Marked(cs: seq<Campaign>, best: seq<int>, choice: seq<Option<Campaign>>)
  {
    && |best| == |choice|
    && NonNegative(best)
    && (forall k :: 0 <= k < |choice| ==> (choice[k] == None <==> best[k] == 0))
    && (forall k :: 0 <= k < |choice| && choice[k].Some? ==> choice[k].value in cs)
  }

  /** Appending a level that is 0 without a choice, or positive with a
      campaign of the list, keeps the marks. */
  lemma MarkedStep(cs: seq<Campaign>, best: seq<int>, choice: seq<Option<Campaign>>, v: int, ch: Option<Campaign>)
    requires Marked(cs, best, choice)
    requires v >= 0 && (ch == None <==> v == 0) && (ch.Some? ==> ch.value in cs)
    ensures Marked(cs, best + [v], choice + [ch])
  {
    var b, c := best + [v], choice + [ch];
    assert forall k :: 0 <= k < |best| ==> b[k] == best[k] && c[k] == choice[k];
  }

  /** Appending a level raised from a blank entry keeps the levels solved:
      the new entry is 0 with no choice, or a campaign of the list that fits
      and produces it, and no candidate over the levels below exceeds it. */
  lemma SolvedStep(cs: seq<Campaign>, best: seq<int>, choice: seq<Option<Campaign>>, v: int, ch: Option<Campaign>)
    requires Solved(cs, best, choice)
    requires v >= 0 && (v == 0 ==> ch == None)
    requires v > 0 ==> ch.Some? && ch.value in cs && Fits(ch.value, |best|) && v == Candidate(ch.value, best, |best|)
    requires forall c :: c in cs && Fits(c, |best|) ==> Candidate(c, best, |best|) <= v
    ensures Solved(cs, best + [v], choice + [ch])
  {
    assert Consistent(best, choice) && Closed(cs, best) && Marked(cs, best, choice);
    ConsistentStep(best, choice, v, ch);
    ClosedStep(cs, best, v);
    MarkedStep(cs, best, choice, v, ch);
  }

  /** Appending a level that no candidate over the levels below exceeds. */
  lemma ClosedStep(cs: seq<Campaign>, best: seq<int>, v: int)
    requires Closed(cs, best)
    requires forall c :: c in cs && Fits(c, |best|) ==> Candidate(c, best, |best|) <= v
    ensures Closed(cs, best + [v])
  {
    var b := best + [v];
    forall c, k | c in cs && Fits(c, k) && k < |b|
      ensures Candidate(c, b, k) <= b[k]
    {
      assert Candidate(c, b, k) == Candidate(c, best, k);
      if k < |best| {
        assert b[k] == best[k];
      }
    }
  }

  /** Appending a level whose entry is consistent over the levels below. */
  lemma ConsistentStep(best: seq<int>, choice: seq<Option<Campaign>>, v: int, ch: Option<Campaign>)
    requires Consistent(best, choice)
    requires ch.None? ==> v == 0
    requires ch.Some? ==> Fits(ch.value, |best|) && v == ch.value.value + best[|best| - ch.value.cost]
    ensures Consistent(best + [v], choice + [ch])
  {
    var b, c := best + [v], choice + [ch];
    assert forall k :: 0 <= k < |best| ==> b[k] == best[k] && c[k] == choice[k];
  }

  /** The fill from blank tables solves every level it fills. */
  lemma {:induction false} FillFromBlank(cs: seq<Campaign>, init: seq<int>, initCh: seq<Option<Campaign>>, n: int)
    requires PositiveCosts(cs) && Blank(init, initCh) && 1 <= n <= |init|
    ensures var r := Fill(cs, init, initCh, n); Solved(cs, r.0, r.1)
    decreases n
  {
    if n > 1 {
      FillFromBlank(cs, init, initCh, n - 1);
      var prev := Fill(cs, init, initCh, n - 1);
      var next := Improve(cs, 0, prev.0, n - 1, 0, None);
      forall c | c in cs && Fits(c, n - 1)
        ensures Candidate(c, prev.0, n - 1) <= next.0
      {
        var m :| 0 <= m < |cs| && cs[m] == c;
      }
      SolvedStep(cs, prev.0, prev.1, next.0, next.1);
    }
  }

  /** A fill that left the first n - 1 levels as they were, and whose inner
      loop leaves level n - 1 as it was, leaves the first n levels. */
  lemma FillExtendsUnchanged(cs: seq<Campaign>, best: seq<int>, choice: seq<Option<Campaign>>, n: int)
    requires PositiveCosts(cs) && 2 <= n <= |best| && |best| == |choice|
    requires Fill(cs, best, choice, n - 1) == (best[..n - 1], choice[..n - 1])
    requires Improve(cs, 0, best[..n - 1], n - 1, best[n - 1], choice[n - 1]) == (best[n - 1], choice[n - 1])
    ensures Fill(cs, best, choice, n) == (best[..n], choice[..n])
  {
    assert best[..n] == best[..n - 1] + [best[n - 1]];
    assert choice[..n] == choice[..n - 1] + [choice[n - 1]];
  }

  /** A fill over tables already closed under the list changes nothing: this
      is a second call of generateSolution after the first, possibly with the
      list sorted or pruned in between. */
  lemma {:induction false} FillKeepsClosedTable(cs: seq<Campaign>, best: seq<int>, choice: seq<Option<Campaign>>, n: int)
    requires PositiveCosts(cs) && 1 <= n <= |best| && |best| == |choice|
    requires Closed(cs, best)
    ensures Fill(cs, best, choice, n) == (best[..n], choice[..n])
    decreases n
  {
    if n > 1 {
      FillKeepsClosedTable(cs, best, choice, n - 1);
      var row := best[..n - 1];
      forall c | c in cs && Fits(c, n - 1)
        ensures Candidate(c, row, n - 1) <= best[n - 1]
      {
        assert Candidate(c, row, n - 1) == Candidate(c, best, n - 1);
      }
      ImproveKeepsBound(cs, row, n - 1, best[n - 1], choice[n - 1]);
      FillExtendsUnchanged(cs, best, choice, n);
    } else {
      assert best[..1] == [best[0]] && choice[..1] == [choice[0]];
    }
  }

  /** Tie-break of the whole fill: a level worth more than 0 names the first
      campaign in list order that achieves its value over the levels below. */
  lemma FillTieBreak(cs: seq<Campaign>, init: seq<int>, initCh: seq<Option<Campaign>>, n: int, k: int)
    requires PositiveCosts(cs) && Blank(init, initCh) && 1 <= k < n <= |init|
    ensures var r := Fill(cs, init, initCh, n);
      r.0[k] > 0 ==> r.1[k] == FirstAchieving(cs, 0, r.0[..k], k, r.0[k])
  {
    var prev := Fill(cs, init, initCh, k);
    FillLevel(cs, init, initCh, k, n);
    assert init[k] == 0 && initCh[k] == None;
    ImproveTakesFirst(cs, 0, prev.0, k, 0, None);
  }

  /** Level k of a longer fill: the levels below it are the fill to k, and
      level k is the inner loop run over them from its initial entry. */
  lemma FillLevel(cs: seq<Campaign>, init: seq<int>, initCh: seq<Option<Campaign>>, k: int, n: int)
    requires PositiveCosts(cs) && 1 <= k < n <= |init| && |init| == |initCh|
    ensures var r, prev := Fill(cs, init, initCh, n), Fill(cs, init, initCh, k);
      var next := Improve(cs, 0, prev.0, k, init[k], initCh[k]);
      r.0[..k] == prev.0 && r.0[k] == next.0 && r.1[k] == next.1
  {
    FillPrefix(cs, init, initCh, k, n);
    FillAt(cs, init, initCh, k, n);
  }

  /** Level k of a longer fill is level k of the fill to k + 1. */
  lemma FillAt(cs: seq<Campaign>, init: seq<int>, initCh: seq<Option<Campaign>>, k: int, n: int)
    requires PositiveCosts(cs) && 1 <= k < n <= |init| && |init| == |initCh|
    ensures Fill(cs, init, initCh, n).0[k] == Fill(cs, init, initCh, k + 1).0[k]
    ensures Fill(cs, init, initCh, n).1[k] == Fill(cs, init, initCh, k + 1).1[k]
  {
    var r := Fill(cs, init, initCh, n);
    FillPrefix(cs, init, initCh, k + 1, n);
    assert r.0[..k + 1][k] == r.0[k] && r.1[..k + 1][k] == r.1[k];
  }

  /** A whole fill keeps what the solver maintains between calls: from blank
      tables it solves them, and from consistent tables already closed under
      the list it leaves them as they are. Either way the result is
      consistent, non-negative and closed under the list. */
  lemma FillKeepsInvariant(cs: seq<Campaign>, best: seq<int>, choice: seq<Option<Campaign>>)
    requires PositiveCosts(cs) && 1 <= |best| == |choice|
    requires Consistent(best, choice) && NonNegative(best)
    requires Blank(best, choice) || Closed(cs, best)
    ensures var r := Fill(cs, best, choice, |best|);
      && Consistent(r.0, r.1) && Closed(cs, r.0) && NonNegative(r.0)
      && (Blank(best, choice) ==> Solved(cs, r.0, r.1))
      && (!Blank(best, choice) ==> r == (best, choice))
  {
    if Blank(best, choice) {
      FillFromBlank(cs, best, choice, |best|);
    } else {
      FillKeepsClosedTable(cs, best, choice, |best|);
      assert best[..|best|] == best && choice[..|choice|] == choice;
    }
  }
}

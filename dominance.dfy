// Solver.applyDominance, the pruning loop exactly as written: the inner scan
// stops before the current last campaign, and after a removal it moves on past
// the campaign that shifted into the freed slot.
module Dominance {
  import opened Campaigns

  function Abs(a: int): nat { if a < 0 then -a else a }

  /** Integer division rounding toward zero, as Java's `/` on int. */
  function JavaDiv(a: int, b: int): (r: int)
    requires b != 0
    ensures Abs(r) * Abs(b) <= Abs(a) < Abs(r) * Abs(b) + Abs(b)
    ensures r == 0 || ((r > 0) <==> ((a < 0) == (b < 0)))
  {
    var m := Abs(a) / Abs(b);
    DivBounds(Abs(a), Abs(b));
    if (a < 0) == (b < 0) then m else -m
  }

  /** Euclidean division of naturals rounds down. */
  lemma DivBounds(x: nat, y: nat)
    requires y > 0
    ensures (x / y) * y <= x < (x / y) * y + y
  {
    var q, m := x / y, x % y;
    assert x == q * y + m && 0 <= m < y;
  }

  /** Rounding toward zero and Dafny's Euclidean division agree on a
      non-negative dividend and a positive divisor, and there q < d is a < d * b. */
  lemma JavaDivBelow(a: int, b: int, d: int)
    requires a >= 0 && b > 0
    ensures JavaDiv(a, b) == a / b
    ensures JavaDiv(a, b) < d <==> a < d * b
  {
    var q, m := a / b, a % b;
    assert a == q * b + m && 0 <= m < b;
    if q < d {
      assert (d - q) * b >= b by {
        assert d - q >= 1;
      }
      assert d * b == q * b + (d - q) * b;
    } else {
      assert (q - d) * b >= 0;
      assert q * b == d * b + (q - d) * b;
    }
  }

  /** JavaDivBelow's comparison, for any divisor, under its own guard. */
  lemma JavaDivCompare(a: int, b: int, d: int)
    requires b != 0
    ensures a >= 0 && b > 0 ==> (JavaDiv(a, b) < d <==> a < d * b)
  {
    if a >= 0 && b > 0 {
      JavaDivBelow(a, b, d);
    }
  }

  /** The pruning test: t1 knocks t2 out when (t1.cost * t2.value) / t1.value
      is below t2.cost, with Java's truncating division. For a positive t1.value
      and a non-negative product this is the exact ratio comparison
      t1.cost * t2.value < t2.cost * t1.value. */
  predicate Dominates(t1: Campaign, t2: Campaign)
    requires t1.value != 0
    ensures t1.value > 0 && t1.cost * t2.value >= 0 ==>
              (Dominates(t1, t2) <==> t1.cost * t2.value < t2.cost * t1.value)
  {
    JavaDivCompare(t1.cost * t2.value, t1.value, t2.cost);
    JavaDiv(t1.cost * t2.value, t1.value) < t2.cost
  }

  /** The list with the element at j removed, as ArrayList.remove(j): the
      elements before j stay, the ones after it move down by one. */
  function RemoveAt(s: seq<Campaign>, j: int): (r: seq<Campaign>)
    requires 0 <= j < |s|
    ensures |r| == |s| - 1
    ensures forall k :: 0 <= k < j ==> r[k] == s[k]
    ensures forall k :: j <= k < |r| ==> r[k] == s[k + 1]
  {
    s[..j] + s[j + 1..]
  }

  lemma RemoveAtMultiset(s: seq<Campaign>, j: int)
    requires 0 <= j < |s|
    ensures multiset(RemoveAt(s, j)) == multiset(s) - multiset{s[j]}
  {
    assert s == s[..j] + [s[j]] + s[j + 1..];
  }

  /** The inner loop for the campaign t1 from index j on: the campaign at j is
      tested while j is below the current last index; a removal is followed by
      j + 1 on the shortened list. It keeps the first j campaigns and the last
      one, and never grows the list. */
  function PruneFrom(t1: Campaign, s: seq<Campaign>, j: int): (r: seq<Campaign>)
    requires 0 <= j <= |s| && (j + 1 < |s| ==> t1.value != 0)
    ensures j <= |r| <= |s|
    ensures forall k :: 0 <= k < j ==> r[k] == s[k]
    ensures |s| > 0 ==> |r| > 0 && r[|r| - 1] == s[|s| - 1]
    decreases |s| - j
  {
    if j + 1 >= |s| then s
    else if Dominates(t1, s[j]) then PruneFrom(t1, RemoveAt(s, j), j + 1)
    else PruneFrom(t1, s, j + 1)
  }

  /** Every division the pruning from index i on makes has a non-zero
      divisor: the campaign at i is divided by only when its inner loop runs
      (i + 2 below the current length), and the later scans work on the list
      as this one leaves it. Campaigns removed before their turn are never
      divided by. */
  ghost predicate DividesSafely(s: seq<Campaign>, i: int)
    requires 0 <= i
    decreases |s| - i
  {
    i + 1 >= |s| || ((i + 2 < |s| ==> s[i].value != 0) && DividesSafely(PruneFrom(s[i], s, i + 1), i + 1))
  }

  /** One pass of the inner loop: the test at j, a removal when it holds,
      then j + 1. */
  lemma PruneFromStep(t1: Campaign, s: seq<Campaign>, j: int, dominated: bool)
    requires t1.value != 0 && 0 <= j && j + 1 < |s|
    requires dominated == (JavaDiv(t1.cost * s[j].value, t1.value) < s[j].cost)
    ensures PruneFrom(t1, s, j) == PruneFrom(t1, if dominated then RemoveAt(s, j) else s, j + 1)
  {
  }

  /** The outer loop from index i on: campaign i knocks out what it can among
      the campaigns after it, then the next index is taken on the shortened
      list, while i is below the current last index. */
  function PruneOuter(s: seq<Campaign>, i: int): (r: seq<Campaign>)
    requires 0 <= i && DividesSafely(s, i)
    ensures |r| <= |s|
    ensures i < |s| ==> i < |r|
    ensures forall k :: 0 <= k <= i && k < |s| ==> k < |r| && r[k] == s[k]
    ensures |s| > 0 ==> |r| > 0 && r[|r| - 1] == s[|s| - 1]
    decreases |s| - i
  {
    if i + 1 >= |s| then s
    else PruneOuter(PruneFrom(s[i], s, i + 1), i + 1)
  }

  /** The campaign list after applyDominance. */
  function Prune(s: seq<Campaign>): (r: seq<Campaign>)
    requires DividesSafely(s, 0)
    ensures |s| <= 2 ==> r == s
  {
    PruneOuter(s, 0)
  }

  /** a is an order-preserving subsequence of b. */
  ghost predicate SubsequenceOf(a: seq<Campaign>, b: seq<Campaign>)
    decreases |b|
  {
    if a == [] then true
    else if b == [] then false
    else (a[0] == b[0] && SubsequenceOf(a[1..], b[1..])) || SubsequenceOf(a, b[1..])
  }

  lemma {:induction false} SubsequenceReflexive(a: seq<Campaign>)
    ensures SubsequenceOf(a, a)
  {
    if a != [] {
      SubsequenceReflexive(a[1..]);
    }
  }

  lemma {:induction false} SubsequenceTransitive(a: seq<Campaign>, b: seq<Campaign>, c: seq<Campaign>)
    requires SubsequenceOf(a, b) && SubsequenceOf(b, c)
    ensures SubsequenceOf(a, c)
    decreases |c|
  {
    if a != [] {
      assert b != [] && c != [];
      if SubsequenceOf(b, c[1..]) {
        SubsequenceTransitive(a, b, c[1..]);
      } else if a[0] == b[0] && SubsequenceOf(a[1..], b[1..]) {
        SubsequenceTransitive(a[1..], b[1..], c[1..]);
      } else {
        SubsequenceTransitive(a, b[1..], c[1..]);
      }
    }
  }

  lemma {:induction false} RemoveAtSubsequence(s: seq<Campaign>, j: int)
    requires 0 <= j < |s|
    ensures SubsequenceOf(RemoveAt(s, j), s)
    decreases j
  {
    if j == 0 {
      assert RemoveAt(s, 0) == s[1..];
      SubsequenceReflexive(s[1..]);
    } else {
      RemoveAtSubsequence(s[1..], j - 1);
      assert RemoveAt(s, j)[1..] == RemoveAt(s[1..], j - 1);
    }
  }

  lemma {:induction false} PruneFromSubsequence(t1: Campaign, s: seq<Campaign>, j: int)
    requires 0 <= j <= |s| && (j + 1 < |s| ==> t1.value != 0)
    ensures SubsequenceOf(PruneFrom(t1, s, j), s)
    decreases |s| - j
  {
    if j + 1 >= |s| {
      SubsequenceReflexive(s);
    } else if Dominates(t1, s[j]) {
      PruneFromSubsequence(t1, RemoveAt(s, j), j + 1);
      RemoveAtSubsequence(s, j);
      SubsequenceTransitive(PruneFrom(t1, s, j), RemoveAt(s, j), s);
    } else {
      PruneFromSubsequence(t1, s, j + 1);
    }
  }

  lemma {:induction false} PruneOuterSubsequence(s: seq<Campaign>, i: int)
    requires 0 <= i && DividesSafely(s, i)
    ensures SubsequenceOf(PruneOuter(s, i), s)
    decreases |s| - i
  {
    if i + 1 >= |s| {
      SubsequenceReflexive(s);
    } else {
      var s' := PruneFrom(s[i], s, i + 1);
      PruneOuterSubsequence(s', i + 1);
      PruneFromSubsequence(s[i], s, i + 1);
      SubsequenceTransitive(PruneOuter(s, i), s', s);
    }
  }

  /** Some occurrence of t comes before some occurrence of e in s. */
  ghost predicate Before(s: seq<Campaign>, t: Campaign, e: Campaign)
  {
    exists p, q :: 0 <= p < q < |s| && s[p] == t && s[q] == e
  }

  lemma {:induction false} SubsequenceMember(a: seq<Campaign>, b: seq<Campaign>, e: Campaign)
    requires SubsequenceOf(a, b) && e in a
    ensures e in b
    decreases |b|
  {
    assert a != [] && b != [];
    if SubsequenceOf(a, b[1..]) {
      SubsequenceMember(a, b[1..], e);
    } else if e != a[0] {
      var k :| 0 <= k < |a| && a[k] == e;
      assert a[1..][k - 1] == e;
      SubsequenceMember(a[1..], b[1..], e);
    }
  }

  /** A sublist keeps the order of its campaigns. */
  lemma {:induction false} BeforeInSuper(a: seq<Campaign>, b: seq<Campaign>, t: Campaign, e: Campaign)
    requires SubsequenceOf(a, b) && Before(a, t, e)
    ensures Before(b, t, e)
    decreases |b|
  {
    var p, q :| 0 <= p < q < |a| && a[p] == t && a[q] == e;
    assert a != [] && b != [];
    if SubsequenceOf(a, b[1..]) {
      BeforeInSuper(a, b[1..], t, e);
      var p', q' :| 0 <= p' < q' < |b[1..]| && b[1..][p'] == t && b[1..][q'] == e;
      assert b[p' + 1] == t && b[q' + 1] == e;
    } else if p > 0 {
      assert a[1..][p - 1] == t && a[1..][q - 1] == e;
      BeforeInSuper(a[1..], b[1..], t, e);
      var p', q' :| 0 <= p' < q' < |b[1..]| && b[1..][p'] == t && b[1..][q'] == e;
      assert b[p' + 1] == t && b[q' + 1] == e;
    } else {
      assert a[1..][q - 1] == e;
      SubsequenceMember(a[1..], b[1..], e);
      var q' :| 0 <= q' < |b[1..]| && b[1..][q'] == e;
      assert b[0] == t && b[q' + 1] == e;
    }
  }

  /** The inner loop only removes campaigns, counted with multiplicity. */
  lemma {:induction false} PruneFromShrinks(t1: Campaign, s: seq<Campaign>, j: int)
    requires 0 <= j <= |s| && (j + 1 < |s| ==> t1.value != 0)
    ensures multiset(PruneFrom(t1, s, j)) <= multiset(s)
    decreases |s| - j
  {
    if j + 1 < |s| {
      if Dominates(t1, s[j]) {
        RemoveAtMultiset(s, j);
        PruneFromShrinks(t1, RemoveAt(s, j), j + 1);
      } else {
        PruneFromShrinks(t1, s, j + 1);
      }
    }
  }

  /** The inner loop only removes campaigns that t1 knocks out. */
  lemma {:induction false} PruneFromDominated(t1: Campaign, s: seq<Campaign>, j: int, e: Campaign)
    requires 0 <= j <= |s| && (j + 1 < |s| ==> t1.value != 0)
    requires multiset(PruneFrom(t1, s, j))[e] < multiset(s)[e]
    ensures t1.value != 0 && Dominates(t1, e)
    ensures exists q :: j <= q < |s| && s[q] == e
    decreases |s| - j
  {
    if j + 1 < |s| {
      if Dominates(t1, s[j]) {
        if e != s[j] {
          var s' := RemoveAt(s, j);
          RemoveAtMultiset(s, j);
          PruneFromDominated(t1, s', j + 1, e);
          var q :| j + 1 <= q < |s'| && s'[q] == e;
          assert s[q + 1] == e;
        } else {
          assert s[j] == e;
        }
      } else {
        PruneFromDominated(t1, s, j + 1, e);
      }
    } else {
      assert false;
    }
  }

  lemma {:induction false} PruneOuterDominated(s: seq<Campaign>, i: int, e: Campaign) returns (t: Campaign)
    requires 0 <= i && DividesSafely(s, i)
    requires multiset(PruneOuter(s, i))[e] < multiset(s)[e]
    ensures t in PruneOuter(s, i) && t.value != 0 && Dominates(t, e)
    ensures Before(s, t, e)
    decreases |s| - i
  {
    if i + 1 < |s| {
      var r := PruneOuter(s, i);
      var s' := PruneFrom(s[i], s, i + 1);
      assert r == PruneOuter(s', i + 1);
      if multiset(s')[e] < multiset(s)[e] {
        PruneFromDominated(s[i], s, i + 1, e);
        t := s[i];
        var q :| i + 1 <= q < |s| && s[q] == e;
        assert s[i] == t;
      } else {
        t := PruneOuterDominated(s', i + 1, e);
        PruneFromSubsequence(s[i], s, i + 1);
        BeforeInSuper(s', s, t, e);
      }
    } else {
      assert false;
    }
  }

  lemma {:induction false} PruneOuterShrinks(s: seq<Campaign>, i: int)
    requires 0 <= i && DividesSafely(s, i)
    ensures multiset(PruneOuter(s, i)) <= multiset(s)
    decreases |s| - i
  {
    if i + 1 < |s| {
      PruneFromShrinks(s[i], s, i + 1);
      PruneOuterShrinks(PruneFrom(s[i], s, i + 1), i + 1);
    }
  }

  /** applyDominance only removes campaigns, counted with multiplicity. */
  lemma PruneShrinks(s: seq<Campaign>)
    requires DividesSafely(s, 0)
    ensures multiset(Prune(s)) <= multiset(s)
  {
    PruneOuterShrinks(s, 0);
  }

  /** applyDominance keeps an order-preserving subsequence of the list. */
  lemma PruneIsSubsequence(s: seq<Campaign>)
    requires DividesSafely(s, 0)
    ensures SubsequenceOf(Prune(s), s)
  {
    PruneOuterSubsequence(s, 0);
  }

  /** Every campaign applyDominance drops (counted with multiplicity) is knocked
      out by a campaign it keeps that stands before it in the list. */
  lemma PruneRemovesOnlyDominated(s: seq<Campaign>, e: Campaign)
    requires DividesSafely(s, 0)
    requires multiset(Prune(s))[e] < multiset(s)[e]
    ensures exists t :: t in Prune(s) && t.value != 0 && Dominates(t, e) && Before(s, t, e)
  {
    var t := PruneOuterDominated(s, 0, e);
  }

  /** applyDominance never drops the first or the last campaign. */
  lemma PruneKeepsEnds(s: seq<Campaign>)
    requires DividesSafely(s, 0) && |s| > 0
    ensures |Prune(s)| > 0 && Prune(s)[0] == s[0] && Prune(s)[|Prune(s)| - 1] == s[|s| - 1]
  {
  }

  /** The scan skips comparisons: in [(3, 4), (2, 2), (2, 2), (5, 1)] (cost,
      value) the first campaign knocks out both copies of (2, 2) and (5, 1),
      but after the first removal the second copy has shifted into the slot
      already scanned, and the last campaign is never tested, so both stay. */
  lemma PruneLeavesDominated()
    ensures var a, b, c := Campaign("a", 3, 4), Campaign("b", 2, 2), Campaign("c", 5, 1);
      && DividesSafely([a, b, b, c], 0)
      && Prune([a, b, b, c]) == [a, b, c]
      && Dominates(a, b) && Dominates(a, c)
  {
    var a, b, c := Campaign("a", 3, 4), Campaign("b", 2, 2), Campaign("c", 5, 1);
    var L, L' := [a, b, b, c], [a, b, c];
    assert JavaDiv(6, 4) == 1 && JavaDiv(3, 4) == 0;
    assert RemoveAt(L, 1) == L';
    assert PruneFrom(a, L, 1) == PruneFrom(a, L', 2) == L';
    assert PruneFrom(b, L', 2) == L';
    assert PruneOuter(L, 0) == PruneOuter(L', 1) == PruneOuter(L', 2) == L';
  }

  /** The divisor condition looks only at the campaigns the scan really divides
      by: in [(1, 1), (5, 0), (1, 1), (1, 1)] the zero-valued (5, 0) is removed
      by the first campaign before its own turn, so the pruning is defined. */
  lemma ZeroValueRemovedEarly()
    ensures var a, z := Campaign("a", 1, 1), Campaign("z", 5, 0);
      && DividesSafely([a, z, a, a], 0)
      && Prune([a, z, a, a]) == [a, a, a]
  {
    var a, z := Campaign("a", 1, 1), Campaign("z", 5, 0);
    var L, L' := [a, z, a, a], [a, a, a];
    assert JavaDiv(0, 1) == 0;
    assert RemoveAt(L, 1) == L';
    assert PruneFrom(a, L, 1) == PruneFrom(a, L', 2) == L';
    assert PruneFrom(a, L', 2) == L';
    assert PruneOuter(L, 0) == PruneOuter(L', 1) == PruneOuter(L', 2) == L';
  }
}

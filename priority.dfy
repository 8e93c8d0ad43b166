// Solver.applyPriorityCampaigns: a stable sort of the campaign list under a
// comparator. The comparator's ranking is not part of this model, so it is a
// parameter: before(a, b) holds when the comparator puts a no later than b.
module Priority {
  import opened Campaigns

  /** The contract the sort demands of its comparator: every two campaigns are
      comparable, and the ranking is transitive. */
  ghost predicate TotalPreorder(before: (Campaign, Campaign) -> bool)
  {
    && (forall a, b :: before(a, b) || before(b, a))
    && (forall a, b, c :: before(a, b) && before(b, c) ==> before(a, c))
  }

  ghost predicate SortedBy(before: (Campaign, Campaign) -> bool, s: seq<Campaign>)
  {
    forall i, j :: 0 <= i < j < |s| ==> before(s[i], s[j])
  }

  /** x placed before the first element it ranks no later than. */
  function Insert(before: (Campaign, Campaign) -> bool, x: Campaign, s: seq<Campaign>): (r: seq<Campaign>)
    ensures multiset(r) == multiset(s) + multiset{x}
  {
    if s == [] then [x]
    else if before(x, s[0]) then [x] + s
    else
      assert s == [s[0]] + s[1..];
      [s[0]] + Insert(before, x, s[1..])
  }

  /** The list sorted by `before`, equal-ranked campaigns kept in list order. */
  function SortBy(before: (Campaign, Campaign) -> bool, s: seq<Campaign>): (r: seq<Campaign>)
    ensures multiset(r) == multiset(s)
  {
    if s == [] then []
    else
      assert s == [s[0]] + s[1..];
      Insert(before, s[0], SortBy(before, s[1..]))
  }

  /** The campaigns of s that `before` ranks equal to x, in their order in s. */
  function RankedWith(before: (Campaign, Campaign) -> bool, x: Campaign, s: seq<Campaign>): seq<Campaign>
  {
    if s == [] then []
    else (if before(x, s[0]) && before(s[0], x) then [s[0]] else []) + RankedWith(before, x, s[1..])
  }

  lemma {:induction false} InsertSorted(before: (Campaign, Campaign) -> bool, x: Campaign, s: seq<Campaign>)
    requires TotalPreorder(before) && SortedBy(before, s)
    ensures SortedBy(before, Insert(before, x, s))
  {
    if s != [] && !before(x, s[0]) {
      var t := Insert(before, x, s[1..]);
      InsertSorted(before, x, s[1..]);
      var r := [s[0]] + t;
      forall j | 0 <= j < |t|
        ensures before(s[0], t[j])
      {
        assert t[j] in multiset(t);
        if t[j] != x {
          assert t[j] in multiset(s[1..]);
          var m :| 0 <= m < |s[1..]| && s[1..][m] == t[j];
          assert s[m + 1] == t[j];
        }
      }
      forall i, j | 0 <= i < j < |r|
        ensures before(r[i], r[j])
      {
        if i > 0 {
          assert r[i] == t[i - 1] && r[j] == t[j - 1];
        } else {
          assert r[j] == t[j - 1];
        }
      }
    }
  }

  /** The sort's result is ordered by the comparator. */
  lemma {:induction false} SortBySorted(before: (Campaign, Campaign) -> bool, s: seq<Campaign>)
    requires TotalPreorder(before)
    ensures SortedBy(before, SortBy(before, s))
  {
    if s != [] {
      SortBySorted(before, s[1..]);
      InsertSorted(before, s[0], SortBy(before, s[1..]));
    }
  }

  lemma {:induction false} RankedWithConcat(before: (Campaign, Campaign) -> bool, x: Campaign, a: seq<Campaign>, b: seq<Campaign>)
    ensures RankedWith(before, x, a + b) == RankedWith(before, x, a) + RankedWith(before, x, b)
  {
    if a != [] {
      assert (a + b)[1..] == a[1..] + b;
      RankedWithConcat(before, x, a[1..], b);
    } else {
      assert a + b == b;
    }
  }

  /** Inserting into a sorted list puts y ahead of every campaign ranked equal to it. */
  lemma {:induction false} InsertRankedWith(before: (Campaign, Campaign) -> bool, x: Campaign, y: Campaign, s: seq<Campaign>)
    requires TotalPreorder(before) && SortedBy(before, s)
    ensures RankedWith(before, x, Insert(before, y, s))
         == RankedWith(before, x, [y]) + RankedWith(before, x, s)
  {
    if s == [] {
    } else if before(y, s[0]) {
      RankedWithConcat(before, x, [y], s);
    } else {
      InsertRankedWith(before, x, y, s[1..]);
      // s[0] and y cannot both rank equal to x: y would then rank no later than s[0].
      assert RankedWith(before, x, [s[0]]) == [] || RankedWith(before, x, [y]) == [];
      InsertPastHead(before, x, y, s);
    }
  }

  /** The step of InsertRankedWith where y goes past the head of s: the head
      and y are not both ranked equal to x, so their order in the result does
      not matter to the rank of x. */
  lemma InsertPastHead(before: (Campaign, Campaign) -> bool, x: Campaign, y: Campaign, s: seq<Campaign>)
    requires s != [] && !before(y, s[0])
    requires RankedWith(before, x, [s[0]]) == [] || RankedWith(before, x, [y]) == []
    requires RankedWith(before, x, Insert(before, y, s[1..]))
          == RankedWith(before, x, [y]) + RankedWith(before, x, s[1..])
    ensures RankedWith(before, x, Insert(before, y, s))
         == RankedWith(before, x, [y]) + RankedWith(before, x, s)
  {
    var t := Insert(before, y, s[1..]);
    var a, b, c := RankedWith(before, x, [s[0]]), RankedWith(before, x, [y]), RankedWith(before, x, s[1..]);
    assert Insert(before, y, s) == [s[0]] + t;
    RankedWithConcat(before, x, [s[0]], t);
    SwapPastEmpty(a, b, c);
    assert s == [s[0]] + s[1..];
    RankedWithConcat(before, x, [s[0]], s[1..]);
  }

  lemma SwapPastEmpty(a: seq<Campaign>, b: seq<Campaign>, c: seq<Campaign>)
    requires a == [] || b == []
    ensures a + (b + c) == b + (a + c)
  {
    if a == [] {
      assert a + (b + c) == b + c == b + (a + c);
    } else {
      assert a + (b + c) == a + c == b + (a + c);
    }
  }

  /** Stability: for every rank, the campaigns of that rank keep their list order. */
  lemma {:induction false} SortByStable(before: (Campaign, Campaign) -> bool, s: seq<Campaign>, x: Campaign)
    requires TotalPreorder(before)
    ensures RankedWith(before, x, SortBy(before, s)) == RankedWith(before, x, s)
  {
    if s != [] {
      var t := SortBy(before, s[1..]);
      assert RankedWith(before, x, SortBy(before, s)) == RankedWith(before, x, [s[0]]) + RankedWith(before, x, t) by {
        SortBySorted(before, s[1..]);
        InsertRankedWith(before, x, s[0], t);
      }
      assert RankedWith(before, x, s) == RankedWith(before, x, [s[0]]) + RankedWith(before, x, s[1..]) by {
        RankedWithConcat(before, x, [s[0]], s[1..]);
        assert s == [s[0]] + s[1..];
      }
      SortByStable(before, s[1..], x);
    }
  }
}

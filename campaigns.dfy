// Campaign records, and the sums and counts the solver forms over selections of them.
module Campaigns {

  /** A customer's campaign: one selected unit uses `cost` impressions and earns
      `value`. Two campaigns are equal exactly when customer, cost and value are
      equal, which is the source's equals method. */
  datatype Campaign = Campaign(customer: string, cost: int, value: int)

  datatype Option<T> = None | Some(value: T)

  function CostOf(c: Campaign): int { c.cost }

  function ValueOf(c: Campaign): int { c.value }

  /** f summed over a selection, one term per selected unit. */
  function Sum(s: seq<Campaign>, f: Campaign -> int): int
  {
    if s == [] then 0 else f(s[0]) + Sum(s[1..], f)
  }

  lemma {:induction false} SumConcat(a: seq<Campaign>, b: seq<Campaign>, f: Campaign -> int)
    ensures Sum(a + b, f) == Sum(a, f) + Sum(b, f)
  {
    if a == [] {
      assert a + b == b;
    } else {
      assert (a + b)[1..] == a[1..] + b;
      SumConcat(a[1..], b, f);
    }
  }

  /** One counting step of the backtrack: a campaign not yet in the map enters
      with count 1, otherwise its count goes up by one. */
  function Tally(m: map<Campaign, nat>, c: Campaign): (r: map<Campaign, nat>)
    ensures c in r && r[c] == (if c in m then m[c] + 1 else 1)
    ensures r.Keys == m.Keys + {c}
    ensures forall d :: d in m && d != c ==> r[d] == m[d]
  {
    if c in m then m[c := m[c] + 1] else m[c := 1]
  }

  /** Tally as the two map updates the counting loop makes. */
  lemma TallyUnfold(m: map<Campaign, nat>, c: Campaign)
    ensures Tally(m, c) == (if c in m then m[c := m[c] + 1] else m[c := 1])
  {
  }

  /** The counts of a selection, tallied unit by unit in selection order. */
  function CountMap(s: seq<Campaign>): (r: map<Campaign, nat>)
    ensures r == map[] <==> s == []
    ensures s != [] ==> s[|s| - 1] in r
    ensures |r.Keys| <= |s|
  {
    if s == [] then map[]
    else
      var init, last := s[..|s| - 1], s[|s| - 1];
      assert s == init + [last];
      Tally(CountMap(init), last)
  }

  /** The keys of the count map are exactly the selected campaigns, and each
      count is that campaign's multiplicity in the selection. */
  lemma {:induction false} CountMapCounts(s: seq<Campaign>)
    ensures forall c :: c in CountMap(s) <==> c in s
    ensures forall c :: c in CountMap(s) ==> CountMap(s)[c] == multiset(s)[c] >= 1
    decreases |s|
  {
    if s != [] {
      var init, last := s[..|s| - 1], s[|s| - 1];
      assert s == init + [last];
      CountMapCounts(init);
    }
  }

  lemma AppendRegroup(a: seq<Campaign>, c: Campaign, b: seq<Campaign>)
    ensures (a + [c]) + b == a + ([c] + b)
  {
  }

  /** Counting one more unit at the end of a selection is one Tally step. */
  lemma CountMapAppend(s: seq<Campaign>, c: Campaign)
    ensures CountMap(s + [c]) == Tally(CountMap(s), c)
  {
    assert (s + [c])[..|s|] == s;
  }

  /** Some key of a non-empty map. */
  ghost function AnyKey(m: map<Campaign, nat>): (c: Campaign)
    requires m != map[]
    ensures c in m
  {
    var c :| c in m; c
  }

  lemma RemoveKeyShrinks(m: map<Campaign, nat>, c: Campaign)
    requires c in m
    ensures |m - {c}| < |m|
  {
    assert (m - {c}).Keys == m.Keys - {c};
    assert m.Keys == (m.Keys - {c}) + {c};
  }

  /** The sum over the entries of a count map of count * f(campaign). */
  ghost function MapTotal(m: map<Campaign, nat>, f: Campaign -> int): int
    decreases |m|
  {
    if m == map[] then 0
    else
      var c := AnyKey(m);
      RemoveKeyShrinks(m, c);
      m[c] * f(c) + MapTotal(m - {c}, f)
  }

  /** The entries of a count map can be summed starting from any key. */
  lemma {:induction false} MapTotalAt(m: map<Campaign, nat>, c: Campaign, f: Campaign -> int)
    requires c in m
    ensures MapTotal(m, f) == m[c] * f(c) + MapTotal(m - {c}, f)
    decreases |m|
  {
    var d := AnyKey(m);
    if d != c {
      RemoveKeyShrinks(m, d);
      RemoveKeyShrinks(m, c);
      MapTotalAt(m - {d}, c, f);
      MapTotalAt(m - {c}, d, f);
      assert m - {d} - {c} == m - {c} - {d};
    }
  }

  lemma MulSucc(x: int, y: int)
    ensures (x + 1) * y == x * y + y
  {
  }

  lemma TallyTotal(m: map<Campaign, nat>, c: Campaign, f: Campaign -> int)
    ensures MapTotal(Tally(m, c), f) == MapTotal(m, f) + f(c)
  {
    var t := Tally(m, c);
    MapTotalAt(t, c, f);
    assert t - {c} == m - {c};
    if c in m {
      MapTotalAt(m, c, f);
      assert t[c] == m[c] + 1;
      MulSucc(m[c], f(c));
    } else {
      assert m - {c} == m;
    }
  }

  /** Summing count * f over the count map of a selection is summing f over
      the selection itself. */
  lemma {:induction false} CountMapTotal(s: seq<Campaign>, f: Campaign -> int)
    ensures MapTotal(CountMap(s), f) == Sum(s, f)
    decreases |s|
  {
    if s != [] {
      var init, last := s[..|s| - 1], s[|s| - 1];
      assert s == init + [last];
      CountMapTotal(init, f);
      TallyTotal(CountMap(init), last, f);
      SumConcat(init, [last], f);
    }
  }
}

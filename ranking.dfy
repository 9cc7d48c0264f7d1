/** The four rank columns added at load time: for each country and each of
    the metrics "Highest point", "Price", "Total slopes" and "Snow cannons",
    every resort gets its descending average rank among the resorts of its
    own country (pandas `groupby("Country")[col].rank(ascending=False)`,
    whose default tie method is "average"). Rank 1 is the largest value. */
module Ranking {
  import opened Seqs
  import opened Resorts

  function Exceeds(v: real): real -> bool { (x: real) => x > v }
  function Equals(v: real): real -> bool { (x: real) => x == v }

  /** How many values are strictly greater than `v`. */
  function Above(vs: seq<real>, v: real): nat {
    |Filter(vs, Exceeds(v))|
  }

  /** How many values equal `v` (a value of `vs` counts itself). */
  function Level(vs: seq<real>, v: real): nat {
    |Filter(vs, Equals(v))|
  }

  /** The descending average rank of `v` among `vs`: the values above it take
      positions 1 .. Above, and the values tied with it share the mean of the
      next Level positions. */
  function AverageRank(vs: seq<real>, v: real): real {
    Above(vs, v) as real + (Level(vs, v) as real + 1.0) / 2.0
  }

  /** first + (first + 1) + ... + (first + count - 1) */
  function PositionSum(first: int, count: nat): int {
    if count == 0 then 0 else PositionSum(first, count - 1) + first + count - 1
  }

  /** The mean of the `count` consecutive positions starting at `first`. */
  function MeanPosition(first: int, count: nat): real
    requires count >= 1
  {
    PositionSum(first, count) as real / count as real
  }

  /** A value sequence is ordered by the values themselves. */
  const Itself: real -> real := (x: real) => x

  /** Largest first: the order `rank(ascending=False)` counts positions in. */
  ghost predicate Descending(s: seq<real>) {
    NonIncreasing(s, Itself)
  }

  lemma {:induction false} PositionSumClosedForm(first: int, count: nat)
    ensures 2 * PositionSum(first, count) == count * (2 * first + count - 1)
    decreases count
  {
    if count > 0 {
      PositionSumClosedForm(first, count - 1);
      calc {
        2 * PositionSum(first, count);
        2 * PositionSum(first, count - 1) + 2 * first + 2 * count - 2;
        (count - 1) * (2 * first + count - 2) + 2 * first + 2 * count - 2;
        count * (2 * first + count - 1);
      }
    }
  }

  /** The mean of consecutive positions is the midpoint of the first and the last. */
  lemma MeanPositionIsMidpoint(first: int, count: nat)
    requires count >= 1
    ensures MeanPosition(first, count) == first as real + (count as real - 1.0) / 2.0
  {
    PositionSumClosedForm(first, count);
    var k := count as real;
    var mid := first as real + (k - 1.0) / 2.0;
    assert PositionSum(first, count) as real == k * mid;
    assert (k * mid) / k == mid;
  }

  lemma {:induction false} CountsBound(vs: seq<real>, v: real)
    ensures Above(vs, v) + Level(vs, v) <= |vs|
    ensures v in vs ==> Level(vs, v) >= 1
    decreases |vs|
  {
    if vs != [] {
      CountsBound(vs[1..], v);
      if v in vs {
        assert v in Filter(vs, Equals(v));
      }
    }
  }

  /** Every rank lies between 1 and the number of values ranked. */
  lemma RankBounds(vs: seq<real>, v: real)
    requires v in vs
    ensures 1.0 <= AverageRank(vs, v) <= |vs| as real
  {
    CountsBound(vs, v);
  }

  /** Whatever is above or tied with `a` is above a smaller `b`. */
  lemma {:induction false} AboveGrows(vs: seq<real>, a: real, b: real)
    requires a > b
    ensures Above(vs, b) >= Above(vs, a) + Level(vs, a)
    decreases |vs|
  {
    if vs != [] {
      AboveGrows(vs[1..], a, b);
    }
  }

  /** Ranks order values in reverse: a strictly larger value has a strictly
      smaller rank, and equal values have equal ranks (both directions). */
  lemma RankOrder(vs: seq<real>, a: real, b: real)
    requires a in vs && b in vs
    ensures a > b <==> AverageRank(vs, a) < AverageRank(vs, b)
    ensures a == b <==> AverageRank(vs, a) == AverageRank(vs, b)
  {
    CountsBound(vs, a);
    CountsBound(vs, b);
    if a > b {
      AboveGrows(vs, a, b);
    } else if b > a {
      AboveGrows(vs, b, a);
    }
  }

  /** Rank 1 goes exactly to a value that is the largest and untied. */
  lemma RankOneIsUntiedMaximum(vs: seq<real>, v: real)
    requires v in vs
    ensures AverageRank(vs, v) == 1.0 <==> Level(vs, v) == 1 && forall x | x in vs :: x <= v
  {
    CountsBound(vs, v);
    if forall x | x in vs :: x <= v {
      FilterNone(vs, Exceeds(v));
    }
    if Above(vs, v) == 0 {
      assert Filter(vs, Exceeds(v)) == [];
    }
  }

  /** The counts depend on the values only, not on their order. */
  lemma CountsUnderPermutation(a: seq<real>, b: seq<real>, v: real)
    requires multiset(a) == multiset(b)
    ensures Above(a, v) == Above(b, v) && Level(a, v) == Level(b, v)
  {
    FilterCounts(a, Exceeds(v));
    FilterCounts(b, Exceeds(v));
    FilterCounts(a, Equals(v));
    FilterCounts(b, Equals(v));
    assert multiset(Filter(a, Exceeds(v))) == multiset(Filter(b, Exceeds(v)));
    assert multiset(Filter(a, Equals(v))) == multiset(Filter(b, Equals(v)));
    assert |Filter(a, Exceeds(v))| == |multiset(Filter(a, Exceeds(v)))|;
    assert |Filter(b, Exceeds(v))| == |multiset(Filter(b, Exceeds(v)))|;
    assert |Filter(a, Equals(v))| == |multiset(Filter(a, Equals(v)))|;
    assert |Filter(b, Equals(v))| == |multiset(Filter(b, Equals(v)))|;
  }

  /** In a descending arrangement the values above `v` come first, then the
      values equal to it, then the rest. */
  lemma {:induction false} DescendingPositions(s: seq<real>, v: real)
    requires Descending(s)
    ensures forall i | 0 <= i < |s| :: s[i] > v <==> i < Above(s, v)
    ensures forall i | 0 <= i < |s| :: s[i] >= v <==> i < Above(s, v) + Level(s, v)
    decreases |s|
  {
    if s != [] {
      var t := s[1..];
      DescendingPositions(t, v);
      CountsBound(s, v);
      if s[0] > v {
        assert Above(s, v) == Above(t, v) + 1;
        assert Level(s, v) == Level(t, v);
      } else if s[0] == v {
        assert Above(s, v) == Above(t, v);
        assert Level(s, v) == Level(t, v) + 1;
      } else {
        assert Above(s, v) == Above(t, v);
        assert Level(s, v) == Level(t, v);
      }
    }
  }

  /** The average-rank formula is the mean of the positions the tied values
      occupy: in any descending arrangement of the values, the entries equal
      to `v` are exactly those at the 0-based indices Above .. Above + Level - 1,
      and the rank is the mean of the 1-based positions Above + 1 .. Above + Level. */
  lemma RankIsMeanOfTiedPositions(vs: seq<real>, s: seq<real>, v: real)
    requires v in vs
    requires Descending(s) && multiset(s) == multiset(vs)
    ensures Level(vs, v) >= 1
    ensures forall i | 0 <= i < |s| :: s[i] == v <==> Above(vs, v) <= i < Above(vs, v) + Level(vs, v)
    ensures AverageRank(vs, v) == MeanPosition(Above(vs, v) + 1, Level(vs, v))
  {
    CountsBound(vs, v);
    CountsUnderPermutation(s, vs, v);
    DescendingPositions(s, v);
    MeanPositionIsMidpoint(Above(vs, v) + 1, Level(vs, v));
  }

  function RankAmong(vs: seq<real>): real -> real { (v: real) => AverageRank(vs, v) }

  /** The sequence 1, 2, ..., n. */
  function OneTo(n: nat): seq<real> {
    seq(n, i => (i + 1) as real)
  }

  lemma UntiedRankIsPosition(vs: seq<real>, s: seq<real>, i: nat)
    requires forall v | v in vs :: Level(vs, v) == 1
    requires Descending(s) && multiset(s) == multiset(vs) && i < |s|
    ensures AverageRank(vs, s[i]) == (i + 1) as real
  {
    assert s[i] in multiset(vs);
    RankIsMeanOfTiedPositions(vs, s, s[i]);
  }

  /** Without ties, the ranks of n values are 1, 2, ..., n, each once. */
  lemma NoTiesRanksAreOneToN(vs: seq<real>)
    requires forall v | v in vs :: Level(vs, v) == 1
    ensures multiset(Map(vs, RankAmong(vs))) == multiset(OneTo(|vs|))
  {
    var s := SortDescending(vs, Itself);
    forall i | 0 <= i < |s| ensures Map(s, RankAmong(vs))[i] == OneTo(|s|)[i] {
      UntiedRankIsPosition(vs, s, i);
    }
    assert Map(s, RankAmong(vs)) == OneTo(|s|);
    MapPermutation(vs, s, RankAmong(vs));
  }

  // The rank columns of the table.

  function InCountry(c: string): Resort -> bool { (r: Resort) => r.country == c }
  function ValueOf(m: Metric): Resort -> real { (r: Resort) => MetricValue(r, m) }

  /** The metric column of the resorts of country `c`, in table order: the
      group that `groupby("Country")` hands to `rank`. */
  function CountryValues(t: seq<Resort>, m: Metric, c: string): seq<real> {
    Map(Filter(t, InCountry(c)), ValueOf(m))
  }

  /** The number of resorts of country `c`. */
  function CountrySize(t: seq<Resort>, c: string): nat {
    |Filter(t, InCountry(c))|
  }

  /** The rank of resort `r` for metric `m` among the resorts of its country in `t`. */
  function RankIn(t: seq<Resort>, m: Metric, r: Resort): real {
    AverageRank(CountryValues(t, m, r.country), MetricValue(r, m))
  }

  function RanksOf(t: seq<Resort>, r: Resort): Ranks {
    Ranks(RankIn(t, HighestPoint, r), RankIn(t, Price, r), RankIn(t, TotalSlopes, r), RankIn(t, SnowCannons, r))
  }

  /** The loaded table with the four rank columns appended: the same rows in
      the same order, each rank column holding the resort's rank for that
      metric among the resorts of its own country. */
  function AssignRanks(t: seq<Resort>): (ranked: seq<Row>)
    ensures |ranked| == |t|
    ensures forall i | 0 <= i < |t| :: ranked[i].resort == t[i]
    ensures forall i | 0 <= i < |t| :: ranked[i].ranks.elevation == RankIn(t, HighestPoint, t[i])
    ensures forall i | 0 <= i < |t| :: ranked[i].ranks.price == RankIn(t, Price, t[i])
    ensures forall i | 0 <= i < |t| :: ranked[i].ranks.slopes == RankIn(t, TotalSlopes, t[i])
    ensures forall i | 0 <= i < |t| :: ranked[i].ranks.cannons == RankIn(t, SnowCannons, t[i])
  {
    Map(t, WithRanks(t))
  }

  function WithRanks(t: seq<Resort>): Resort -> Row { (r: Resort) => Row(r, RanksOf(t, r)) }

  /** The rank column of metric `m` holds the rank for `m`. */
  lemma RankColumnOf(t: seq<Resort>, m: Metric, i: nat)
    requires i < |t|
    ensures RankOf(AssignRanks(t)[i].ranks, m) == RankIn(t, m, t[i])
  {
    match m
    case HighestPoint =>
    case Price =>
    case TotalSlopes =>
    case SnowCannons =>
  }

  /** A resort's own value is among the values of its country. */
  lemma OwnValueCounted(t: seq<Resort>, m: Metric, i: nat)
    requires i < |t|
    ensures MetricValue(t[i], m) in CountryValues(t, m, t[i].country)
    ensures |CountryValues(t, m, t[i].country)| == CountrySize(t, t[i].country)
  {
    var group := Filter(t, InCountry(t[i].country));
    assert t[i] in group;
    var k :| 0 <= k < |group| && group[k] == t[i];
    assert CountryValues(t, m, t[i].country)[k] == MetricValue(t[i], m);
  }

  /** The resorts of `r`'s country with a larger value than `r`. */
  function Beats(r: Resort, m: Metric): Resort -> bool {
    (x: Resort) => x.country == r.country && MetricValue(x, m) > MetricValue(r, m)
  }

  /** The resorts of `r`'s country with the same value as `r` (`r` itself among them). */
  function Ties(r: Resort, m: Metric): Resort -> bool {
    (x: Resort) => x.country == r.country && MetricValue(x, m) == MetricValue(r, m)
  }

  /** The rank in table terms: 1, plus the number of resorts of the same
      country with a larger value, plus half the number of others tied with it. */
  lemma RankCountsCountryRivals(t: seq<Resort>, m: Metric, r: Resort)
    ensures RankIn(t, m, r) == 1.0 + |Filter(t, Beats(r, m))| as real
                                   + (|Filter(t, Ties(r, m))| as real - 1.0) / 2.0
  {
    var c, v := r.country, MetricValue(r, m);
    var group := Filter(t, InCountry(c));
    FilterMapLength(group, ValueOf(m), Exceeds(v), (x: Resort) => MetricValue(x, m) > v);
    FilterFilter(t, InCountry(c), (x: Resort) => MetricValue(x, m) > v, Beats(r, m));
    FilterMapLength(group, ValueOf(m), Equals(v), (x: Resort) => MetricValue(x, m) == v);
    FilterFilter(t, InCountry(c), (x: Resort) => MetricValue(x, m) == v, Ties(r, m));
  }

  /** Every rank lies in [1, N], N the number of resorts of the country. */
  lemma RankWithinCountrySize(t: seq<Resort>, m: Metric, i: nat)
    requires i < |t|
    ensures 1.0 <= RankOf(AssignRanks(t)[i].ranks, m) <= CountrySize(t, t[i].country) as real
  {
    OwnValueCounted(t, m, i);
    RankColumnOf(t, m, i);
    RankBounds(CountryValues(t, m, t[i].country), MetricValue(t[i], m));
  }

  /** The only resort of its country ranks first on the metric. */
  lemma SoleResortRankIsOne(t: seq<Resort>, m: Metric, i: nat)
    requires i < |t| && CountrySize(t, t[i].country) == 1
    ensures RankIn(t, m, t[i]) == 1.0
  {
    OwnValueCounted(t, m, i);
    RankBounds(CountryValues(t, m, t[i].country), MetricValue(t[i], m));
  }

  /** The only resort of its country ranks first on every metric. */
  lemma SoleResortRanksFirst(t: seq<Resort>, i: nat)
    requires i < |t| && CountrySize(t, t[i].country) == 1
    ensures AssignRanks(t)[i].ranks == Ranks(1.0, 1.0, 1.0, 1.0)
  {
    SoleResortRankIsOne(t, HighestPoint, i);
    SoleResortRankIsOne(t, Price, i);
    SoleResortRankIsOne(t, TotalSlopes, i);
    SoleResortRankIsOne(t, SnowCannons, i);
  }

  /** Within a country, a larger metric value means a smaller rank and equal
      values mean equal ranks. */
  lemma RanksFollowValues(t: seq<Resort>, m: Metric, i: nat, j: nat)
    requires i < |t| && j < |t| && t[i].country == t[j].country
    ensures MetricValue(t[i], m) > MetricValue(t[j], m)
            <==> RankOf(AssignRanks(t)[i].ranks, m) < RankOf(AssignRanks(t)[j].ranks, m)
    ensures MetricValue(t[i], m) == MetricValue(t[j], m)
            <==> RankOf(AssignRanks(t)[i].ranks, m) == RankOf(AssignRanks(t)[j].ranks, m)
  {
    OwnValueCounted(t, m, i);
    OwnValueCounted(t, m, j);
    RankColumnOf(t, m, i);
    RankColumnOf(t, m, j);
    RankOrder(CountryValues(t, m, t[i].country), MetricValue(t[i], m), MetricValue(t[j], m));
  }

  lemma CountryValuesConcat(a: seq<Resort>, b: seq<Resort>, m: Metric, c: string)
    ensures CountryValues(a + b, m, c) == CountryValues(a, m, c) + CountryValues(b, m, c)
  {
    FilterConcat(a, b, InCountry(c));
    MapConcat(Filter(a, InCountry(c)), Filter(b, InCountry(c)), ValueOf(m));
  }

  /** Resorts of other countries contribute nothing to a country's values. */
  lemma CountryValuesOfOthers(u: seq<Resort>, m: Metric, c: string)
    requires forall x | x in u :: x.country != c
    ensures CountryValues(u, m, c) == []
  {
    FilterNone(u, InCountry(c));
  }

  lemma CountryValuesSplice(a: seq<Resort>, u: seq<Resort>, b: seq<Resort>, m: Metric, c: string)
    requires forall x | x in u :: x.country != c
    ensures CountryValues(a + u + b, m, c) == CountryValues(a + b, m, c)
  {
    CountryValuesOfOthers(u, m, c);
    CountryValuesConcat(a + u, b, m, c);
    CountryValuesConcat(a, u, m, c);
    CountryValuesConcat(a, b, m, c);
  }

  /** Inserting resorts of other countries anywhere in the table leaves a
      resort's ranks unchanged. */
  lemma RankIgnoresOtherCountries(t: seq<Resort>, u: seq<Resort>, k: nat, m: Metric, r: Resort)
    requires k <= |t|
    requires forall x | x in u :: x.country != r.country
    ensures RankIn(t[..k] + u + t[k..], m, r) == RankIn(t, m, r)
  {
    CountryValuesSplice(t[..k], u, t[k..], m, r.country);
    assert t[..k] + t[k..] == t;
  }

  /** Replacing a resort of another country by a resort of another country
      leaves a resort's ranks unchanged. */
  lemma RankIgnoresChangesElsewhere(t: seq<Resort>, k: nat, x: Resort, m: Metric, r: Resort)
    requires k < |t| && t[k].country != r.country && x.country != r.country
    ensures RankIn(t[k := x], m, r) == RankIn(t, m, r)
  {
    var a, b := t[..k], t[k + 1..];
    assert t[k := x] == a + [x] + b;
    assert t == a + [t[k]] + b;
    CountryValuesSplice(a, [x], b, m, r.country);
    CountryValuesSplice(a, [t[k]], b, m, r.country);
  }
}

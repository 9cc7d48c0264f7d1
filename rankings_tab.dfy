/** The "Resort Rankings" tab: the country dropdown filled from the chosen
    continent (`continent_filter`), the bar chart of the top ten resorts of a
    country by a metric (`graph_generator`) and the report card of the
    hovered resort (`report_card`). */
module RankingsTab {
  import opened Seqs
  import opened Resorts
  import opened Ranking

  // continent_filter

  function OnContinent(c: string): Row -> bool { (x: Row) => x.resort.continent == c }

  const CountryOf: Row -> string := (x: Row) => x.resort.country

  /** The "Country" column of the rows of continent `c`, in table order. */
  function ContinentCountryColumn(t: seq<Row>, c: string): seq<string> {
    Map(Filter(t, OnContinent(c)), CountryOf)
  }

  /** The options of the country dropdown: each country of the chosen
      continent once, in order of first appearance in the table. A cleared
      continent dropdown (None) matches no row. */
  function ContinentFilter(t: seq<Row>, continent: Option<string>): (countries: seq<string>)
    ensures Distinct(countries)
    ensures continent.None? ==> countries == []
    ensures continent.Some? ==>
              var column := ContinentCountryColumn(t, continent.value);
              forall i, j | 0 <= i < j < |countries| ::
                countries[i] in column && countries[j] in column
                && FirstIndex(column, countries[i]) < FirstIndex(column, countries[j])
  {
    match continent
    case None => []
    case Some(c) => Unique(ContinentCountryColumn(t, c))
  }

  /** A country is offered exactly when some resort of the table lies in
      that country on the chosen continent. */
  lemma ContinentFilterListsItsCountries(t: seq<Row>, continent: string, country: string)
    ensures country in ContinentFilter(t, Some(continent))
            <==> exists i | 0 <= i < |t| :: t[i].resort.continent == continent && t[i].resort.country == country
  {
    var rows := Filter(t, OnContinent(continent));
    var column := Map(rows, CountryOf);
    if country in column {
      var k :| 0 <= k < |column| && column[k] == country;
      assert rows[k] in rows;
      var i :| 0 <= i < |t| && t[i] == rows[k];
      assert t[i].resort.continent == continent && t[i].resort.country == country;
    }
    if exists i | 0 <= i < |t| :: t[i].resort.continent == continent && t[i].resort.country == country {
      var i :| 0 <= i < |t| && t[i].resort.continent == continent && t[i].resort.country == country;
      assert t[i] in rows;
      var k :| 0 <= k < |rows| && rows[k] == t[i];
      assert column[k] == country;
    }
  }

  // graph_generator

  function InCountryRow(c: string): Row -> bool { (x: Row) => x.resort.country == c }

  function ByColumn(m: Column): Row -> real { (x: Row) => ColumnValue(x, m) }

  function Min(a: nat, b: nat): nat { if a <= b then a else b }

  /** The chart title: the number of bars, the country and the metric. */
  datatype Title = Title(count: nat, country: string, metric: Column)

  datatype BarChart = BarChart(title: Title, bars: seq<Row>)

  /** The country's rows sorted by the metric, largest first, cut after the
      tenth (all of them when the country has ten or fewer). */
  function TopTen(t: seq<Row>, country: string, metric: Column): seq<Row> {
    var sorted := SortDescending(Filter(t, InCountryRow(country)), ByColumn(metric));
    sorted[..Min(10, |sorted|)]
  }

  /** The chart shows at most ten resorts, all of the chosen country, in
      non-increasing order of the metric, each taken from the country's rows,
      and every resort of the country left out has a value no greater than
      the last one shown. */
  lemma TopTenIsTopOfCountry(t: seq<Row>, country: string, metric: Column)
    ensures var top := TopTen(t, country, metric);
            |top| == Min(10, |Filter(t, InCountryRow(country))|)
            && (forall x | x in top :: x in t && x.resort.country == country)
            && NonIncreasing(top, ByColumn(metric))
            && multiset(top) <= multiset(Filter(t, InCountryRow(country)))
            && (forall x | x in multiset(Filter(t, InCountryRow(country))) - multiset(top) ::
                  top != [] && ByColumn(metric)(x) <= ByColumn(metric)(top[|top| - 1]))
  {
    var rows := Filter(t, InCountryRow(country));
    var sorted := SortDescending(rows, ByColumn(metric));
    PrefixOfSorted(rows, sorted, ByColumn(metric));
    forall x | x in TopTen(t, country, metric) ensures x in t && x.resort.country == country {
      assert x in rows;
    }
  }

  /** The first ten elements of a non-increasing permutation of `rows`. */
  lemma PrefixOfSorted(rows: seq<Row>, sorted: seq<Row>, key: Row -> real)
    requires NonIncreasing(sorted, key) && multiset(sorted) == multiset(rows)
    ensures var top := sorted[..Min(10, |sorted|)];
            |top| == Min(10, |rows|)
            && (forall x | x in top :: x in rows)
            && NonIncreasing(top, key)
            && multiset(top) <= multiset(rows)
            && (forall x | x in multiset(rows) - multiset(top) :: top != [] && key(x) <= key(top[|top| - 1]))
  {
    var k := Min(10, |sorted|);
    var top := sorted[..k];
    assert |sorted| == |multiset(rows)| == |rows|;
    PrefixDominatesRest(sorted, k, key);
    forall x | x in top ensures x in rows {
      assert x in multiset(sorted);
    }
  }

  /** In a non-increasing sequence, the first `k` elements form a
      sub-multiset and everything after them is no larger than the k-th. */
  lemma PrefixDominatesRest(s: seq<Row>, k: nat, key: Row -> real)
    requires NonIncreasing(s, key) && k <= |s|
    requires s != [] ==> k >= 1
    ensures multiset(s[..k]) <= multiset(s)
    ensures forall x | x in multiset(s) - multiset(s[..k]) :: k >= 1 && key(x) <= key(s[k - 1])
  {
    assert s == s[..k] + s[k..];
    assert multiset(s) == multiset(s[..k]) + multiset(s[k..]);
    forall x | x in multiset(s) - multiset(s[..k]) ensures k >= 1 && key(x) <= key(s[k - 1]) {
      assert x in multiset(s[k..]);
      var j :| 0 <= j < |s[k..]| && s[k..][j] == x;
      assert s[k + j] == x;
    }
  }

  /** The bar chart for a country and a metric; nothing changes (None) while
      either dropdown is empty. */
  function GraphGenerator(t: seq<Row>, country: Option<string>, metric: Option<Column>): (chart: Option<BarChart>)
    ensures chart.None? <==> country.None? || country == Some("") || metric.None?
    ensures chart.Some? ==> chart.value.bars == TopTen(t, country.value, metric.value)
    ensures chart.Some? ==> chart.value.title == Title(|chart.value.bars|, country.value, metric.value)
    ensures chart.Some? ==> chart.value.title.count <= 10
    ensures chart.Some? ==> forall x | x in chart.value.bars :: x.resort.country == country.value
  {
    if country.None? || country.value == "" || metric.None? then None
    else
      var bars := TopTen(t, country.value, metric.value);
      TopTenIsTopOfCountry(t, country.value, metric.value);
      Some(BarChart(Title(|bars|, country.value, metric.value), bars))
  }

  // report_card

  function Named(name: string): Row -> bool { (x: Row) => x.resort.name == name }

  /** The five text lines of the report card: the resort's name, then the
      values after "Elevation Rank:", "Lift Ticket Price Rank:",
      "Slope Count Rank:" and "Cannon Count Rank:". */
  datatype ReportCard = ReportCard(resortName: string, elevationLine: real, priceLine: real, slopeLine: real, cannonLine: real)

  /** NoUpdate: nothing hovered; NotExactlyOne: `.item()` raised because the
      name matched `matches` rows; Show: the card to display. */
  datatype CardUpdate = NoUpdate | NotExactlyOne(matches: nat) | Show(card: ReportCard)

  /** The report card for the hovered resort, as the dashboard builds it:
      the "Lift Ticket Price Rank" line carries the elevation rank. */
  function ReportCardFor(t: seq<Row>, hovered: Option<string>): (update: CardUpdate)
    ensures update.NoUpdate? <==> hovered.None?
    ensures hovered.Some? ==> (update.Show? <==> |Filter(t, Named(hovered.value))| == 1)
    ensures update.NotExactlyOne? ==> update.matches != 1 && update.matches == |Filter(t, Named(hovered.value))|
    ensures update.Show? ==>
              exists x | x in t && x.resort.name == hovered.value ::
                update.card == ReportCard(hovered.value, x.ranks.elevation, x.ranks.elevation, x.ranks.slopes, x.ranks.cannons)
  {
    match hovered
    case None => NoUpdate
    case Some(name) =>
      var rows := Filter(t, Named(name));
      if |rows| != 1 then NotExactlyOne(|rows|)
      else
        assert rows[0] in rows;
        var k := rows[0].ranks;
        Show(ReportCard(name, k.elevation, k.elevation, k.slopes, k.cannons))
  }

  /** The report card with the price line showing the price rank. */
  function CorrectedReportCardFor(t: seq<Row>, hovered: Option<string>): (update: CardUpdate)
    ensures update.NoUpdate? <==> hovered.None?
    ensures hovered.Some? ==> (update.Show? <==> |Filter(t, Named(hovered.value))| == 1)
    ensures update.NotExactlyOne? ==> update.matches != 1 && update.matches == |Filter(t, Named(hovered.value))|
    ensures update.Show? ==>
              exists x | x in t && x.resort.name == hovered.value ::
                update.card == ReportCard(hovered.value, x.ranks.elevation, x.ranks.price, x.ranks.slopes, x.ranks.cannons)
  {
    match hovered
    case None => NoUpdate
    case Some(name) =>
      var rows := Filter(t, Named(name));
      if |rows| != 1 then NotExactlyOne(|rows|)
      else
        assert rows[0] in rows;
        var k := rows[0].ranks;
        Show(ReportCard(name, k.elevation, k.price, k.slopes, k.cannons))
  }

  /** A name carried by exactly one row shows that row's ranks (as written:
      the price line repeats the elevation rank). */
  lemma ReportCardShowsTheRow(t: seq<Row>, i: nat)
    requires i < |t|
    requires forall j | 0 <= j < |t| && t[j].resort.name == t[i].resort.name :: j == i
    ensures ReportCardFor(t, Some(t[i].resort.name))
            == Show(ReportCard(t[i].resort.name, t[i].ranks.elevation, t[i].ranks.elevation,
                               t[i].ranks.slopes, t[i].ranks.cannons))
  {
    FilterSingle(t, Named(t[i].resort.name), i);
  }

  /** A name carried by two rows makes `.item()` fail. */
  lemma ReportCardRejectsRepeatedName(t: seq<Row>, i: nat, j: nat)
    requires i < j < |t| && t[i].resort.name == t[j].resort.name
    ensures ReportCardFor(t, Some(t[i].resort.name)).NotExactlyOne?
    ensures CorrectedReportCardFor(t, Some(t[i].resort.name)).NotExactlyOne?
  {
    FilterTwo(t, Named(t[i].resort.name), i, j);
  }

  /** A name no row carries makes `.item()` fail on an empty selection. */
  lemma ReportCardRejectsUnknownName(t: seq<Row>, name: string)
    requires forall x | x in t :: x.resort.name != name
    ensures ReportCardFor(t, Some(name)) == NotExactlyOne(0)
    ensures CorrectedReportCardFor(t, Some(name)) == NotExactlyOne(0)
  {
    FilterNone(t, Named(name));
  }

  /** Looking a resort up in the ranked table gives the ranks computed for
      it at load time (as written: the price line repeats the elevation rank). */
  lemma ReportCardShowsComputedRanks(raw: seq<Resort>, i: nat)
    requires i < |raw|
    requires forall j | 0 <= j < |raw| && raw[j].name == raw[i].name :: j == i
    ensures ReportCardFor(AssignRanks(raw), Some(raw[i].name))
            == Show(ReportCard(raw[i].name, RankIn(raw, HighestPoint, raw[i]), RankIn(raw, HighestPoint, raw[i]),
                               RankIn(raw, TotalSlopes, raw[i]), RankIn(raw, SnowCannons, raw[i])))
  {
    ReportCardShowsTheRow(AssignRanks(raw), i);
  }

  /** With the price line corrected, the card shows all four computed ranks. */
  lemma CorrectedReportCardShowsComputedRanks(raw: seq<Resort>, i: nat)
    requires i < |raw|
    requires forall j | 0 <= j < |raw| && raw[j].name == raw[i].name :: j == i
    ensures CorrectedReportCardFor(AssignRanks(raw), Some(raw[i].name))
            == Show(ReportCard(raw[i].name, RankIn(raw, HighestPoint, raw[i]), RankIn(raw, Price, raw[i]),
                               RankIn(raw, TotalSlopes, raw[i]), RankIn(raw, SnowCannons, raw[i])))
  {
    var t := AssignRanks(raw);
    FilterSingle(t, Named(raw[i].name), i);
  }

  /** Two resorts of one country are both selected by that country's mask. */
  lemma SameCountryPair(raw: seq<Resort>)
    requires |raw| == 2 && raw[0].country == raw[1].country
    ensures Filter(raw, InCountry(raw[0].country)) == raw
  {
    assert raw[1..] == [raw[1]] && [raw[1]][1..] == [];
    assert Filter([raw[1]], InCountry(raw[0].country)) == [raw[1]];
  }

  /** The ranks in a country of two resorts with the values `a` and `b`. */
  lemma RankOfPair(raw: seq<Resort>, m: Metric, a: real, b: real)
    requires |raw| == 2 && Filter(raw, InCountry(raw[0].country)) == raw
    requires MetricValue(raw[0], m) == a && MetricValue(raw[1], m) == b
    ensures a > b ==> RankIn(raw, m, raw[0]) == 1.0
    ensures a < b ==> RankIn(raw, m, raw[0]) == 2.0
  {
    var vs := CountryValues(raw, m, raw[0].country);
    assert vs == [a, b];
    assert vs[1..] == [b] && [b][1..] == [];
    if a > b {
      assert Filter([b], Exceeds(a)) == [];
      assert Filter([b], Equals(a)) == [];
      assert Above(vs, a) == 0 && Level(vs, a) == 1;
    } else if a < b {
      assert Filter([b], Exceeds(a)) == [b];
      assert Filter([b], Equals(a)) == [];
      assert Above(vs, a) == 1 && Level(vs, a) == 1;
    }
  }

  /** The card of the first of two differently named resorts. */
  lemma CardOfPair(raw: seq<Resort>)
    requires |raw| == 2 && raw[0].name != raw[1].name
    ensures ReportCardFor(AssignRanks(raw), Some(raw[0].name))
            == Show(ReportCard(raw[0].name, RankIn(raw, HighestPoint, raw[0]), RankIn(raw, HighestPoint, raw[0]),
                               RankIn(raw, TotalSlopes, raw[0]), RankIn(raw, SnowCannons, raw[0])))
  {
    ReportCardShowsComputedRanks(raw, 0);
  }

  /** Two resorts of one country, `high` higher and cheaper than `low`: the
      price rank of `high` is 2, yet its card reads "Lift Ticket Price Rank:
      1.0" (for instance two Austrian resorts at 3000 m for 50 and at 2000 m
      for 60). */
  lemma PriceLineShowsElevationRank(high: Resort, low: Resort)
    requires high.country == low.country && high.name != low.name
    requires high.highestPoint > low.highestPoint && high.price < low.price
    ensures RankIn([high, low], Price, high) == 2.0
    ensures ReportCardFor(AssignRanks([high, low]), Some(high.name)).Show?
    ensures ReportCardFor(AssignRanks([high, low]), Some(high.name)).card.priceLine == 1.0
  {
    var raw := [high, low];
    SameCountryPair(raw);
    RankOfPair(raw, HighestPoint, high.highestPoint, low.highestPoint);
    RankOfPair(raw, Price, high.price, low.price);
    CardOfPair(raw);
  }
}

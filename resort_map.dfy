/** The "Resort Finder" tab: the rows drawn on the map for a lift-ticket
    price limit and a checklist of amenities (`global_resortmap`). */
module ResortMap {
  import opened Seqs
  import opened Resorts

  function PriceBelow(price: real): Row -> bool { (x: Row) => x.resort.price < price }

  function Has(a: Amenity): Row -> bool { (x: Row) => Flag(x.resort, a) == "Yes" }

  function HasBoth(a: Amenity, b: Amenity): Row -> bool {
    (x: Row) => Flag(x.resort, a) == "Yes" && Flag(x.resort, b) == "Yes"
  }

  const HasAllThree: Row -> bool :=
    (x: Row) => Flag(x.resort, Nightskiing) == "Yes" && Flag(x.resort, Snowparks) == "Yes"
                && Flag(x.resort, SummerSkiing) == "Yes"

  /** The rows shown on the map, in table order. `options` lists the checked
      amenities in the order the checklist reports them. The branches follow
      the number of options checked: three selects on all three columns, two
      or one on the columns named, and any other number on none. */
  function MapFilter(t: seq<Row>, price: real, options: seq<Amenity>): (shown: seq<Row>)
    ensures forall x | x in shown :: x in t && x.resort.price < price
  {
    var df := Filter(t, PriceBelow(price));
    if |options| == 3 then Filter(df, HasAllThree)
    else if |options| == 2 then Filter(df, HasBoth(options[0], options[1]))
    else if |options| == 1 then Filter(df, Has(options[0]))
    else df
  }

  /** What the map is meant to show: a price strictly below the limit and
      "Yes" in every checked amenity column. */
  function Wanted(price: real, options: seq<Amenity>): Row -> bool {
    (x: Row) => x.resort.price < price && forall a | a in options :: Flag(x.resort, a) == "Yes"
  }

  /** A checklist of three distinct boxes has at most three entries, and with
      three it has all of them. */
  lemma DistinctOptions(options: seq<Amenity>)
    requires Distinct(options)
    ensures |options| <= 3
    ensures |options| == 3 ==> Snowparks in options && Nightskiing in options && SummerSkiing in options
  {
    var boxes := set a | a in options;
    DistinctElements(options);
    forall a | a in boxes ensures a in {Snowparks, Nightskiing, SummerSkiing} {
      match a
      case Snowparks =>
      case Nightskiing =>
      case SummerSkiing =>
    }
    assert |{Snowparks, Nightskiing, SummerSkiing}| == 3;
    SubsetSize(boxes, {Snowparks, Nightskiing, SummerSkiing});
    if |options| == 3 {
      assert boxes == {Snowparks, Nightskiing, SummerSkiing};
    }
  }

  lemma {:induction false} DistinctElements(s: seq<Amenity>)
    requires Distinct(s)
    ensures |set a | a in s| == |s|
    decreases |s|
  {
    if s != [] {
      DistinctElements(s[1..]);
      assert (set a | a in s) == {s[0]} + (set a | a in s[1..]);
    }
  }

  lemma SubsetSize(a: set<Amenity>, b: set<Amenity>)
    requires a <= b
    ensures |a| <= |b|
    ensures |a| == |b| ==> a == b
  {
    assert b == a + (b - a);
    if |a| == |b| {
      assert |b - a| == 0;
    }
  }

  /** For a checklist without repeats, the map keeps exactly the rows below
      the price limit whose checked amenities are all "Yes", in table order. */
  lemma MapFilterSelectsWanted(t: seq<Row>, price: real, options: seq<Amenity>)
    requires Distinct(options)
    ensures MapFilter(t, price, options) == Filter(t, Wanted(price, options))
    ensures IsSubsequence(MapFilter(t, price, options), t)
    ensures forall x :: x in MapFilter(t, price, options)
                        <==> x in t && x.resort.price < price && forall a | a in options :: Flag(x.resort, a) == "Yes"
  {
    DistinctOptions(options);
    var below := PriceBelow(price);
    if |options| == 3 {
      FilterFilter(t, below, HasAllThree, Wanted(price, options));
    } else if |options| == 2 {
      FilterFilter(t, below, HasBoth(options[0], options[1]), Wanted(price, options));
    } else if |options| == 1 {
      FilterFilter(t, below, Has(options[0]), Wanted(price, options));
    } else {
      FilterAgree(t, below, Wanted(price, options));
    }
  }

  /** Checking all three boxes shows the rows that each single box shows. */
  lemma AllOptionsIsIntersection(t: seq<Row>, price: real, options: seq<Amenity>)
    requires Distinct(options) && |options| == 3
    ensures forall x :: x in MapFilter(t, price, options)
                        <==> x in MapFilter(t, price, [Snowparks])
                             && x in MapFilter(t, price, [Nightskiing])
                             && x in MapFilter(t, price, [SummerSkiing])
  {
    DistinctOptions(options);
    MapFilterSelectsWanted(t, price, options);
    MapFilterSelectsWanted(t, price, [Snowparks]);
    MapFilterSelectsWanted(t, price, [Nightskiing]);
    MapFilterSelectsWanted(t, price, [SummerSkiing]);
  }

  /** The bound is strict: a limit of 0 shows no resort with a non-negative price. */
  lemma ZeroLimitShowsNothing(t: seq<Row>, options: seq<Amenity>)
    requires forall x | x in t :: x.resort.price >= 0.0
    ensures MapFilter(t, 0.0, options) == []
  {
    FilterNone(t, PriceBelow(0.0));
  }
}

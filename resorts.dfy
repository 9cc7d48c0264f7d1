/** The resort table the dashboard loads once and never changes: one record
    per ski resort, and the same record with its four per-country ranks
    appended. */
module Resorts {

  datatype Option<T> = None | Some(value: T)

  /** The three amenity columns of the checklist; each holds "Yes" or some
      other text. */
  datatype Amenity = Snowparks | Nightskiing | SummerSkiing

  /** One row of the input table, with the columns the dashboard reads. */
  datatype Resort = Resort(
    name: string,          // "Resort"
    country: string,       // "Country"
    continent: string,     // "Continent"
    latitude: real,        // "Latitude"
    longitude: real,       // "Longitude"
    price: real,           // "Price"
    highestPoint: real,    // "Highest point"
    totalSlopes: real,     // "Total slopes"
    snowCannons: real,     // "Snow cannons"
    snowparks: string,     // "Snowparks"
    nightskiing: string,   // "Nightskiing"
    summerSkiing: string)  // "Summer skiing"

  function Flag(r: Resort, a: Amenity): string {
    match a
    case Snowparks => r.snowparks
    case Nightskiing => r.nightskiing
    case SummerSkiing => r.summerSkiing
  }

  /** The four columns that are ranked within each country. */
  datatype Metric = HighestPoint | Price | TotalSlopes | SnowCannons

  function MetricValue(r: Resort, m: Metric): real {
    match m
    case HighestPoint => r.highestPoint
    case Price => r.price
    case TotalSlopes => r.totalSlopes
    case SnowCannons => r.snowCannons
  }

  /** "Elevation Rank", "Lift Ticket Price Rank", "Slope Count Rank" and
      "Cannon Count Rank"; average ranks can be halves, hence `real`. */
  datatype Ranks = Ranks(elevation: real, price: real, slopes: real, cannons: real)

  function RankOf(k: Ranks, m: Metric): real {
    match m
    case HighestPoint => k.elevation
    case Price => k.price
    case TotalSlopes => k.slopes
    case SnowCannons => k.cannons
  }

  /** A row of the table after the rank columns have been assigned. */
  datatype Row = Row(resort: Resort, ranks: Ranks)

  /** The numeric columns the program names that the metric dropdown offers:
      a measured column, a coordinate, or one of the rank columns. */
  datatype Column = Measure(metric: Metric) | Latitude | Longitude | RankColumn(ranked: Metric)

  function ColumnValue(x: Row, c: Column): real {
    match c
    case Measure(m) => MetricValue(x.resort, m)
    case Latitude => x.resort.latitude
    case Longitude => x.resort.longitude
    case RankColumn(m) => RankOf(x.ranks, m)
  }
}

/**
 * The observation table: one row per city and day, as the loader leaves it
 * after parsing the dates and normalising the heat-wave flag, together with
 * the row selections every view is built from.
 */
module Dataset {
  import opened Orders
  import opened Grouping
  import opened Flags

  type Month = m: int | 1 <= m <= 12 witness 1

  /** An already parsed calendar date. */
  datatype Date = Date(year: int, month: Month, day: int)

  /** A spreadsheet row before normalisation: the flag is still a raw cell. */
  datatype RawObservation = RawObservation(
    city: string, date: Date, year: int,
    tempMax: real, tempMed: real, tempMin: real,
    isHW: Cell, lat: real, long: real)

  /** A row of the table; `isHW` holds the normalised flag text. */
  datatype Observation = Observation(
    city: string, date: Date, year: int,
    tempMax: real, tempMed: real, tempMin: real,
    isHW: string, lat: real, long: real)

  predicate IsHeatWave(o: Observation)
  {
    IsTrueFlag(o.isHW)
  }

  function Normalised(raw: RawObservation): (o: Observation)
    ensures IsHeatWave(o) <==> MeansTrue(raw.isHW)
  {
    NormalisedFlagMeansTrue(raw.isHW);
    Observation(raw.city, raw.date, raw.year, raw.tempMax, raw.tempMed, raw.tempMin,
                Normalise(raw.isHW), raw.lat, raw.long)
  }

  /** The loader's normalisation step: every row kept, only the flag rewritten. */
  function Load(raws: seq<RawObservation>): (rows: seq<Observation>)
    ensures |rows| == |raws|
    ensures forall i :: 0 <= i < |raws| ==>
      && (IsHeatWave(rows[i]) <==> MeansTrue(raws[i].isHW))
      && rows[i].city == raws[i].city && rows[i].date == raws[i].date && rows[i].year == raws[i].year
      && rows[i].tempMax == raws[i].tempMax && rows[i].tempMed == raws[i].tempMed && rows[i].tempMin == raws[i].tempMin
      && rows[i].lat == raws[i].lat && rows[i].long == raws[i].long
  {
    Map(raws, Normalised)
  }

  function CityOf(o: Observation): string { o.city }
  function YearOf(o: Observation): int { o.year }
  function KeyOf(o: Observation): (string, int) { (o.city, o.year) }
  function MonthOf(o: Observation): Month { o.date.month }
  function TempMedOf(o: Observation): real { o.tempMed }

  /** `df[df["isHW"] == "TRUE"]` */
  function HeatWaveRows(rows: seq<Observation>): seq<Observation>
  {
    Filter(rows, IsHeatWave)
  }

  /** `df[df["cidade"] == c]` */
  function CityRows(rows: seq<Observation>, c: string): seq<Observation>
  {
    Group(rows, CityOf, c)
  }

  /** `df[(df["cidade"] == c) & (df["year"] == y)]` */
  function DailyRows(rows: seq<Observation>, c: string, y: int): seq<Observation>
  {
    Group(rows, KeyOf, (c, y))
  }

  function YearRows(rows: seq<Observation>, y: int): seq<Observation>
  {
    Group(rows, YearOf, y)
  }

  function MonthRows(rows: seq<Observation>, m: Month): seq<Observation>
  {
    Group(rows, MonthOf, m)
  }

  /** The number of heat-wave days of city `c` in year `y`. */
  function HeatWaveDays(rows: seq<Observation>, c: string, y: int): nat
  {
    |HeatWaveRows(DailyRows(rows, c, y))|
  }

  /** The number of heat-wave days of city `c` in month `m` of year `y`. */
  function HeatWaveDaysInMonth(rows: seq<Observation>, c: string, y: int, m: Month): nat
  {
    |MonthRows(HeatWaveRows(DailyRows(rows, c, y)), m)|
  }

  /** Python's order on `(city, year)` tuples: by city, then by year. */
  predicate KeyLess(a: (string, int), b: (string, int))
  {
    LexLess(a.0, b.0) || (a.0 == b.0 && a.1 < b.1)
  }

  lemma KeyLessIsStrictTotal()
    ensures StrictTotalOrder(KeyLess)
  {
    LexLessIsStrictTotal();
  }

  /** Picking a city's rows and then one year's rows picks the rows of that city and year. */
  lemma {:induction false} YearOfCityRows(rows: seq<Observation>, c: string, y: int)
    ensures YearRows(CityRows(rows, c), y) == DailyRows(rows, c, y)
  {
    if |rows| > 0 {
      var head, rest := [rows[0]], rows[1..];
      assert rows == head + rest;
      GroupAppend(head, rest, CityOf, c);
      GroupSingleton(rows[0], CityOf, c);
      GroupAppend(Group(head, CityOf, c), CityRows(rest, c), YearOf, y);
      GroupSingleton(rows[0], YearOf, y);
      GroupAppend(head, rest, KeyOf, (c, y));
      GroupSingleton(rows[0], KeyOf, (c, y));
      YearOfCityRows(rest, c, y);
    }
  }

  /** Grouping the heat-wave rows by (city, year) gives the heat-wave rows of each city and year. */
  lemma {:induction false} KeyGroupOfHeatWaveRows(rows: seq<Observation>, c: string, y: int)
    ensures Group(HeatWaveRows(rows), KeyOf, (c, y)) == HeatWaveRows(DailyRows(rows, c, y))
  {
    if |rows| > 0 {
      var head, rest := [rows[0]], rows[1..];
      assert rows == head + rest;
      FilterAppend(head, rest, IsHeatWave);
      assert Filter(head, IsHeatWave) == if IsHeatWave(rows[0]) then head else [];
      GroupAppend(Filter(head, IsHeatWave), HeatWaveRows(rest), KeyOf, (c, y));
      GroupSingleton(rows[0], KeyOf, (c, y));
      GroupAppend(head, rest, KeyOf, (c, y));
      FilterAppend(Group(head, KeyOf, (c, y)), DailyRows(rest, c, y), IsHeatWave);
      KeyGroupOfHeatWaveRows(rest, c, y);
    }
  }
}

/**
 * Annual temperature anomalies of one city: the baseline is the mean daily
 * mean temperature over all of the city's rows, and each year present gets
 * its own mean minus that baseline, in increasing year order. Temperatures
 * are reals here; the floating-point rounding of the dashboard is not
 * modelled.
 */
module Anomalies {
  import opened Orders
  import opened Sorting
  import opened Grouping
  import opened Dataset

  datatype AnomalyRow = AnomalyRow(year: int, tempMed: real, anomaly: real)

  function RowWeight(o: Observation): real
  {
    1.0
  }

  /** The number of rows, counted as a real. */
  function Size(xs: seq<Observation>): real
  {
    WeightSum(xs, RowWeight)
  }

  lemma {:induction false} SizeIsLength(xs: seq<Observation>)
    ensures Size(xs) == |xs| as real
  {
    if |xs| > 0 {
      SizeIsLength(xs[1..]);
    }
  }

  lemma SizePositive(xs: seq<Observation>)
    requires |xs| > 0
    ensures Size(xs) > 0.0
  {
    SizeIsLength(xs);
  }

  /** The mean `tempMed` of a non-empty set of rows. */
  function Mean(xs: seq<Observation>): real
    requires |xs| > 0
  {
    SizePositive(xs);
    WeightSum(xs, TempMedOf) / Size(xs)
  }

  /** The years present among the rows, ascending (the keys of `groupby("year")`). */
  function YearKeys(cityRows: seq<Observation>): (ys: seq<int>)
    ensures forall i, j :: 0 <= i < j < |ys| ==> ys[i] < ys[j]
    ensures forall y :: y in ys <==> |YearRows(cityRows, y)| > 0
  {
    IntLessIsStrictTotal();
    var ys := SortedDistinct(IntLess, Map(cityRows, YearOf));
    assert forall y :: y in ys <==> |YearRows(cityRows, y)| > 0 by {
      forall y
        ensures y in ys <==> |YearRows(cityRows, y)| > 0
      {
        if |YearRows(cityRows, y)| > 0 {
          assert YearRows(cityRows, y)[0] in YearRows(cityRows, y);
        }
        if y in ys {
          var o :| o in cityRows && YearOf(o) == y;
          assert o in YearRows(cityRows, y);
        }
      }
    }
    ys
  }

  /** One row per year: the year's mean and its difference from the baseline. */
  function YearlyAnomalies(cityRows: seq<Observation>, ys: seq<int>, baseline: real): (r: seq<AnomalyRow>)
    requires forall y :: y in ys ==> |YearRows(cityRows, y)| > 0
    ensures |r| == |ys|
    ensures forall i :: 0 <= i < |ys| ==>
      r[i] == AnomalyRow(ys[i], Mean(YearRows(cityRows, ys[i])), Mean(YearRows(cityRows, ys[i])) - baseline)
  {
    if |ys| == 0 then []
    else
      var m := Mean(YearRows(cityRows, ys[0]));
      [AnomalyRow(ys[0], m, m - baseline)] + YearlyAnomalies(cityRows, ys[1..], baseline)
  }

  /**
   * `calculate_anomalies`. For a city with no rows pandas computes a NaN
   * baseline, but there is no year to group, so the result is empty.
   */
  function Anomalies(rows: seq<Observation>, c: string): (r: seq<AnomalyRow>)
    ensures r == [] <==> |CityRows(rows, c)| == 0
    ensures forall i, j :: 0 <= i < j < |r| ==> r[i].year < r[j].year
    ensures forall y :: |DailyRows(rows, c, y)| > 0 <==> exists i :: 0 <= i < |r| && r[i].year == y
    ensures forall i :: 0 <= i < |r| ==>
      && |DailyRows(rows, c, r[i].year)| > 0
      && r[i].tempMed == Mean(DailyRows(rows, c, r[i].year))
      && r[i].anomaly == r[i].tempMed - Mean(CityRows(rows, c))
  {
    var cityRows := CityRows(rows, c);
    if |cityRows| == 0 then
      NoRowsNoYears(rows, c);
      []
    else
      var r := YearlyAnomalies(cityRows, YearKeys(cityRows), Mean(cityRows));
      CityYears(rows, c, r);
      CityMeans(rows, c, r);
      r
  }

  lemma NoRowsNoYears(rows: seq<Observation>, c: string)
    requires |CityRows(rows, c)| == 0
    ensures forall y :: |DailyRows(rows, c, y)| == 0
  {
    forall y
      ensures |DailyRows(rows, c, y)| == 0
    {
      YearOfCityRows(rows, c, y);
    }
  }

  /** The years of a city's anomaly table: ascending, and exactly the years with rows. */
  lemma CityYears(rows: seq<Observation>, c: string, r: seq<AnomalyRow>)
    requires |CityRows(rows, c)| > 0
    requires var cityRows := CityRows(rows, c);
      r == YearlyAnomalies(cityRows, YearKeys(cityRows), Mean(cityRows))
    ensures r != []
    ensures forall i, j :: 0 <= i < j < |r| ==> r[i].year < r[j].year
    ensures forall y :: |DailyRows(rows, c, y)| > 0 <==> exists i :: 0 <= i < |r| && r[i].year == y
  {
    var cityRows := CityRows(rows, c);
    var ys := YearKeys(cityRows);
    assert cityRows[0] in YearRows(cityRows, cityRows[0].year);
    forall y
      ensures |DailyRows(rows, c, y)| > 0 <==> exists i :: 0 <= i < |r| && r[i].year == y
    {
      YearOfCityRows(rows, c, y);
      if |DailyRows(rows, c, y)| > 0 {
        var i :| 0 <= i < |ys| && ys[i] == y;
        assert r[i].year == y;
      }
    }
  }

  /** Each row of a city's anomaly table holds its year's mean and that mean less the city's mean. */
  lemma CityMeans(rows: seq<Observation>, c: string, r: seq<AnomalyRow>)
    requires |CityRows(rows, c)| > 0
    requires var cityRows := CityRows(rows, c);
      r == YearlyAnomalies(cityRows, YearKeys(cityRows), Mean(cityRows))
    ensures forall i :: 0 <= i < |r| ==>
      && |DailyRows(rows, c, r[i].year)| > 0
      && r[i].tempMed == Mean(DailyRows(rows, c, r[i].year))
      && r[i].anomaly == r[i].tempMed - Mean(CityRows(rows, c))
  {
    forall y
      ensures YearRows(CityRows(rows, c), y) == DailyRows(rows, c, y)
    {
      YearOfCityRows(rows, c, y);
    }
  }

  /** Year `y` weighted by the number of the city's rows in that year. */
  function YearRowCount(rows: seq<Observation>, c: string): int -> real
  {
    y => Size(DailyRows(rows, c, y))
  }

  /** The total weight of the listed years. */
  function TotalWeight(wt: int -> real, r: seq<AnomalyRow>): real
  {
    if |r| == 0 then 0.0 else wt(r[0].year) + TotalWeight(wt, r[1..])
  }

  /** The weighted sum of the yearly means. */
  function WeightedMeans(wt: int -> real, r: seq<AnomalyRow>): real
  {
    if |r| == 0 then 0.0 else wt(r[0].year) * r[0].tempMed + WeightedMeans(wt, r[1..])
  }

  /** The weighted sum of the anomalies. */
  function WeightedAnomalies(wt: int -> real, r: seq<AnomalyRow>): real
  {
    if |r| == 0 then 0.0 else wt(r[0].year) * r[0].anomaly + WeightedAnomalies(wt, r[1..])
  }

  lemma {:induction false} TotalWeightOfYears(rows: seq<Observation>, c: string, ys: seq<int>, baseline: real)
    requires forall y :: y in ys ==> |YearRows(CityRows(rows, c), y)| > 0
    ensures TotalWeight(YearRowCount(rows, c), YearlyAnomalies(CityRows(rows, c), ys, baseline))
         == GroupWeightSum(CityRows(rows, c), YearOf, RowWeight, ys)
  {
    var cityRows := CityRows(rows, c);
    var r := YearlyAnomalies(cityRows, ys, baseline);
    if |ys| > 0 {
      YearOfCityRows(rows, c, ys[0]);
      assert r[1..] == YearlyAnomalies(cityRows, ys[1..], baseline);
      TotalWeightOfYears(rows, c, ys[1..], baseline);
    }
  }

  lemma {:induction false} WeightedMeansOfYears(rows: seq<Observation>, c: string, ys: seq<int>, baseline: real)
    requires forall y :: y in ys ==> |YearRows(CityRows(rows, c), y)| > 0
    ensures WeightedMeans(YearRowCount(rows, c), YearlyAnomalies(CityRows(rows, c), ys, baseline))
         == GroupWeightSum(CityRows(rows, c), YearOf, TempMedOf, ys)
  {
    var cityRows := CityRows(rows, c);
    var r := YearlyAnomalies(cityRows, ys, baseline);
    if |ys| > 0 {
      var g := YearRows(cityRows, ys[0]);
      YearTimesMean(rows, c, ys[0], r[0].tempMed);
      WeightedMeansHead(YearRowCount(rows, c), r, WeightSum(g, TempMedOf));
      assert r[1..] == YearlyAnomalies(cityRows, ys[1..], baseline);
      WeightedMeansOfYears(rows, c, ys[1..], baseline);
    }
  }

  lemma WeightedMeansHead(wt: int -> real, r: seq<AnomalyRow>, s: real)
    requires |r| > 0 && wt(r[0].year) * r[0].tempMed == s
    ensures WeightedMeans(wt, r) == s + WeightedMeans(wt, r[1..])
  {
  }

  /** When every anomaly is its mean minus `b`, the weighted anomalies are the weighted means less `b` per unit of weight. */
  lemma {:induction false} WeightedAnomaliesSplit(wt: int -> real, r: seq<AnomalyRow>, b: real)
    requires forall i :: 0 <= i < |r| ==> r[i].anomaly == r[i].tempMed - b
    ensures WeightedAnomalies(wt, r) == WeightedMeans(wt, r) - b * TotalWeight(wt, r)
  {
    if |r| > 0 {
      var w := wt(r[0].year);
      WeightedAnomaliesSplit(wt, r[1..], b);
      assert w * r[0].anomaly == w * r[0].tempMed - b * w;
      assert b * TotalWeight(wt, r) == b * w + b * TotalWeight(wt, r[1..]);
    }
  }

  /** A year's mean times its row count is the year's sum. */
  lemma YearTimesMean(rows: seq<Observation>, c: string, y: int, m: real)
    requires |YearRows(CityRows(rows, c), y)| > 0
    requires m == Mean(YearRows(CityRows(rows, c), y))
    ensures YearRowCount(rows, c)(y) * m == WeightSum(YearRows(CityRows(rows, c), y), TempMedOf)
  {
    YearOfCityRows(rows, c, y);
    MeanTimesCount(YearRows(CityRows(rows, c), y));
  }

  lemma MeanTimesCount(g: seq<Observation>)
    requires |g| > 0
    ensures Size(g) * Mean(g) == WeightSum(g, TempMedOf)
  {
    SizePositive(g);
  }

  /**
   * Weighted by their row counts, a city's yearly means add up to the sum
   * behind the baseline, and the weights to the city's row count.
   */
  lemma BaselineFromYearMeans(rows: seq<Observation>, c: string)
    ensures var r := Anomalies(rows, c);
      && TotalWeight(YearRowCount(rows, c), r) == Size(CityRows(rows, c))
      && WeightedMeans(YearRowCount(rows, c), r) == WeightSum(CityRows(rows, c), TempMedOf)
  {
    var cityRows := CityRows(rows, c);
    if |cityRows| > 0 {
      var ys := YearKeys(cityRows);
      IntLessIsStrictTotal();
      PartitionWeights(cityRows, YearOf, RowWeight, ys);
      PartitionWeights(cityRows, YearOf, TempMedOf, ys);
      TotalWeightOfYears(rows, c, ys, Mean(cityRows));
      WeightedMeansOfYears(rows, c, ys, Mean(cityRows));
    }
  }

  /** Weighted by their row counts, a city's anomalies cancel out. */
  lemma AnomaliesBalance(rows: seq<Observation>, c: string)
    ensures WeightedAnomalies(YearRowCount(rows, c), Anomalies(rows, c)) == 0.0
  {
    if |CityRows(rows, c)| > 0 {
      var cityRows := CityRows(rows, c);
      var wt, r, b, n, s := YearRowCount(rows, c), Anomalies(rows, c), Mean(cityRows), Size(cityRows), WeightSum(cityRows, TempMedOf);
      CountTimesBaseline(rows, c, n, b, s);
      YearWeights(rows, c, wt, r, n, s);
      BalanceAround(wt, r, b, n, s);
    }
  }

  lemma CountTimesBaseline(rows: seq<Observation>, c: string, n: real, b: real, s: real)
    requires |CityRows(rows, c)| > 0
    requires n == Size(CityRows(rows, c)) && b == Mean(CityRows(rows, c)) && s == WeightSum(CityRows(rows, c), TempMedOf)
    ensures n * b == s
  {
    MeanTimesCount(CityRows(rows, c));
  }

  lemma YearWeights(rows: seq<Observation>, c: string, wt: int -> real, r: seq<AnomalyRow>, n: real, s: real)
    requires wt == YearRowCount(rows, c) && r == Anomalies(rows, c)
    requires n == Size(CityRows(rows, c)) && s == WeightSum(CityRows(rows, c), TempMedOf)
    ensures TotalWeight(wt, r) == n && WeightedMeans(wt, r) == s
  {
    BaselineFromYearMeans(rows, c);
  }

  /** Anomalies taken around `b` cancel out when `b` is the mean of the weighted means. */
  lemma BalanceAround(wt: int -> real, r: seq<AnomalyRow>, b: real, n: real, s: real)
    requires forall i :: 0 <= i < |r| ==> r[i].anomaly == r[i].tempMed - b
    requires TotalWeight(wt, r) == n && WeightedMeans(wt, r) == s && n * b == s
    ensures WeightedAnomalies(wt, r) == 0.0
  {
    WeightedAnomaliesSplit(wt, r, b);
    CancelOut(WeightedAnomalies(wt, r), WeightedMeans(wt, r), TotalWeight(wt, r), b);
  }

  lemma CancelOut(wa: real, wm: real, tw: real, b: real)
    requires wa == wm - b * tw && tw * b == wm
    ensures wa == 0.0
  {
  }

  /** A city with a single year of data has no anomaly in that year. */
  lemma SingleYearHasNoAnomaly(rows: seq<Observation>, c: string)
    requires |Anomalies(rows, c)| == 1
    ensures Anomalies(rows, c)[0].anomaly == 0.0
  {
    var wt, r := YearRowCount(rows, c), Anomalies(rows, c);
    var w, a := wt(r[0].year), r[0].anomaly;
    AnomaliesBalance(rows, c);
    LoneYear(wt, r, w, a);
    YearWeightPositive(rows, c, r, w);
    NonZeroFactor(w, a);
  }

  lemma LoneYear(wt: int -> real, r: seq<AnomalyRow>, w: real, a: real)
    requires |r| == 1 && WeightedAnomalies(wt, r) == 0.0
    requires w == wt(r[0].year) && a == r[0].anomaly
    ensures w * a == 0.0
  {
  }

  lemma YearWeightPositive(rows: seq<Observation>, c: string, r: seq<AnomalyRow>, w: real)
    requires r == Anomalies(rows, c) && |r| > 0
    requires w == YearRowCount(rows, c)(r[0].year)
    ensures w > 0.0
  {
    SizePositive(DailyRows(rows, c, r[0].year));
  }

  lemma NonZeroFactor(w: real, a: real)
    requires w > 0.0 && w * a == 0.0
    ensures a == 0.0
  {
  }
}

/**
 * The heat-wave summary behind the heat map: the heat-wave rows grouped by
 * (city, year) and counted, one row per non-empty group, in pandas'
 * default group order (by city, then by year).
 */
module HeatWaveSummary {
  import opened Orders
  import opened Sorting
  import opened Grouping
  import opened Dataset

  datatype SummaryRow = SummaryRow(city: string, year: int, days: nat)

  function KeyOfRow(s: SummaryRow): (string, int)
  {
    (s.city, s.year)
  }

  /** `.size()` of each group, one output row per key. */
  function GroupSizes(hw: seq<Observation>, keys: seq<(string, int)>): (r: seq<SummaryRow>)
    ensures |r| == |keys|
    ensures forall i :: 0 <= i < |keys| ==>
      r[i] == SummaryRow(keys[i].0, keys[i].1, |Group(hw, KeyOf, keys[i])|)
  {
    if |keys| == 0 then []
    else [SummaryRow(keys[0].0, keys[0].1, |Group(hw, KeyOf, keys[0])|)] + GroupSizes(hw, keys[1..])
  }

  /** The (city, year) keys present among the heat-wave rows, in group order. */
  function SummaryKeys(hw: seq<Observation>): (keys: seq<(string, int)>)
    ensures StrictlySorted(KeyLess, keys)
    ensures forall k :: k in keys <==> exists o :: o in hw && KeyOf(o) == k
  {
    KeyLessIsStrictTotal();
    SortedDistinct(KeyLess, Map(hw, KeyOf))
  }

  /** `calculate_hw_summary`: heat-wave days per city and year. */
  function Summary(rows: seq<Observation>): (r: seq<SummaryRow>)
    ensures forall i, j :: 0 <= i < j < |r| ==> KeyLess(KeyOfRow(r[i]), KeyOfRow(r[j]))
    ensures forall i :: 0 <= i < |r| ==> 0 < r[i].days == HeatWaveDays(rows, r[i].city, r[i].year)
    ensures forall c, y :: HeatWaveDays(rows, c, y) > 0 <==>
      exists i :: 0 <= i < |r| && r[i].city == c && r[i].year == y
  {
    var hw := HeatWaveRows(rows);
    var keys := SummaryKeys(hw);
    var r := GroupSizes(hw, keys);
    SummaryFacts(rows, keys, r);
    r
  }

  lemma SummaryFacts(rows: seq<Observation>, keys: seq<(string, int)>, r: seq<SummaryRow>)
    requires keys == SummaryKeys(HeatWaveRows(rows))
    requires r == GroupSizes(HeatWaveRows(rows), keys)
    ensures forall i, j :: 0 <= i < j < |r| ==> KeyLess(KeyOfRow(r[i]), KeyOfRow(r[j]))
    ensures forall i :: 0 <= i < |r| ==> 0 < r[i].days == HeatWaveDays(rows, r[i].city, r[i].year)
    ensures forall c, y :: HeatWaveDays(rows, c, y) > 0 <==>
      exists i :: 0 <= i < |r| && r[i].city == c && r[i].year == y
  {
    var hw := HeatWaveRows(rows);
    forall i | 0 <= i < |r|
      ensures 0 < r[i].days == HeatWaveDays(rows, r[i].city, r[i].year)
    {
      KeyGroupOfHeatWaveRows(rows, r[i].city, r[i].year);
      assert keys[i] in keys;
      var o :| o in hw && KeyOf(o) == keys[i];
      assert o in Group(hw, KeyOf, keys[i]);
    }
    forall c, y
      ensures HeatWaveDays(rows, c, y) > 0 <==> exists i :: 0 <= i < |r| && r[i].city == c && r[i].year == y
    {
      KeyGroupOfHeatWaveRows(rows, c, y);
      if HeatWaveDays(rows, c, y) > 0 {
        var o := Group(hw, KeyOf, (c, y))[0];
        assert o in Group(hw, KeyOf, (c, y));
        assert (c, y) in keys;
        var i :| 0 <= i < |keys| && keys[i] == (c, y);
        assert r[i].city == c && r[i].year == y;
      }
    }
  }

  function SumDays(r: seq<SummaryRow>): nat
  {
    if |r| == 0 then 0 else r[0].days + SumDays(r[1..])
  }

  lemma {:induction false} SumOfGroupSizes(hw: seq<Observation>, keys: seq<(string, int)>)
    ensures SumDays(GroupSizes(hw, keys)) == SizeSum(hw, KeyOf, keys)
  {
    if |keys| > 0 {
      var r := GroupSizes(hw, keys);
      assert r[1..] == GroupSizes(hw, keys[1..]);
      SumOfGroupSizes(hw, keys[1..]);
    }
  }

  /** The summary's day counts add up to the number of heat-wave rows in the table. */
  lemma SummaryTotal(rows: seq<Observation>)
    ensures SumDays(Summary(rows)) == |HeatWaveRows(rows)|
  {
    var hw := HeatWaveRows(rows);
    var keys := SummaryKeys(hw);
    KeyLessIsStrictTotal();
    SortedIsDistinct(KeyLess, keys);
    SumOfGroupSizes(hw, keys);
    PartitionSizes(hw, KeyOf, keys);
  }
}

/**
 * Heat-wave frequency by month for one city and year, as drawn on the polar
 * chart: the selected heat-wave rows are counted per month name, and the
 * counts are left-joined onto the twelve English month names, so every
 * month appears, in calendar order, with 0 where it had no heat-wave day.
 */
module MonthlyFrequency {
  import opened Orders
  import opened Sorting
  import opened Grouping
  import opened Dataset

  /** The month names `strftime("%B")` produces in an English locale, in calendar order. */
  const MonthNames: seq<string> := [
    "January", "February", "March", "April", "May", "June",
    "July", "August", "September", "October", "November", "December"
  ]

  function MonthName(m: Month): string
  {
    MonthNames[m - 1]
  }

  /** Distinct months have distinct names, so grouping by name is grouping by month. */
  lemma MonthNameInjective(m: Month, n: Month)
    ensures MonthName(m) == MonthName(n) <==> m == n
  {
  }

  /** A row of the monthly table: a month name and its number of heat-wave days. */
  datatype MonthlyRow = MonthlyRow(month: string, frequency: nat)

  /** The mask of `calculate_hw_monthly`: city `c`, year `y`, and a heat-wave day. */
  function Selects(c: string, y: int): Observation -> bool
  {
    (o: Observation) => o.city == c && o.year == y && IsHeatWave(o)
  }

  function SelectedRows(rows: seq<Observation>, c: string, y: int): seq<Observation>
  {
    Filter(rows, Selects(c, y))
  }

  /** The `mes` column: the name of the month of the row's date. */
  function MonthNameOf(o: Observation): string
  {
    MonthName(MonthOf(o))
  }

  /** `.size()` of the group of each listed month name. */
  function NameSizes(dff: seq<Observation>, names: seq<string>): (r: seq<MonthlyRow>)
    ensures |r| == |names|
    ensures forall i :: 0 <= i < |names| ==>
      r[i] == MonthlyRow(names[i], |Group(dff, MonthNameOf, names[i])|)
  {
    if |names| == 0 then []
    else [MonthlyRow(names[0], |Group(dff, MonthNameOf, names[0])|)] + NameSizes(dff, names[1..])
  }

  /** `dff.groupby("mes").size()`: one row per month name present, in the order of the names as strings. */
  function MonthCounts(dff: seq<Observation>): (counts: seq<MonthlyRow>)
    ensures forall i, j :: 0 <= i < j < |counts| ==> LexLess(counts[i].month, counts[j].month)
    ensures forall i :: 0 <= i < |counts| ==>
      0 < counts[i].frequency == |Group(dff, MonthNameOf, counts[i].month)|
    ensures forall o :: o in dff ==> exists i :: 0 <= i < |counts| && counts[i].month == MonthNameOf(o)
  {
    LexLessIsStrictTotal();
    var names := SortedDistinct(LexLess, Map(dff, MonthNameOf));
    var counts := NameSizes(dff, names);
    CountedNamesArePresent(dff, names, counts);
    PresentNamesAreCounted(dff, names, counts);
    counts
  }

  lemma CountedNamesArePresent(dff: seq<Observation>, names: seq<string>, counts: seq<MonthlyRow>)
    requires forall name :: name in names <==> name in Map(dff, MonthNameOf)
    requires counts == NameSizes(dff, names)
    ensures forall i :: 0 <= i < |counts| ==> 0 < counts[i].frequency
  {
    forall i | 0 <= i < |counts|
      ensures 0 < counts[i].frequency
    {
      assert names[i] in names;
      var o :| o in dff && MonthNameOf(o) == names[i];
      assert o in Group(dff, MonthNameOf, names[i]);
    }
  }

  lemma PresentNamesAreCounted(dff: seq<Observation>, names: seq<string>, counts: seq<MonthlyRow>)
    requires forall name :: name in names <==> name in Map(dff, MonthNameOf)
    requires counts == NameSizes(dff, names)
    ensures forall o :: o in dff ==> exists i :: 0 <= i < |counts| && counts[i].month == MonthNameOf(o)
  {
    forall o | o in dff
      ensures exists i :: 0 <= i < |counts| && counts[i].month == MonthNameOf(o)
    {
      assert MonthNameOf(o) in names;
      var i :| 0 <= i < |names| && names[i] == MonthNameOf(o);
      assert counts[i].month == MonthNameOf(o);
    }
  }

  /**
   * The frequency the left join attaches to `name`: that of the first
   * counted row with this month name, and 0 (the `fillna`) when none has it.
   */
  function JoinedFrequency(counts: seq<MonthlyRow>, name: string): (n: nat)
    ensures (exists i :: 0 <= i < |counts| && counts[i].month == name) ==>
      exists i :: 0 <= i < |counts| && counts[i].month == name && counts[i].frequency == n
    ensures (forall i :: 0 <= i < |counts| ==> counts[i].month != name) ==> n == 0
  {
    if |counts| == 0 then 0
    else if counts[0].month == name then counts[0].frequency
    else
      var n := JoinedFrequency(counts[1..], name);
      assert forall i :: 1 <= i < |counts| ==> counts[i] == counts[1..][i - 1];
      n
  }

  /** `pd.DataFrame({"mes": names}).merge(counts, on="mes", how="left").fillna(0)` */
  function LeftJoin(names: seq<string>, counts: seq<MonthlyRow>): (r: seq<MonthlyRow>)
    ensures |r| == |names|
    ensures forall i :: 0 <= i < |names| ==> r[i] == MonthlyRow(names[i], JoinedFrequency(counts, names[i]))
  {
    if |names| == 0 then [] else [MonthlyRow(names[0], JoinedFrequency(counts, names[0]))] + LeftJoin(names[1..], counts)
  }

  /**
   * `calculate_hw_monthly`: twelve rows, January to December, each holding
   * the number of heat-wave days of city `c` in that month of year `y`.
   */
  function Monthly(rows: seq<Observation>, c: string, y: int): (r: seq<MonthlyRow>)
    ensures |r| == 12
    ensures forall i :: 0 <= i < 12 ==>
      r[i] == MonthlyRow(MonthNames[i], HeatWaveDaysInMonth(rows, c, y, (i + 1) as Month))
  {
    var dff := SelectedRows(rows, c, y);
    var r := LeftJoin(MonthNames, MonthCounts(dff));
    MonthlyFacts(rows, c, y, r);
    r
  }

  lemma MonthlyFacts(rows: seq<Observation>, c: string, y: int, r: seq<MonthlyRow>)
    requires r == LeftJoin(MonthNames, MonthCounts(SelectedRows(rows, c, y)))
    ensures forall i :: 0 <= i < 12 ==>
      r[i] == MonthlyRow(MonthNames[i], HeatWaveDaysInMonth(rows, c, y, (i + 1) as Month))
  {
    forall i | 0 <= i < 12
      ensures r[i].frequency == HeatWaveDaysInMonth(rows, c, y, (i + 1) as Month)
    {
      JoinedMonth(rows, c, y, MonthCounts(SelectedRows(rows, c, y)), (i + 1) as Month);
    }
  }

  /** The count joined onto a month's name is the number of heat-wave days in that month. */
  lemma JoinedMonth(rows: seq<Observation>, c: string, y: int, counts: seq<MonthlyRow>, m: Month)
    requires counts == MonthCounts(SelectedRows(rows, c, y))
    ensures JoinedFrequency(counts, MonthName(m)) == HeatWaveDaysInMonth(rows, c, y, m)
  {
    var dff := SelectedRows(rows, c, y);
    JoinedIsGroupSize(dff, counts, MonthName(m));
    SelectedAreHeatWaveDays(rows, c, y);
    GroupByNameIsGroupByMonth(dff, m);
  }

  /** Joining the counts onto a name gives the size of that name's group, 0 for a name no row has. */
  lemma JoinedIsGroupSize(dff: seq<Observation>, counts: seq<MonthlyRow>, name: string)
    requires counts == MonthCounts(dff)
    ensures JoinedFrequency(counts, name) == |Group(dff, MonthNameOf, name)|
  {
    var g := Group(dff, MonthNameOf, name);
    if |g| > 0 {
      assert g[0] in g;
    }
  }

  /** The rows of city `c`, year `y` and a heat-wave flag are the heat-wave rows among that city's rows of that year. */
  lemma {:induction false} SelectedAreHeatWaveDays(rows: seq<Observation>, c: string, y: int)
    ensures SelectedRows(rows, c, y) == HeatWaveRows(DailyRows(rows, c, y))
  {
    if |rows| > 0 {
      var head, rest := [rows[0]], rows[1..];
      assert rows == head + rest;
      FilterAppend(head, rest, Selects(c, y));
      assert Filter(head, Selects(c, y)) == if Selects(c, y)(rows[0]) then head else [];
      GroupAppend(head, rest, KeyOf, (c, y));
      GroupSingleton(rows[0], KeyOf, (c, y));
      FilterAppend(Group(head, KeyOf, (c, y)), DailyRows(rest, c, y), IsHeatWave);
      assert Filter(head, IsHeatWave) == if IsHeatWave(rows[0]) then head else [];
      SelectedAreHeatWaveDays(rest, c, y);
    }
  }

  /** The group of a month's name is the group of the month. */
  lemma {:induction false} GroupByNameIsGroupByMonth(xs: seq<Observation>, m: Month)
    ensures Group(xs, MonthNameOf, MonthName(m)) == MonthRows(xs, m)
  {
    if |xs| > 0 {
      var head, rest := [xs[0]], xs[1..];
      assert xs == head + rest;
      GroupAppend(head, rest, MonthNameOf, MonthName(m));
      GroupSingleton(xs[0], MonthNameOf, MonthName(m));
      GroupAppend(head, rest, MonthOf, m);
      GroupSingleton(xs[0], MonthOf, m);
      MonthNameInjective(MonthOf(xs[0]), m);
      GroupByNameIsGroupByMonth(rest, m);
    }
  }

  function SumFrequencies(r: seq<MonthlyRow>): nat
  {
    if |r| == 0 then 0 else r[0].frequency + SumFrequencies(r[1..])
  }

  /** The twelve months in calendar order. */
  const AllMonths: seq<Month> := seq(12, i requires 0 <= i < 12 => (i + 1) as Month)

  lemma {:induction false} SumOfMonthSizes(hw: seq<Observation>, r: seq<MonthlyRow>, ms: seq<Month>)
    requires |r| == |ms|
    requires forall i :: 0 <= i < |r| ==> r[i].frequency == |MonthRows(hw, ms[i])|
    ensures SumFrequencies(r) == SizeSum(hw, MonthOf, ms)
  {
    if |r| > 0 {
      SumOfMonthSizes(hw, r[1..], ms[1..]);
    }
  }

  /** The twelve frequencies add up to the heat-wave days of the city in that year. */
  lemma MonthlyTotal(rows: seq<Observation>, c: string, y: int)
    ensures SumFrequencies(Monthly(rows, c, y)) == HeatWaveDays(rows, c, y)
  {
    var hw := HeatWaveRows(DailyRows(rows, c, y));
    var r := Monthly(rows, c, y);
    SumOfMonthSizes(hw, r, AllMonths);
    EveryMonthListed(hw);
    PartitionSizes(hw, MonthOf, AllMonths);
  }

  lemma EveryMonthListed(xs: seq<Observation>)
    ensures Distinct(AllMonths)
    ensures forall o :: o in xs ==> MonthOf(o) in AllMonths
  {
    forall o | o in xs
      ensures MonthOf(o) in AllMonths
    {
      assert AllMonths[MonthOf(o) - 1] == MonthOf(o);
    }
  }
}

/**
 * The selections behind the dashboard's controls: the sorted lists of
 * cities and years offered by the dropdowns and the slider, one map marker
 * per city taken from that city's first row, and the rows of one city and
 * year plotted as daily temperatures.
 */
module Controls {
  import opened Orders
  import opened Sorting
  import opened Grouping
  import opened Dataset

  /** `sorted(df["cidade"].unique())` */
  function CityOptions(rows: seq<Observation>): (cs: seq<string>)
    ensures StrictlySorted(LexLess, cs)
    ensures forall c :: c in cs <==> exists o :: o in rows && o.city == c
  {
    LexLessIsStrictTotal();
    SortedDistinct(LexLess, Map(rows, CityOf))
  }

  /** `sorted(df["year"].unique())` */
  function YearOptions(rows: seq<Observation>): (ys: seq<int>)
    ensures forall i, j :: 0 <= i < j < |ys| ==> ys[i] < ys[j]
    ensures forall y :: y in ys <==> exists o :: o in rows && o.year == y
  {
    IntLessIsStrictTotal();
    SortedDistinct(IntLess, Map(rows, YearOf))
  }

  /** Any strictly sorted list of exactly the cities present is the dropdown's list. */
  lemma CityOptionsCanonical(rows: seq<Observation>, cs: seq<string>)
    requires StrictlySorted(LexLess, cs)
    requires forall c :: c in cs <==> exists o :: o in rows && o.city == c
    ensures cs == CityOptions(rows)
  {
    LexLessIsStrictTotal();
    SortedUnique(LexLess, cs, CityOptions(rows));
  }

  /** Any increasing list of exactly the years present is the slider's list. */
  lemma YearOptionsCanonical(rows: seq<Observation>, ys: seq<int>)
    requires forall i, j :: 0 <= i < j < |ys| ==> ys[i] < ys[j]
    requires forall y :: y in ys <==> exists o :: o in rows && o.year == y
    ensures ys == YearOptions(rows)
  {
    IntLessIsStrictTotal();
    assert StrictlySorted(IntLess, ys);
    SortedUnique(IntLess, ys, YearOptions(rows));
  }

  /** A map marker: the city's name at its coordinates. */
  datatype Marker = Marker(city: string, lat: real, long: real)

  function MarkerOf(o: Observation): Marker
  {
    Marker(o.city, o.lat, o.long)
  }

  predicate HasCity(rows: seq<Observation>, c: string)
  {
    exists j :: 0 <= j < |rows| && rows[j].city == c
  }

  /** The position of the first row of city `c`. */
  function FirstIndex(rows: seq<Observation>, c: string): (j: nat)
    requires HasCity(rows, c)
    ensures j < |rows| && rows[j].city == c
    ensures forall k :: 0 <= k < j ==> rows[k].city != c
  {
    if rows[0].city == c then 0
    else
      assert HasCity(rows[1..], c) by {
        var j :| 0 <= j < |rows| && rows[j].city == c;
        assert rows[1..][j - 1] == rows[j];
      }
      1 + FirstIndex(rows[1..], c)
  }

  /** Row `j` is the first row of its city. */
  predicate FirstOfItsCity(rows: seq<Observation>, j: nat)
    requires j < |rows|
  {
    forall k :: 0 <= k < j ==> rows[k].city != rows[j].city
  }

  lemma FirstIndexOfFirstRow(rows: seq<Observation>, j: nat)
    requires j < |rows| && FirstOfItsCity(rows, j)
    ensures HasCity(rows, rows[j].city) && FirstIndex(rows, rows[j].city) == j
  {
  }

  /** Some row before position `k` belongs to city `c`. */
  predicate SeenBefore(rows: seq<Observation>, k: nat, c: string)
  {
    exists j :: 0 <= j < k && j < |rows| && rows[j].city == c
  }

  /** Some row at position `k` or later belongs to city `c`. */
  predicate MetFrom(rows: seq<Observation>, k: nat, c: string)
  {
    exists j :: k <= j < |rows| && rows[j].city == c
  }

  /** Some kept position holds a row of city `c`. */
  predicate Kept(rows: seq<Observation>, ps: seq<nat>, c: string)
  {
    exists i :: 0 <= i < |ps| && ps[i] < |rows| && rows[ps[i]].city == c
  }

  /**
   * `drop_duplicates("cidade")` over `rows[k..]`: the positions of the rows
   * it keeps, a row being kept when its city is not among `seen`, the
   * cities of the rows before it.
   */
  function KeptPositions(rows: seq<Observation>, k: nat, seen: set<string>): (ps: seq<nat>)
    requires k <= |rows|
    requires forall c :: c in seen <==> SeenBefore(rows, k, c)
    ensures forall i :: 0 <= i < |ps| ==> k <= ps[i] < |rows| && FirstOfItsCity(rows, ps[i])
    ensures forall i, i' :: 0 <= i < i' < |ps| ==> ps[i] < ps[i']
    ensures forall c :: MetFrom(rows, k, c) && c !in seen ==> Kept(rows, ps, c)
    decreases |rows| - k
  {
    if k == |rows| then []
    else if rows[k].city in seen then
      SeenExtends(rows, k, seen);
      assert seen + {rows[k].city} == seen;
      var ps := KeptPositions(rows, k + 1, seen);
      SkipSeen(rows, k, seen, ps);
      ps
    else
      SeenExtends(rows, k, seen);
      var rest := KeptPositions(rows, k + 1, seen + {rows[k].city});
      KeptIsFirst(rows, k, seen, rest);
      [k] + rest
  }

  /** Moving past row `k` adds its city to the cities seen. */
  lemma SeenExtends(rows: seq<Observation>, k: nat, seen: set<string>)
    requires k < |rows|
    requires forall c :: c in seen <==> SeenBefore(rows, k, c)
    ensures forall c :: c in seen + {rows[k].city} <==> SeenBefore(rows, k + 1, c)
  {
  }

  lemma SkipSeen(rows: seq<Observation>, k: nat, seen: set<string>, ps: seq<nat>)
    requires k < |rows| && rows[k].city in seen
    requires forall c :: MetFrom(rows, k + 1, c) && c !in seen ==> Kept(rows, ps, c)
    ensures forall c :: MetFrom(rows, k, c) && c !in seen ==> Kept(rows, ps, c)
  {
  }

  /** Putting the position of an unseen city's row in front of the later kept positions keeps all three promises. */
  lemma KeptIsFirst(rows: seq<Observation>, k: nat, seen: set<string>, rest: seq<nat>)
    requires k < |rows| && rows[k].city !in seen
    requires forall c :: c in seen <==> SeenBefore(rows, k, c)
    requires forall i :: 0 <= i < |rest| ==> k + 1 <= rest[i] < |rows|
    requires forall c :: MetFrom(rows, k + 1, c) && c !in seen + {rows[k].city} ==> Kept(rows, rest, c)
    ensures FirstOfItsCity(rows, k)
    ensures forall c :: MetFrom(rows, k, c) && c !in seen ==> Kept(rows, [k] + rest, c)
  {
    var ps := [k] + rest;
    forall j | 0 <= j < k
      ensures rows[j].city != rows[k].city
    {
      assert !SeenBefore(rows, k, rows[k].city);
    }
    forall c | MetFrom(rows, k, c) && c !in seen
      ensures Kept(rows, ps, c)
    {
      if c == rows[k].city {
        assert ps[0] == k;
      } else {
        var j :| k <= j < |rows| && rows[j].city == c;
        assert MetFrom(rows, k + 1, c);
        assert Kept(rows, rest, c);
        var i :| 0 <= i < |rest| && rest[i] < |rows| && rows[rest[i]].city == c;
        assert ps[i + 1] == rest[i];
      }
    }
  }

  /** The markers of the station map, one per city, in the order of the cities' first rows. */
  function Markers(rows: seq<Observation>): (m: seq<Marker>)
    ensures forall i :: 0 <= i < |m| ==>
      HasCity(rows, m[i].city) && m[i] == MarkerOf(rows[FirstIndex(rows, m[i].city)])
    ensures forall i, i' :: 0 <= i < i' < |m| ==> FirstIndex(rows, m[i].city) < FirstIndex(rows, m[i'].city)
    ensures forall c :: HasCity(rows, c) ==> exists i :: 0 <= i < |m| && m[i].city == c
  {
    var ps := KeptPositions(rows, 0, {});
    var m := seq(|ps|, i requires 0 <= i < |ps| => MarkerOf(rows[ps[i]]));
    MarkersAtFirstRows(rows, ps, m);
    MarkersCoverCities(rows, ps, m);
    m
  }

  /** Each marker comes from its city's first row, in the order of those rows. */
  lemma MarkersAtFirstRows(rows: seq<Observation>, ps: seq<nat>, m: seq<Marker>)
    requires forall i :: 0 <= i < |ps| ==> ps[i] < |rows| && FirstOfItsCity(rows, ps[i])
    requires forall i, i' :: 0 <= i < i' < |ps| ==> ps[i] < ps[i']
    requires |m| == |ps| && forall i :: 0 <= i < |ps| ==> m[i] == MarkerOf(rows[ps[i]])
    ensures forall i :: 0 <= i < |m| ==>
      HasCity(rows, m[i].city) && m[i] == MarkerOf(rows[FirstIndex(rows, m[i].city)])
    ensures forall i, i' :: 0 <= i < i' < |m| ==> FirstIndex(rows, m[i].city) < FirstIndex(rows, m[i'].city)
  {
    forall i | 0 <= i < |ps|
      ensures HasCity(rows, m[i].city) && FirstIndex(rows, m[i].city) == ps[i]
    {
      FirstIndexOfFirstRow(rows, ps[i]);
    }
  }

  /** Every city of the table has a marker. */
  lemma MarkersCoverCities(rows: seq<Observation>, ps: seq<nat>, m: seq<Marker>)
    requires forall c :: MetFrom(rows, 0, c) ==> Kept(rows, ps, c)
    requires |m| == |ps| && forall i :: 0 <= i < |ps| ==> ps[i] < |rows| && m[i] == MarkerOf(rows[ps[i]])
    ensures forall c :: HasCity(rows, c) ==> exists i :: 0 <= i < |m| && m[i].city == c
  {
    forall c | HasCity(rows, c)
      ensures exists i :: 0 <= i < |m| && m[i].city == c
    {
      var j :| 0 <= j < |rows| && rows[j].city == c;
      assert MetFrom(rows, 0, c);
      var i :| 0 <= i < |ps| && ps[i] < |rows| && rows[ps[i]].city == c;
      assert m[i].city == c;
    }
  }

  /** The map has exactly one marker for each city the dropdowns offer. */
  lemma MarkersOnePerCity(rows: seq<Observation>)
    ensures forall i, i' :: 0 <= i < i' < |Markers(rows)| ==> Markers(rows)[i].city != Markers(rows)[i'].city
    ensures forall c :: c in CityOptions(rows) <==> exists i :: 0 <= i < |Markers(rows)| && Markers(rows)[i].city == c
  {
    var m := Markers(rows);
    forall c
      ensures c in CityOptions(rows) <==> exists i :: 0 <= i < |m| && m[i].city == c
    {
      if c in CityOptions(rows) {
        var o :| o in rows && o.city == c;
        var j :| 0 <= j < |rows| && rows[j] == o;
        assert HasCity(rows, c);
      }
      if exists i :: 0 <= i < |m| && m[i].city == c {
        var i :| 0 <= i < |m| && m[i].city == c;
        assert rows[FirstIndex(rows, c)] in rows;
      }
    }
  }

  /** The daily-temperature selection keeps exactly the rows of city `c` and year `y`, each as often as it occurs. */
  lemma DailySelection(rows: seq<Observation>, c: string, y: int)
    ensures forall o :: o in DailyRows(rows, c, y) <==> o in rows && o.city == c && o.year == y
    ensures forall o :: multiset(DailyRows(rows, c, y))[o] == if o.city == c && o.year == y then multiset(rows)[o] else 0
  {
    forall o
      ensures multiset(DailyRows(rows, c, y))[o] == if o.city == c && o.year == y then multiset(rows)[o] else 0
    {
      GroupMultiplicity(rows, KeyOf, (c, y), o);
    }
  }

  /** The daily-temperature selection keeps the table's row order. */
  lemma DailyOrder(a: seq<Observation>, b: seq<Observation>, c: string, y: int)
    ensures DailyRows(a + b, c, y) == DailyRows(a, c, y) + DailyRows(b, c, y)
  {
    GroupAppend(a, b, KeyOf, (c, y));
  }
}

# Heat-wave dashboard aggregations in Dafny

`appp.py` is a Dash dashboard over one table of daily weather observations.
Each row holds a city (`cidade`), a date (`index`), a year, the maximum, mean
and minimum temperature, a heat-wave flag (`isHW`), and the city's latitude
and longitude. This project models the pure part of the dashboard: the
functions that turn that table into the series the charts draw. It proves
what each of them computes.

- **Flag normalisation** (`flags.dfy`, `dataset.dfy`). At load time every
  `isHW` cell becomes `str(x).upper()`. A row is a heat-wave day exactly when
  that text is `"TRUE"`. This holds for the boolean `True` and for the text
  "true" in any mix of cases, and for nothing else.
- **Heat-wave summary** (`summary.dfy`). This is `calculate_hw_summary`. It
  gives the number of heat-wave days per (city, year), with one row per
  non-empty group. Rows are in pandas' group order: by city as Python
  compares strings, then by year. The counts add up to the table's
  heat-wave rows.
- **Annual anomalies** (`anomalies.dfy`). This is `calculate_anomalies`.
  - Each year the city has rows for gets one row, in ascending order.
  - A row holds that year's mean `tempMed` and the difference from the
    city's all-rows mean.
  - Weighted by their row counts, the anomalies cancel out.
  - A city with a single year has anomaly 0.
  - An unknown city gives an empty table.
- **Monthly frequency** (`monthly.dfy`). This is `calculate_hw_monthly`.
  - The selected rows are grouped by month name; the names are in string
    order, as `groupby` emits them.
  - The counts are left-joined onto the twelve English month names. The
    result always has twelve rows, January to December.
  - Each row holds that month's heat-wave days, or 0 when it has none.
  - The twelve values add up to the heat-wave days of the city and year.
- **Controls and simple selections** (`controls.dfy`).
  - The sorted distinct city and year lists behind the dropdowns and the
    slider.
  - The map markers: `drop_duplicates("cidade")` keeps each city's first
    row.
  - The rows of one city and year that the daily temperature chart plots,
    in table order.

Shared machinery:

- `orders.dfy` proves that Python's string order is a strict total order.
- `sorting.dfy` builds sorted lists of distinct values and proves that such
  a list is unique.
- `grouping.dfy` models masks and groups as order-keeping filters. It proves
  that distinct keys covering every row split the row count and any real
  weight sum.

Temperatures, latitudes and longitudes are Dafny `real`s. Counts are
`nat`s.

## Model

| member | source | states |
|---|---|---|
| `Flags.Normalise` | appp.py:26 | the stored flag has the length of the cell's text and no lower-case letter, and upper-casing it again changes nothing |
| `Flags.NormalisedFlagMeansTrue` | appp.py:26 | the upper-cased text of a cell is "TRUE" exactly when the cell is the boolean true or a four-letter text spelling true in any case; "nan" for an empty cell never is |
| `Dataset.Normalised` | appp.py:26 | a loaded row is a heat-wave day exactly when its raw cell means true |
| `Dataset.Load` | appp.py:23-27 | loading keeps every row and every field except the flag, and rewrites each row's flag so it is a heat-wave day exactly when its raw cell means true |
| `Dataset.DailyRows` | appp.py:162 | the daily city-and-year mask; it has no contract of its own, and `Controls.DailySelection` and `Controls.DailyOrder` state what it keeps and in which order |
| `Dataset.YearOfCityRows` | appp.py:47 | grouping a city's rows by year gives, for each year, exactly the city's rows of that year, in table order |
| `Dataset.KeyGroupOfHeatWaveRows` | appp.py:37-38 | the (city, year) group of the heat-wave rows is the heat-wave rows among that city's rows of that year |
| `Orders.LexLessIsStrictTotal` | appp.py:82 | Python's order on strings, which `sorted` and `groupby` use, is irreflexive, transitive and total |
| `Sorting.SortedDistinct` | appp.py:82-83 | the result is strictly increasing and holds exactly the values of the input |
| `Sorting.SortedUnique` | appp.py:82-83 | two strictly increasing lists with the same values are equal, so `sorted(unique())` is determined by the set of values |
| `Grouping.Filter` | appp.py:37 | a mask keeps exactly the rows that satisfy it |
| `Grouping.FilterMultiplicity` | appp.py:37 | a mask keeps every copy of a row that satisfies it and no copy of any other row |
| `Grouping.FilterAppend` | appp.py:37 | masking a concatenation masks each part, so a mask keeps row order |
| `Grouping.GroupMultiplicity` | appp.py:162 | a group keeps every copy of a row with its key and no copy of any other row |
| `Grouping.PartitionSizes` | appp.py:38 | the group sizes of distinct keys that cover every row add up to the number of rows |
| `Grouping.PartitionWeights` | appp.py:46-47 | the per-group sums of distinct keys that cover every row add up to the sum over all rows |
| `HeatWaveSummary.GroupSizes` | appp.py:38 | one row per listed (city, year) key, in the keys' order, holding the key and the size of its group among the heat-wave rows |
| `HeatWaveSummary.SummaryKeys` | appp.py:38 | the group keys are strictly increasing by city then year, and are exactly the (city, year) pairs of the heat-wave rows |
| `HeatWaveSummary.Summary` | appp.py:36-39 | rows are strictly increasing by (city, year), so keys are distinct; each count is that key's number of heat-wave days and is positive; a (city, year) has a row exactly when it has a heat-wave day |
| `HeatWaveSummary.SummaryTotal` | appp.py:37-38 | the summary's counts add up to the number of heat-wave rows in the table |
| `Anomalies.YearKeys` | appp.py:47 | the years of `groupby("year")` are strictly increasing and are exactly the years with rows |
| `Anomalies.YearlyAnomalies` | appp.py:47-48 | one row per listed year, in the listed order, holding the year, the mean `tempMed` of that year's rows, and that mean minus the baseline |
| `Anomalies.Anomalies` | appp.py:45-49 | the table is empty exactly when the city has no rows; years strictly increase; a year has a row exactly when the city has rows that year; each row holds the year's mean `tempMed` and that mean minus the city's all-rows mean |
| `Anomalies.MeanTimesCount` | appp.py:46 | helper of `Anomalies.BaselineFromYearMeans`: a mean times the number of rows it averages gives back their sum |
| `Anomalies.BaselineFromYearMeans` | appp.py:46-47 | weighted by their row counts, the yearly means add up to the city's `tempMed` sum, and the weights add up to the city's row count |
| `Anomalies.AnomaliesBalance` | appp.py:46-48 | weighted by the number of rows of each year, a city's anomalies add up to 0 |
| `Anomalies.SingleYearHasNoAnomaly` | appp.py:46-48 | when the table has a single year, that year's anomaly is 0 |
| `MonthlyFrequency.MonthNameInjective` | appp.py:62-65 | the twelve month names are pairwise different |
| `MonthlyFrequency.SelectedAreHeatWaveDays` | appp.py:57 | the rows of the city, the year and a true flag are the heat-wave rows among the city's rows of that year |
| `MonthlyFrequency.GroupByNameIsGroupByMonth` | appp.py:58-59 | grouping by month name groups exactly the rows of the month, in order |
| `MonthlyFrequency.NameSizes` | appp.py:59 | one row per listed month name, in the names' order, holding the name and the size of its group among the selected rows |
| `MonthlyFrequency.MonthCounts` | appp.py:59 | the month-name groups are in string order, each count is its group's positive size, and every selected row's month name is counted |
| `MonthlyFrequency.JoinedFrequency` | appp.py:66-68 | the left join attaches the count of a row with that name, and 0 when no row has it |
| `MonthlyFrequency.LeftJoin` | appp.py:66-68 | one row per month name of the left table, in its order, holding the name and the count joined onto it, 0 where no counted row has that name |
| `MonthlyFrequency.JoinedIsGroupSize` | appp.py:59-68 | after the join, a month name's value is the size of its group, 0 for a month without rows |
| `MonthlyFrequency.Monthly` | appp.py:56-70 | exactly twelve rows, January to December; row i holds month i's name and the number of heat-wave days of the city in that month of that year |
| `MonthlyFrequency.MonthlyTotal` | appp.py:56-70 | the twelve frequencies add up to the heat-wave days of the city in that year |
| `Controls.CityOptions` | appp.py:82 | the city list is strictly increasing in Python's string order and holds exactly the cities of the table |
| `Controls.YearOptions` | appp.py:83 | the year list is strictly increasing and holds exactly the years of the table |
| `Controls.CityOptionsCanonical` | appp.py:82 | any strictly increasing list of exactly the table's cities is the city list |
| `Controls.YearOptionsCanonical` | appp.py:83 | any strictly increasing list of exactly the table's years is the year list |
| `Controls.FirstIndex` | appp.py:101 | the position returned holds a row of the city and no earlier row does |
| `Controls.KeptPositions` | appp.py:101 | the kept positions increase; each holds the first row of its city; every city not yet seen has a kept row |
| `Controls.Markers` | appp.py:96-102 | each marker carries the name and coordinates of its city's first row; markers follow the order of those first rows; every city of the table has a marker |
| `Controls.MarkersOnePerCity` | appp.py:101 | no two markers share a city, and the marker cities are exactly the cities the dropdowns offer |
| `Controls.DailySelection` | appp.py:162 | the daily selection holds exactly the rows of the city and year, each as often as it occurs in the table |
| `Controls.DailyOrder` | appp.py:162 | the daily selection of a concatenation is the concatenation of the selections, so table order is kept |

## Left out

- Reading the spreadsheet and parsing dates (appp.py:24-25). `Dataset.Date` stands for an already parsed date, and `Dataset.Load` starts from decoded rows.
- Numeric flag cells. `Flags.Cell` models text, boolean and empty cells only.
- Flags.Upper: upper-cases the ASCII letters only. Python's `str.upper` also maps non-ASCII letters, but no text containing a non-ASCII character upper-cases to exactly "TRUE". The only non-ASCII characters whose upper case contains T, R, U or E are U+1E97 (to "T" plus a combining diaeresis) and U+FB05 and U+FB06 (to "ST"). So the heat-wave test is unaffected.
- Flags.Normalise: the stored flag keeps the length of the cell's text only in the model. Python's `str.upper` can lengthen a text (`"ß".upper()` is `"SS"`). As above, this never makes a flag equal "TRUE".
- `strftime("%B")` depends on the locale (appp.py:58). The model uses the English names of appp.py:62-65, so month names always match the join list.
- Floating point and NaN. Means are exact `real` divisions. pandas' NaN mean of an empty city is never used, because that case returns an empty table.
- MonthlyFrequency.Monthly: frequencies are `nat`. pandas makes the column float whenever some month has no heat-wave day, because the left merge then introduces NaN before `fillna` (appp.py:66-68). When all twelve months have one, the column stays integer.
- The map centre, a mean of all latitudes and longitudes (appp.py:104). It is presentation and floating point.
- The Plotly figures, the Dash layout, the callbacks' wiring and the server (appp.py:86-152, 163-220), and the absolute-value marker sizes of the anomaly chart (appp.py:179).
- No view dispatcher and no selection or unknown-city errors exist in the code.
  - `calculate_anomalies` on a city without rows returns an empty table. The model does the same.
  - The daily selection returns the table's rows in table order. It does not sort by date.

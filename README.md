# Weekly demand preparation, modelled in Dafny

This project models the data-preparation core of a small production-planning script set. The sales table has these columns:

- `Fecha`: the date;
- `Nombre_Producto`: the product;
- `Cantidad_Vendida`: the quantity sold;
- `Cliente`: the customer.

The pipeline works on this table in stages:

- it derives calendar columns from `Fecha`;
- it filters rows with boolean masks and slices them with `.loc` / `.iloc`;
- it sums quantities per (year, month, product) and per (year, week, product);
- it resamples the sales into weekly (`W-MON`) and two-weekly (`2W-Mon`) bins;
- it ranks the products by quantity sold;
- finally it prepares `demanda_semanal`, the weekly demand of the planned product. This final table is numbered by `Periodo` and has the columns (Periodo, Inicio_Semana, Demanda).

Every stage is a function over sequences of records. The modules follow the stages:

- `Calendar` (calendar.dfy): proleptic Gregorian dates as day numbers and the ISO 8601 week date. Day 0 is Monday 0001-01-01, so the weekday of day n is n mod 7. The ISO week follows ISO 8601:2004 section 4.1.4: weeks run Monday to Sunday, and week 1 holds the year's first Thursday.
- `Sales` (sales.dfy): the sales row, the calendar columns, the boolean-mask filters, label and position slicing, and the quantity total.
  - The group-bys of datos/paso_01.py key on the calendar columns (`Grouping.KeysFromCalendarColumns`). The demand pipeline of paso_02.py adds the same columns but never reads them, so there `Sales.AddCalendarColumns` stands alone.
- `Grouping` (grouping.dfy): keyed sums for the group-bys, the per-product totals and the descending ranking.
- `Resampling` (resampling.dfy): the right-closed, Monday-labelled bins of `resample('W-MON')` and `resample('2W-Mon')`.
  - For weekly bins a bin runs Tuesday through Monday and is labelled by the Monday that ends it.
  - The first bin holds the earliest sale and the last bin holds the latest sale.
  - Bins follow one another without gaps, and an empty bin sums to 0.
- `WeeklyDemand` (weekly_demand.dfy): the `demanda_semanal` pipeline of `paso_02.py`.
  - The stages are the product filter, the weekly resample, `fillna(0)`, the cast with `astype(int)`, the rename, the `Periodo` numbering and the column projection.

Quantities are `real`. `astype(int)` is therefore a visible truncation toward zero that comes after the weekly sum.

Two places where the model follows the code rather than the names and comments:

- **The weekly label.** The code's `W-MON` resample labels each week with the Monday that ends it, and a Monday is the last day of its bin. The column is still named `Inicio_Semana` ("week start"), and the comment above the resample says Monday to Sunday. The model follows the code: a sale is counted under the first Monday on or after its date (`WeeklyDemand.EachSaleInOneWeek`). For example, a sale on Tuesday 2024-01-02 is counted under Monday 2024-01-08, not under Monday 2024-01-01 (`WeeklyDemand.TwoWeeksOfJanuary2024`).
- **The weekly group-by key.** It pairs the calendar year with the ISO week (see Findings).

## Model

| member | source | states |
|---|---|---|
| Calendar.DaysFromCivil | datos/paso_01.py:118-119 | the day number of a valid date lies inside the days of its year |
| Calendar.YearOf | datos/paso_01.py:118 | the year found holds the day: it starts on or before it and the next year starts after it |
| Calendar.CivilFromDays | datos/paso_01.py:118-119 | the date of a day is a valid date whose day number is that day |
| Calendar.CivilRoundTrip | datos/paso_01.py:118-119 | CivilFromDays inverts DaysFromCivil on every valid date |
| Calendar.DaysRoundTrip | datos/paso_01.py:118-119 | DaysFromCivil inverts CivilFromDays on every day |
| Calendar.YearUnique | datos/paso_01.py:118 | at most one year holds a given day |
| Calendar.MonthUnique | datos/paso_01.py:119 | at most one month of a year holds a given day of that year |
| Calendar.SameYearDates | datos/paso_01.py:118-119 | two valid dates of one year with the same day number are equal |
| Calendar.DayOfYear | datos/paso_01.py:119 | the day of the year of a valid date counts the days of the earlier months plus the day of the month, inside its month |
| Calendar.YearLength | datos/paso_01.py:118 | consecutive years start DaysInYear days apart, so leap years have 366 days |
| Calendar.YearsIncrease | datos/paso_01.py:118 | a later year starts at least 365 days per year later |
| Calendar.EraStart | datos/paso_01.py:118 | every 400-year Gregorian era has 146097 days |
| Calendar.MonthLength | datos/paso_01.py:119 | consecutive months start DaysInMonth days apart, and the twelve months fill the year |
| Calendar.DayOfMonth | datos/paso_01.py:118-119 | the day of the month lies in 1..31 |
| Calendar.MonthsIncrease | datos/paso_01.py:119 | later months start later in the year |
| Calendar.Year | paso_02.py:25 | `dt.year`: the year that holds the day (Calendar.YearBounds states it) |
| Calendar.YearBounds | paso_02.py:25 | the day lies between the start of Year(n) and the start of the next year |
| Calendar.Month | paso_02.py:26 | `dt.month` lies in 1..12 |
| Calendar.CivilColumns | datos/paso_01.py:118-119 | Year, Month and DayOfMonth of a day form a valid date whose day number is that day |
| Calendar.Weekday | paso_02.py:28 | `dt.dayofweek` lies in 0..6 |
| Calendar.WeekdayNext | datos/paso_01.py:121 | the weekday moves on by one each day, wraps from Sunday (6) to Monday (0), and repeats every 7 days |
| Calendar.KnownMonday | datos/paso_01.py:121 | Monday = 0: 2024-01-01, a Monday, has weekday 0 |
| Calendar.MondayOf | datos/paso_01.py:121 | the Monday of a day's week is at most 6 days before it |
| Calendar.WeekOf | datos/paso_01.py:121 | days 7q .. 7q+6 form one Monday-to-Sunday week with weekdays 0..6 |
| Calendar.MondayByWeekday | datos/paso_01.py:121 | going back the weekday number of days from a day reaches the Monday that starts its week |
| Calendar.IsoThursday | datos/paso_01.py:120 | the Thursday of a day's week has weekday 3 and the same Monday |
| Calendar.IsoYear | datos/paso_01.py:120 | `isocalendar().year`: the day lies in its ISO year's calendar year, widened by 3 days at either end |
| Calendar.IsoYearNear | datos/paso_01.py:118-120 | the ISO year of a day is its calendar year or one of the two neighbouring years |
| Calendar.IsoWeek | paso_02.py:27 | `dt.isocalendar().week` lies in 1..53 |
| Calendar.Week1Monday | datos/paso_01.py:120 | week 1 of an ISO year starts on a Monday within 3 days of 1 January |
| Calendar.Week1MondaysIncrease | datos/paso_01.py:120 | later ISO years start later |
| Calendar.Week1MondaysMonotone | datos/paso_01.py:120 | the start of ISO years never decreases |
| Calendar.IsoYearWeeks | datos/paso_01.py:120 | an ISO year has 52 or 53 weeks |
| Calendar.Week1HoldsFirstThursday | datos/paso_01.py:120 | for every year, week 1 holds the year's first Thursday: its Thursday lies in the year, and no day of the year before it is a Thursday |
| Calendar.IsoWeekDefinition | datos/paso_01.py:120 | a day lies between the week-1 Mondays of its ISO year and of the next, and its ISO week counts whole weeks from the first, plus one |
| Calendar.IsoWeekBetween | datos/paso_01.py:120 | a day lies between the week-1 Mondays of its ISO year and of the next |
| Calendar.IsoWeekCount | datos/paso_01.py:120 | the ISO week of a day counts whole weeks from the week-1 Monday of its ISO year, plus one |
| Calendar.IsoWeekUnique | datos/paso_01.py:120 | conversely, any ISO year whose week-1 Mondays enclose a day is its ISO year and fixes its week |
| Calendar.IsoYearBetween | datos/paso_01.py:120 | at most one ISO year holds a given day |
| Calendar.Week1Order | datos/paso_01.py:120 | a day from the start of ISO year a and before the end of ISO year b has a <= b |
| Calendar.IsoYearAhead | datos/paso_01.py:118-120 | a day whose ISO year is the next calendar year is in ISO week 1, on or after that year's week-1 Monday |
| Calendar.IsoWeekOne | datos/paso_01.py:120 | a day of ISO week 1 lies in the seven days from the week-1 Monday |
| Calendar.IsoYearStart | datos/paso_01.py:120 | a day of ISO year z lies on or after the week-1 Monday of z |
| Calendar.IsoWeekOneIn | datos/paso_01.py:120 | a day of ISO week 1 of ISO year z lies before the Monday of week 2 of z |
| Calendar.IsoWeekSameWeek | datos/paso_01.py:120 | two days share the ISO year and ISO week exactly when they fall in the same Monday-to-Sunday week |
| Calendar.SameWeekIndex | datos/paso_01.py:120 | two days the same number of whole weeks after a Monday share their Monday |
| Calendar.IsoWeekOneOfNextYear | datos/paso_01.py:118-120 | a day in ISO week 1 of its own year and a day of the same calendar year in the next ISO year are at least 358 days apart |
| Sales.WithCalendar | datos/paso_01.py:118-121 | a row keeps its sale and gains Mes in 1..12, Semana_del_Año in 1..53 and Dia_Semana in 0..6 |
| Sales.YearMonthColumns | paso_02.py:25-26 | Año and Mes, with the day of the month, form the valid civil date of Fecha |
| Sales.IsoWeekColumn | paso_02.py:27 | Semana_del_Año is one plus the number of whole weeks between Fecha and the week-1 Monday of its ISO year, and the week-1 Mondays of that ISO year and of the next enclose Fecha |
| Sales.WeekdayColumn | paso_02.py:28 | Fecha minus Dia_Semana is the Monday that starts Fecha's week |
| Sales.AddCalendarColumns | paso_02.py:25-28 | the table keeps its length, and row i is row i of the table with its own calendar columns (Sales.WithCalendar) |
| Sales.Select | datos/paso_01.py:62 | a mask keeps at most every row |
| Sales.SelectMembers | datos/paso_01.py:62 | a filtered row is a row of the table that satisfies the mask, and every such row is kept |
| Sales.SelectCounts | datos/paso_01.py:62 | a filter keeps every matching row as often as it occurs and drops every other row |
| Sales.SelectConcat | datos/paso_01.py:62 | filtering keeps table order: filtering a concatenation concatenates the filtered parts |
| Sales.SelectBoth | datos/paso_01.py:67-69 | masking with `cond1 & cond2` equals filtering by cond1 and then by cond2 |
| Sales.SelectIdempotent | datos/paso_01.py:62 | filtering twice by one mask is filtering once |
| Sales.SelectAll | paso_02.py:39 | a mask that holds on every row keeps the table unchanged |
| Sales.ProductSales | paso_02.py:39 | the filtered table holds exactly the rows of the named product |
| Sales.LargeSales | datos/paso_01.py:62 | `ventas_grandes` holds exactly the rows with quantity above 100 |
| Sales.LargeScrewSales | datos/paso_01.py:67-69 | `ventas_tornillo_grandes` holds exactly the rows of 'Tornillo Acero' above 80 units, the same as the two filters one after the other |
| Sales.AcmeSales | datos/paso_01.py:75 | the `.loc` mask keeps exactly the rows of customer 'Industrias ACME' |
| Sales.SliceBound | datos/paso_01.py:57 | Python slice bounds are clamped to the table and leave in-range bounds unchanged |
| Sales.ILoc | datos/paso_01.py:57 | `.iloc` keeps at most every row |
| Sales.LocFrom | datos/paso_01.py:53 | label selection keeps at most every row |
| Sales.Loc | datos/paso_01.py:53 | `.loc[first:last]` keeps at most every row; Sales.LocMatchesILoc states which |
| Sales.Clamp | datos/paso_01.py:53 | a label bound of `.loc` clamped to the rows, equal to the Python slice bound when it is non-negative |
| Sales.LocFromIsSlice | datos/paso_01.py:53 | label selection on the default index, with its end included, is a contiguous slice of the table |
| Sales.LocFromStep | datos/paso_01.py:53 | the slice property passes from a table's tail to the whole table |
| Sales.LocEmpty | datos/paso_01.py:53 | a label range whose end is before its start selects nothing |
| Sales.LocMatchesILoc | datos/paso_01.py:53-57 | on the default index, `.loc[a:b]` with its end included equals `.iloc[a:b+1]` with its end excluded |
| Sales.FirstThreeRows | datos/paso_01.py:53-57 | `.loc[0:2]` and `.iloc[0:3]` show the same first three rows, or fewer for a shorter table |
| Sales.TotalConcat | datos/paso_01.py:130 | the quantity total adds over concatenation |
| Sales.TotalNonNegative | paso_02.py:47 | non-negative quantities have a non-negative total |
| Grouping.KeyOf | datos/paso_01.py:130-135 | the key of a row carries the row's product |
| Grouping.KeyPeriod | datos/paso_01.py:130-135 | a month key holds a month in 1..12, and a week key a week in 1..53 |
| Grouping.KeysFromCalendarColumns | datos/paso_01.py:118-135 | the monthly and weekly keys of row i are its product with the Año, Mes and Semana_del_Año columns of row i of Sales.AddCalendarColumns |
| Grouping.Tag | datos/paso_01.py:130 | every row is tagged, in table order, with its key and its quantity |
| Grouping.TagTotal | datos/paso_01.py:130 | tagging keeps the total quantity |
| Grouping.KeysOfTail | datos/paso_01.py:130 | the keys of the entries are the first key plus the keys of the rest |
| Grouping.SumWithAbsentKey | datos/paso_01.py:130 | a key that does not occur sums to 0 |
| Grouping.Group | datos/paso_01.py:130 | the sum per key has exactly the keys that occur, each holding the quantity of exactly its entries |
| Grouping.GroupTotals | datos/paso_01.py:130 | a key is present exactly when some sale is filed under it, and it holds the quantity of exactly those sales |
| Grouping.TagKeys | datos/paso_01.py:130 | the keys of the tagged rows are exactly the keys of the rows |
| Grouping.TagKeyOccurs | datos/paso_01.py:130 | every key of the tagged rows comes from some row |
| Grouping.RowKeyTagged | datos/paso_01.py:130 | every row's key is among the tagged keys |
| Grouping.SumWithKeyInSplit | datos/paso_01.py:130 | summing over a set of keys splits into one key plus the rest |
| Grouping.SumWithKeyInAll | datos/paso_01.py:130 | summing over a set that holds every key gives the whole total |
| Grouping.SumWithKeyInNone | datos/paso_01.py:130 | summing over no keys gives 0 |
| Grouping.SumOverGroups | datos/paso_01.py:130 | adding the group totals over a set of keys equals the quantity of the entries with those keys |
| Grouping.GroupTotalsConserve | datos/paso_01.py:130 | conservation: the group totals add up to the grand total of Cantidad_Vendida |
| Grouping.MonthlyTotals | datos/paso_01.py:130 | every key's month lies in 1..12, and every sale's (Año, Mes, product) key is present |
| Grouping.WeeklyTotals | datos/paso_01.py:135 | every key's week lies in 1..53, and every sale's (Año, Semana_del_Año, product) key is present |
| Grouping.WeekKeyMixesYears | datos/paso_01.py:118-120 | as written: a first-week sale and a same-year, same-product sale at least 358 days later that is already in next year's ISO week 1 share the weekly key; the ISO-year key separates them |
| Grouping.WeekKeyMixesYearsIn2024 | datos/paso_01.py:118-120 | 2024-01-01 is in ISO week 1 of 2024, and 2024-12-30 is in calendar year 2024 but in ISO year 2025 |
| Grouping.Jan1Of2024 | datos/paso_01.py:118 | 2024-01-01 is day 738885, in calendar year 2024 |
| Grouping.Dec30Of2024 | datos/paso_01.py:118 | 2024-12-30 is day 739249, in calendar year 2024 |
| Grouping.Week1Of2024 | datos/paso_01.py:120 | 2024-01-01 has ISO year 2024 and ISO week 1 |
| Grouping.Week1Of2025 | datos/paso_01.py:120 | 2024-12-30 has ISO year 2025 and ISO week 1 |
| Grouping.Week1Mondays | datos/paso_01.py:120 | ISO years 2024, 2025 and 2026 start on days 738885, 739249 and 739613 |
| Grouping.IsoWeekKeySameWeek | datos/paso_01.py:135 | corrected key: two sales share the ISO-year weekly key exactly when they are of one product and in one Monday-to-Sunday week |
| Grouping.IsoWeeklyTotals | datos/paso_01.py:135 | the ISO-keyed totals have weeks in 1..53 and a key for every sale |
| Grouping.DistinctProducts | datos/paso_01.py:178 | each product of the table is listed, once |
| Grouping.ProductsOfTail | datos/paso_01.py:178 | the products of a table are its first row's product plus the products of the rest |
| Grouping.ProductTotals | datos/paso_01.py:178 | one entry per product, no two equal, each holding the product's total quantity |
| Grouping.InsertByTotal | datos/paso_01.py:178 | insertion keeps the order non-increasing and adds exactly the new entry |
| Grouping.NonIncreasingTail | datos/paso_01.py:178 | the tail of a non-increasing list is non-increasing |
| Grouping.InsertFirst | datos/paso_01.py:178 | an entry at least as large as the head can go in front |
| Grouping.InsertBehind | datos/paso_01.py:178 | a smaller entry goes behind the head, into the tail |
| Grouping.SortByTotalDescending | datos/paso_01.py:178 | `sort_values(ascending=False)` returns a permutation of its input, largest total first |
| Grouping.CountTwo | datos/paso_01.py:178 | a value at two places of a list occurs at least twice |
| Grouping.CountAtMostOne | datos/paso_01.py:178 | a list without repeats holds each value at most once |
| Grouping.RankingEntries | datos/paso_01.py:178 | the ranking is non-increasing, lists exactly the products of the table with their totals, and each product once |
| Grouping.Ranking | datos/paso_01.py:178 | the ranking is non-increasing and a permutation of the product totals |
| Grouping.RankOf | datos/paso_01.py:178 | every product of the table has a place in the ranking, holding its total |
| Grouping.RankEntry | datos/paso_01.py:178 | every place of the ranking holds a product of the table and its total |
| Grouping.RankOrder | datos/paso_01.py:178 | different places hold different products, the earlier one with the larger total |
| Grouping.TopProduct | datos/paso_01.py:190 | `producto_principal`, when there is one, is a product of the table |
| Grouping.RunnerUp | datos/paso_01.py:191 | `producto_secundario`, when there is one, is a product of the table other than `producto_principal` |
| Grouping.TopProductIsBest | datos/paso_01.py:190 | `producto_principal` exists exactly for a non-empty table, is one of its products, and sold at least as much as any product |
| Grouping.RunnerUpExists | datos/paso_01.py:191 | `producto_secundario` exists exactly when two different products were sold |
| Grouping.RunnerUpIsSecond | datos/paso_01.py:190-191 | `producto_secundario` is a product other than `producto_principal` and sold at least as much as any other product |
| Resampling.NextMonday | paso_02.py:47 | the first Monday on or after d is a Monday less than 7 days after d |
| Resampling.MondaysApart | paso_02.py:47 | two Mondays less than 7 days apart are the same day |
| Resampling.EarliestDate | paso_02.py:47 | the earliest date is the date of some sale and on or before every sale |
| Resampling.LatestDate | paso_02.py:47 | the latest date is the date of some sale and on or after every sale |
| Resampling.SumInSplit | paso_02.py:47 | splitting a range of days splits the quantity sold in it |
| Resampling.SumInAll | paso_02.py:47 | a range of days that holds every sale sums to the table total |
| Resampling.SumInNone | paso_02.py:46-47 | a range of days with no sale sums to 0 |
| Resampling.SumInNonNegative | paso_02.py:47 | non-negative quantities sum to a non-negative amount on any range |
| Resampling.Bins | paso_02.py:47 | the first bin, when there is one, is labelled `first` and sums the 7 * weeks days that end on it |
| Resampling.BinsEnds | paso_02.py:47 | there are no bins exactly when the first bin ends before `last`; otherwise the first bin is labelled `first` and the last reaches `last` |
| Resampling.BinsReach | paso_02.py:47 | when `last` is no earlier than the first day of the bin labelled `first`, there are bins, the first labelled `first` and the last holding `last` |
| Resampling.BinsLabels | paso_02.py:47 | bin labels are Mondays from `first` on, each 7 * weeks days after the one before |
| Resampling.BinsTotals | paso_02.py:47 | every bin sums the quantity sold on its 7 * weeks days, ending on its label |
| Resampling.Resample | paso_02.py:47 | no bins exactly for no sales; the first label is the first Monday on or after the earliest sale; labels are Mondays, 7 * weeks days apart; every bin sums the quantity sold on its days; the first bin holds the earliest sale and the last bin the latest |
| Resampling.BinsTotal | paso_02.py:47 | the bins together sum the quantity sold from the start of the first bin to the end of the last |
| Resampling.ResampleConserves | paso_02.py:47 | conservation: the resampled series adds up to the table total |
| Resampling.BinsConserve | paso_02.py:47 | bins spanning every sale add up to the table total |
| Resampling.BinsCover | paso_02.py:47 | every day from the start of the first bin to `last` lies in some bin |
| Resampling.ResampleIncrease | paso_02.py:47 | a later bin's label is at least 7 * weeks days after an earlier one |
| Resampling.ResampleOrder | paso_02.py:47 | a day inside bin j and bin k is never in a bin later than j |
| Resampling.ResampleBinsEachSaleOnce | paso_02.py:47-49 | every sale lies in exactly one bin |
| Resampling.WeeklyLabelIsNextMonday | paso_02.py:47-49 | a sale's weekly bin is labelled by the first Monday on or after its date |
| Resampling.ResampleZeroFill | paso_02.py:46-47 | a bin with no sale in its days sums to 0 |
| Resampling.ResampleNonNegative | paso_02.py:47 | non-negative quantities give non-negative bin totals |
| Resampling.Biweekly | datos/paso_01.py:148 | `ventas_2semanas` is the resample with two-week bins: Monday labels 14 days apart from the first Monday on or after the earliest sale; each bin sums its 14 days; the last bin reaches the latest sale; the series adds up to the table total |
| Resampling.WeeklyByProduct | datos/paso_01.py:154 | one weekly series per product of the table, and no other |
| Resampling.WeeklyByProductConserves | datos/paso_01.py:154 | each product's series is the weekly resample of its own sales, is not empty, and adds up to the product's total |
| WeeklyDemand.Trunc | paso_02.py:47 | `astype(int)` truncates toward zero: the result is within 1 of x, no farther from 0 than x, and of x's sign |
| WeeklyDemand.TruncWhole | paso_02.py:47 | a whole number passes through the cast unchanged |
| WeeklyDemand.CastToInt | paso_02.py:47-52 | every week keeps its label and gets its truncated sum |
| WeeklyDemand.Periodize | paso_02.py:55-56 | row k gets Periodo k + 1 and keeps its week's label and demand |
| WeeklyDemand.WeeklyDemandOf | paso_02.py:47-56 | no rows exactly for no sales; Periodo is 1..N; every Inicio_Semana is a Monday, 7 days after the one before |
| WeeklyDemand.RowOfWeek | paso_02.py:47-56 | row k is bucket k of the weekly series, numbered k + 1, with its sum truncated |
| WeeklyDemand.DemandIsWeekSum | paso_02.py:47 | Demanda is the truncated quantity sold from the Tuesday before Inicio_Semana up to that Monday |
| WeeklyDemand.PrepareWeeklyDemand | paso_02.py:39-56 | `demanda_semanal` is empty exactly when the product was never sold |
| WeeklyDemand.PrepareIsWeeklyOfFiltered | paso_02.py:39-56 | `demanda_semanal` for a product is the weekly demand (WeeklyDemand.WeeklyDemandOf) of that product's sales alone |
| WeeklyDemand.PlannedDemand | paso_02.py:31-56 | `demanda_semanal` for `PRODUCTO_A_PLANIFICAR` is empty exactly when no sale is of that product |
| WeeklyDemand.FilteredRow | paso_02.py:39 | every filtered row is a sale of the product from the table |
| WeeklyDemand.FilteredMisses | paso_02.py:39 | a week holding no sale of the product holds no row of the filtered table |
| WeeklyDemand.FilteredHas | paso_02.py:39 | every sale of the product is a row of the filtered table |
| WeeklyDemand.WeekOfSale | paso_02.py:47-49 | every sale of the filtered table has a row labelled by the first Monday on or after its date, whose days hold it |
| WeeklyDemand.WeekOfSaleUnique | paso_02.py:47 | no sale lies in the days of two rows |
| WeeklyDemand.EachSaleInOneWeek | paso_02.py:39-49 | every sale of the product is counted under the first Monday on or after its date, and in exactly one row |
| WeeklyDemand.ProductDemandIsWeekSum | paso_02.py:39-47 | a week's Demanda is the truncated quantity of the product's sales in that week |
| WeeklyDemand.EmptyWeekOf | paso_02.py:46-47 | a row none of whose days holds a sale has Demanda 0 |
| WeeklyDemand.EmptyWeekHasZeroDemand | paso_02.py:46-47 | zero-fill: a week in which the product was not sold has Demanda 0 |
| WeeklyDemand.NonNegativeOf | paso_02.py:47 | non-negative quantities give non-negative Demanda in every row |
| WeeklyDemand.WeekNonNegative | paso_02.py:47 | non-negative quantities give a row non-negative Demanda |
| WeeklyDemand.DemandNonNegative | paso_02.py:39-47 | non-negative quantities give non-negative Demanda in every week of the product |
| WeeklyDemand.SumInWhole | paso_02.py:47 | a sum of whole quantities is whole |
| WeeklyDemand.DemandTotalOfColumn | paso_02.py:56 | the Demanda total depends only on the Demanda column |
| WeeklyDemand.DemandTotalOfSeries | paso_02.py:47-56 | for whole bucket sums the cast loses nothing: Demanda adds up to the series total |
| WeeklyDemand.FilterKeepsWhole | paso_02.py:39 | the product filter keeps the quantities whole |
| WeeklyDemand.WeeksWhole | paso_02.py:47 | whole quantities give whole weekly sums |
| WeeklyDemand.DemandConserves | paso_02.py:39-56 | conservation: for whole quantities, Demanda adds up to the quantity of the product sold |
| WeeklyDemand.FilterKeepsOwnSales | paso_02.py:39 | the product filter keeps a table of that product's sales unchanged |
| WeeklyDemand.CastAfterSum | paso_02.py:47 | the cast comes after the sum: two half-unit sales in one week give Demanda 1, while casting each sale would give 0 |
| WeeklyDemand.SingleSale | paso_02.py:39-56 | a product sold once gives the single row (1, first Monday on or after the sale, truncated quantity) |
| WeeklyDemand.OneWeek | paso_02.py:47-56 | sales within one Tuesday-to-Monday week give a single row, labelled by that Monday |
| WeeklyDemand.TwoWeeks | paso_02.py:47-56 | two sales in consecutive weeks give rows 1 and 2, labelled by consecutive Mondays |
| WeeklyDemand.TwoWeeksOfJanuary2024 | paso_02.py:39-56 | 10 units on 2024-01-02 and 5 on 2024-01-10 give (1, 2024-01-08, 10) and (2, 2024-01-15, 5) |

## Left out

- Loading the CSV file is I/O and is not modelled.
  - This includes `pd.read_csv`, the `FileNotFoundError` branch and `exit()`.
  - The table is a parameter of every stage.
- Parsing date text (`pd.to_datetime`) is a library call. Dates are already-parsed day numbers.
- Console output and plots are not modelled: the `print`, `head`, `info` and `describe` calls, and every matplotlib call.
- The revenue and discount columns (`Ingreso_Total`, `Descuento`, `Ingreso_Neto`) are not modelled. They are floating-point price arithmetic that the weekly demand does not use.
- The planning constants `INVENTARIO_INICIAL`, `STOCK_SEGURIDAD` and `CAPACIDAD_PRODUCCION_SEMANAL` are defined but never used, so there is no planning logic to model.
- Column selection (`df[['Fecha', ...]]`) and `set_index` / `reset_index` only reshape the table.
  - The model keeps whole rows and uses `Fecha` directly as the resample key.
  - The column list of the `.loc` at datos/paso_01.py:75 is likewise not modelled; only its row mask is.
- In-place column assignment is modelled as functions that return new rows or tables. This covers the calendar columns, `rename(inplace=True)` and the `Periodo` assignment. A table is a value, so aliasing between `df_ventas` and its filtered `.copy()` is not represented. The copy's purpose, leaving the source table unchanged, holds trivially.
- Floating-point rounding is not modelled.
  - Quantities are exact reals and sums are exact.
  - The int64 range of `astype(int)` is not modelled; the cast is unbounded truncation toward zero.
- The group-by results are finite maps. The sorted order of the keys in pandas' output is not modelled.
- Ties in `sort_values(ascending=False)`: the model proves that the ranking is non-increasing and a permutation of the product totals. It does not fix which of two equally selling products comes first.
- pandas index alignment, dtypes and the NaN path of `fillna(0)` are not modelled.
  - A resampled sum is never NaN, so `fillna(0)` changes nothing.
  - The zero of an empty bin comes from the sum itself.
- Sales.WithCalendar: its contract states only the sale it keeps and the ranges of the columns. Sales.YearMonthColumns, Sales.IsoWeekColumn and Sales.WeekdayColumn state what each column means.

## Findings

| source | as written | input that shows it | evidently intended | confidence | as-written member | corrected member |
|---|---|---|---|---|---|---|
| datos/paso_01.py:135 | the weekly group-by key pairs `dt.year` (line 118) with the ISO week `isocalendar().week` (line 120) | sales of one product on 2024-01-01 (ISO week 1 of 2024) and 2024-12-30 (ISO week 1 of 2025) both get key (2024, 1), so a total adds sales 364 days apart | the ISO week paired with its own ISO year, so that one key is one Monday-to-Sunday week | not executed | Grouping.WeekKeyMixesYears | Grouping.IsoWeekKeySameWeek |

/**
 * The weekly demand of one product, as the planning script prepares it:
 * filter the product's sales, resample them into W-MON weeks, sum, fill
 * empty weeks with 0, cast to int, rename the index to Inicio_Semana and
 * the sums to Demanda, number the weeks 1..N in Periodo and project to
 * (Periodo, Inicio_Semana, Demanda).
 */
module WeeklyDemand {
  import opened Calendar
  import opened Sales
  import opened Resampling

  /** `PRODUCTO_A_PLANIFICAR` */
  const PlannedProduct: string := "Tornillo Acero"

  /** `astype(int)` on a float: truncation toward zero. */
  function Trunc(x: real): (n: int)
    ensures x >= 0.0 ==> 0.0 <= n as real <= x < n as real + 1.0
    ensures x < 0.0 ==> n as real - 1.0 < x <= n as real <= 0.0
  {
    if x >= 0.0 then x.Floor else -((-x).Floor)
  }

  /** A whole number passes through the cast unchanged. */
  lemma TruncWhole(n: int)
    ensures Trunc(n as real) == n
  {
  }

  /** One row of the resampled series after `reset_index()` and the rename. */
  datatype WeekDemand = WeekDemand(inicioSemana: Day, demanda: int)

  /** One row of `demanda_semanal`, with its columns in the order Periodo, Inicio_Semana, Demanda. */
  datatype DemandRow = DemandRow(periodo: int, inicioSemana: Day, demanda: int)

  /** `.astype(int)`, `reset_index()` and the rename: every week keeps its label and its truncated sum. */
  function CastToInt(b: seq<Bucket>): (w: seq<WeekDemand>)
    ensures |w| == |b|
    ensures forall k :: 0 <= k < |b| ==> w[k].inicioSemana == b[k].binEnd && w[k].demanda == Trunc(b[k].total)
  {
    seq(|b|, k requires 0 <= k < |b| => WeekDemand(b[k].binEnd, Trunc(b[k].total)))
  }

  /** `demanda_semanal['Periodo'] = range(1, len + 1)` and the column projection. */
  function Periodize(w: seq<WeekDemand>): (r: seq<DemandRow>)
    ensures |r| == |w|
    ensures forall k :: 0 <= k < |w| ==> r[k] == DemandRow(k + 1, w[k].inicioSemana, w[k].demanda)
  {
    seq(|w|, k requires 0 <= k < |w| => DemandRow(k + 1, w[k].inicioSemana, w[k].demanda))
  }

  /**
   * The resample, cast, rename and numbering applied to a table of one
   * product's sales: no rows for no sales; otherwise one row per week from
   * the week of the first sale to the week of the last, numbered 1..N, each
   * labelled by the Monday that ends it and 7 days after the previous one.
   */
  function WeeklyDemandOf(rows: seq<Sale>): (r: seq<DemandRow>)
    ensures (r == []) <==> (rows == [])
    ensures forall k :: 0 <= k < |r| ==> r[k].periodo == k + 1
    ensures forall k :: 0 <= k < |r| ==> Weekday(r[k].inicioSemana) == 0
    ensures forall j, k :: 0 <= j < k < |r| && k == j + 1 ==> r[k].inicioSemana == r[j].inicioSemana + 7
  {
    Periodize(CastToInt(Resample(rows, 1)))
  }

  /**
   * The Demanda of a week is the truncated quantity sold from the Tuesday
   * before its Inicio_Semana up to that Monday.
   */
  lemma DemandIsWeekSum(rows: seq<Sale>, k: nat)
    requires k < |WeeklyDemandOf(rows)|
    ensures var row := WeeklyDemandOf(rows)[k];
      row.demanda == Trunc(SumIn(rows, row.inicioSemana - 6, row.inicioSemana))
  {
    hide *;
    RowOfWeek(rows, k);
    WeekBucketTotal(rows, k);
  }

  /** Bucket k of the weekly series sums the 7 days that end on its label. */
  lemma WeekBucketTotal(rows: seq<Sale>, k: nat)
    requires k < |Resample(rows, 1)|
    ensures Resample(rows, 1)[k].total == SumIn(rows, Resample(rows, 1)[k].binEnd - 6, Resample(rows, 1)[k].binEnd)
  {
    var b := Resample(rows, 1);
    assert b[k].total == SumIn(rows, b[k].binEnd - 7 * 1 + 1, b[k].binEnd);
  }

  /** Row k of the table is bucket k of the resampled series, numbered k + 1 with its total truncated. */
  lemma RowOfWeek(rows: seq<Sale>, k: nat)
    requires k < |WeeklyDemandOf(rows)|
    ensures k < |Resample(rows, 1)|
    ensures WeeklyDemandOf(rows)[k] == DemandRow(k + 1, Resample(rows, 1)[k].binEnd, Trunc(Resample(rows, 1)[k].total))
  {
    var b := Resample(rows, 1);
    var w := CastToInt(b);
    assert WeeklyDemandOf(rows) == Periodize(w);
    assert w[k] == WeekDemand(b[k].binEnd, Trunc(b[k].total));
  }

  /** `demanda_semanal` for a product: the weekly demand of its sales, empty when it was never sold. */
  function PrepareWeeklyDemand(sales: seq<Sale>, product: string): (r: seq<DemandRow>)
    ensures (r == []) <==> (forall i :: 0 <= i < |sales| ==> sales[i].product != product)
  {
    var filtered := ProductSales(sales, product);
    assert filtered == [] <==> (forall i :: 0 <= i < |sales| ==> sales[i].product != product) by {
      if filtered != [] {
        assert filtered[0] in filtered;
      }
      if exists i :: 0 <= i < |sales| && sales[i].product == product {
        var i :| 0 <= i < |sales| && sales[i].product == product;
        assert sales[i] in filtered;
      }
    }
    WeeklyDemandOf(filtered)
  }

  /** `demanda_semanal` for `PRODUCTO_A_PLANIFICAR`. */
  function PlannedDemand(sales: seq<Sale>): (r: seq<DemandRow>)
    ensures (r == []) <==> (forall i :: 0 <= i < |sales| ==> sales[i].product != PlannedProduct)
  {
    PrepareWeeklyDemand(sales, PlannedProduct)
  }

  /** Every row of the filtered table is a sale of the product from the original table. */
  lemma FilteredRow(sales: seq<Sale>, product: string, j: nat)
    requires j < |ProductSales(sales, product)|
    ensures ProductSales(sales, product)[j].product == product
    ensures exists i :: 0 <= i < |sales| && sales[i] == ProductSales(sales, product)[j]
  {
    assert ProductSales(sales, product)[j] in ProductSales(sales, product);
  }

  /** Every sale of the product is a row of the filtered table. */
  lemma FilteredHas(sales: seq<Sale>, product: string, i: nat) returns (j: nat)
    requires i < |sales| && sales[i].product == product
    ensures j < |ProductSales(sales, product)| && ProductSales(sales, product)[j] == sales[i]
  {
    assert sales[i] in ProductSales(sales, product);
    j :| 0 <= j < |ProductSales(sales, product)| && ProductSales(sales, product)[j] == sales[i];
  }

  /** `demanda_semanal` for a product is the weekly table of that product's sales. */
  lemma PrepareIsWeeklyOfFiltered(sales: seq<Sale>, product: string)
    ensures PrepareWeeklyDemand(sales, product) == WeeklyDemandOf(ProductSales(sales, product))
  {
  }

  /** The week of a sale of the table: the row labelled by the first Monday on or after its date. */
  lemma WeekOfSale(rows: seq<Sale>, j: nat) returns (k: nat)
    requires j < |rows|
    ensures k < |WeeklyDemandOf(rows)| && WeeklyDemandOf(rows)[k].inicioSemana == NextMonday(rows[j].date)
    ensures WeeklyDemandOf(rows)[k].inicioSemana - 7 < rows[j].date <= WeeklyDemandOf(rows)[k].inicioSemana
  {
    var b := Resample(rows, 1);
    ResampleBinsEachSaleOnce(rows, 1, j);
    k :| 0 <= k < |b| && b[k].binEnd - 7 < rows[j].date <= b[k].binEnd;
    WeeklyLabelIsNextMonday(rows, j, k);
    RowOfWeek(rows, k);
  }

  /** A sale of the table lies in the days of at most one row. */
  lemma WeekOfSaleUnique(rows: seq<Sale>, j: nat, k: nat, k': nat)
    requires j < |rows| && k < |WeeklyDemandOf(rows)| && k' < |WeeklyDemandOf(rows)|
    requires WeeklyDemandOf(rows)[k].inicioSemana - 7 < rows[j].date <= WeeklyDemandOf(rows)[k].inicioSemana
    requires WeeklyDemandOf(rows)[k'].inicioSemana - 7 < rows[j].date <= WeeklyDemandOf(rows)[k'].inicioSemana
    ensures k == k'
  {
    RowOfWeek(rows, k);
    RowOfWeek(rows, k');
    ResampleOrder(rows, 1, k, k', rows[j].date);
    ResampleOrder(rows, 1, k', k, rows[j].date);
  }

  /**
   * Every sale of the product is counted in exactly one row: the one
   * labelled by the first Monday on or after its date. That label ends the
   * week, so despite its name Inicio_Semana is the last day of the week and
   * never before the sale.
   */
  lemma EachSaleInOneWeek(sales: seq<Sale>, product: string, i: nat)
    requires i < |sales| && sales[i].product == product
    ensures exists k :: (0 <= k < |PrepareWeeklyDemand(sales, product)| &&
      PrepareWeeklyDemand(sales, product)[k].inicioSemana == NextMonday(sales[i].date))
    ensures forall k, k' :: (0 <= k < |PrepareWeeklyDemand(sales, product)| && 0 <= k' < |PrepareWeeklyDemand(sales, product)| &&
      PrepareWeeklyDemand(sales, product)[k].inicioSemana - 7 < sales[i].date <= PrepareWeeklyDemand(sales, product)[k].inicioSemana &&
      PrepareWeeklyDemand(sales, product)[k'].inicioSemana - 7 < sales[i].date <= PrepareWeeklyDemand(sales, product)[k'].inicioSemana) ==> k == k'
  {
    hide *;
    var filtered := ProductSales(sales, product);
    PrepareIsWeeklyOfFiltered(sales, product);
    var j := FilteredHas(sales, product, i);
    var k := WeekOfSale(filtered, j);
    forall k1, k2 | 0 <= k1 < |WeeklyDemandOf(filtered)| && 0 <= k2 < |WeeklyDemandOf(filtered)| &&
        WeeklyDemandOf(filtered)[k1].inicioSemana - 7 < filtered[j].date <= WeeklyDemandOf(filtered)[k1].inicioSemana &&
        WeeklyDemandOf(filtered)[k2].inicioSemana - 7 < filtered[j].date <= WeeklyDemandOf(filtered)[k2].inicioSemana
      ensures k1 == k2
    {
      WeekOfSaleUnique(filtered, j, k1, k2);
    }
  }

  /** The Demanda of a week of the product, from the sales of that product in it. */
  lemma ProductDemandIsWeekSum(sales: seq<Sale>, product: string, k: nat)
    requires k < |PrepareWeeklyDemand(sales, product)|
    ensures var row := PrepareWeeklyDemand(sales, product)[k];
      row.demanda == Trunc(SumIn(ProductSales(sales, product), row.inicioSemana - 6, row.inicioSemana))
  {
    hide *;
    var filtered := ProductSales(sales, product);
    PrepareIsWeeklyOfFiltered(sales, product);
    assert PrepareWeeklyDemand(sales, product)[k] == WeeklyDemandOf(filtered)[k];
    DemandIsWeekSum(filtered, k);
  }

  /** A week none of whose days holds a sale of the table has Demanda 0. */
  lemma EmptyWeekOf(rows: seq<Sale>, k: nat)
    requires k < |WeeklyDemandOf(rows)|
    requires var l := WeeklyDemandOf(rows)[k].inicioSemana;
      forall j :: 0 <= j < |rows| ==> !(l - 6 <= rows[j].date <= l)
    ensures WeeklyDemandOf(rows)[k].demanda == 0
  {
    hide *;
    var row := WeeklyDemandOf(rows)[k];
    DemandIsWeekSum(rows, k);
    SumInNone(rows, row.inicioSemana - 6, row.inicioSemana);
    TruncWhole(0);
  }

  /** Zero-fill: a week in which the product was not sold has Demanda 0. */
  lemma EmptyWeekHasZeroDemand(sales: seq<Sale>, product: string, k: nat)
    requires k < |PrepareWeeklyDemand(sales, product)|
    requires var l := PrepareWeeklyDemand(sales, product)[k].inicioSemana;
      forall i :: 0 <= i < |sales| && sales[i].product == product ==> !(l - 7 < sales[i].date <= l)
    ensures PrepareWeeklyDemand(sales, product)[k].demanda == 0
  {
    var filtered := ProductSales(sales, product);
    PrepareIsWeeklyOfFiltered(sales, product);
    FilteredMisses(sales, product, PrepareWeeklyDemand(sales, product)[k].inicioSemana);
    assert PrepareWeeklyDemand(sales, product)[k] == WeeklyDemandOf(filtered)[k];
    EmptyWeekOf(filtered, k);
  }

  /** A week in which the product was not sold holds no row of the filtered table. */
  lemma FilteredMisses(sales: seq<Sale>, product: string, l: int)
    requires forall i :: 0 <= i < |sales| && sales[i].product == product ==> !(l - 7 < sales[i].date <= l)
    ensures forall j :: 0 <= j < |ProductSales(sales, product)| ==> !(l - 6 <= ProductSales(sales, product)[j].date <= l)
  {
    forall j | 0 <= j < |ProductSales(sales, product)|
      ensures !(l - 6 <= ProductSales(sales, product)[j].date <= l)
    {
      FilteredRow(sales, product, j);
    }
  }

  /** Non-negative quantities give non-negative Demanda in every week of the table. */
  lemma NonNegativeOf(rows: seq<Sale>)
    requires forall j :: 0 <= j < |rows| ==> rows[j].quantity >= 0.0
    ensures forall k :: 0 <= k < |WeeklyDemandOf(rows)| ==> WeeklyDemandOf(rows)[k].demanda >= 0
  {
    forall k | 0 <= k < |WeeklyDemandOf(rows)|
      ensures WeeklyDemandOf(rows)[k].demanda >= 0
    {
      WeekNonNegative(rows, k);
    }
  }

  /** One week of NonNegativeOf. */
  lemma WeekNonNegative(rows: seq<Sale>, k: nat)
    requires forall j :: 0 <= j < |rows| ==> rows[j].quantity >= 0.0
    requires k < |WeeklyDemandOf(rows)|
    ensures WeeklyDemandOf(rows)[k].demanda >= 0
  {
    hide *;
    var row := WeeklyDemandOf(rows)[k];
    DemandIsWeekSum(rows, k);
    SumInNonNegative(rows, row.inicioSemana - 6, row.inicioSemana);
  }

  /** Non-negative quantities give non-negative Demanda in every week. */
  lemma DemandNonNegative(sales: seq<Sale>, product: string)
    requires forall i :: 0 <= i < |sales| ==> sales[i].quantity >= 0.0
    ensures forall k :: 0 <= k < |PrepareWeeklyDemand(sales, product)| ==> PrepareWeeklyDemand(sales, product)[k].demanda >= 0
  {
    var filtered := ProductSales(sales, product);
    PrepareIsWeeklyOfFiltered(sales, product);
    assert forall j :: 0 <= j < |filtered| ==> filtered[j].quantity >= 0.0 by {
      forall j | 0 <= j < |filtered|
        ensures filtered[j].quantity >= 0.0
      {
        FilteredRow(sales, product, j);
      }
    }
    NonNegativeOf(filtered);
  }

  /** The quantities of a table are whole numbers, as Cantidad_Vendida is. */
  predicate WholeQuantities(rows: seq<Sale>) {
    forall i :: 0 <= i < |rows| ==> rows[i].quantity == rows[i].quantity.Floor as real
  }

  /** A sum of whole quantities is whole. */
  lemma {:induction false} SumInWhole(rows: seq<Sale>, lo: Day, hi: Day)
    requires WholeQuantities(rows)
    ensures SumIn(rows, lo, hi) == SumIn(rows, lo, hi).Floor as real
  {
    if rows != [] {
      assert WholeQuantities(rows[1..]) by {
        forall i | 0 <= i < |rows[1..]|
          ensures rows[1..][i].quantity == rows[1..][i].quantity.Floor as real
        {
          assert rows[1..][i] == rows[i + 1];
        }
      }
      SumInWhole(rows[1..], lo, hi);
      assert rows[0].quantity == rows[0].quantity.Floor as real;
      var rest := SumIn(rows[1..], lo, hi);
      var head := if lo <= rows[0].date <= hi then rows[0].quantity else 0.0;
      assert SumIn(rows, lo, hi) == (head.Floor + rest.Floor) as real;
    }
  }

  /** The sum of the Demanda column. */
  function DemandTotal(r: seq<DemandRow>): int {
    if r == [] then 0 else r[0].demanda + DemandTotal(r[1..])
  }

  /** DemandTotal reads only the Demanda column. */
  lemma {:induction false} DemandTotalOfColumn(r: seq<DemandRow>, r': seq<DemandRow>)
    requires |r| == |r'| && forall k :: 0 <= k < |r| ==> r[k].demanda == r'[k].demanda
    ensures DemandTotal(r) == DemandTotal(r')
  {
    if r != [] {
      DemandTotalOfColumn(r[1..], r'[1..]);
    }
  }

  /** For whole bucket totals the cast loses nothing: Demanda adds up to the series total. */
  lemma {:induction false} DemandTotalOfSeries(b: seq<Bucket>)
    requires forall k :: 0 <= k < |b| ==> b[k].total == b[k].total.Floor as real
    ensures DemandTotal(Periodize(CastToInt(b))) as real == SeriesTotal(b)
  {
    if b != [] {
      DemandTotalOfSeries(b[1..]);
      var r, r' := Periodize(CastToInt(b)), Periodize(CastToInt(b[1..]));
      DemandTotalOfColumn(r[1..], r');
      TruncWhole(b[0].total.Floor);
    }
  }

  /**
   * Conservation: when the quantities are whole numbers, the Demanda column
   * adds up to the quantity of the product sold, because the cast comes
   * after the sum.
   */
  lemma DemandConserves(sales: seq<Sale>, product: string)
    requires WholeQuantities(sales)
    ensures DemandTotal(PrepareWeeklyDemand(sales, product)) as real == Total(ProductSales(sales, product))
  {
    var filtered := ProductSales(sales, product);
    PrepareIsWeeklyOfFiltered(sales, product);
    FilterKeepsWhole(sales, product);
    WeeksWhole(filtered);
    DemandTotalOfSeries(Resample(filtered, 1));
    ResampleConserves(filtered, 1);
  }

  /** The product filter keeps the quantities whole. */
  lemma FilterKeepsWhole(sales: seq<Sale>, product: string)
    requires WholeQuantities(sales)
    ensures WholeQuantities(ProductSales(sales, product))
  {
    var filtered := ProductSales(sales, product);
    forall j | 0 <= j < |filtered|
      ensures filtered[j].quantity == filtered[j].quantity.Floor as real
    {
      FilteredRow(sales, product, j);
    }
  }

  /** Whole quantities give whole weekly totals. */
  lemma WeeksWhole(rows: seq<Sale>)
    requires WholeQuantities(rows)
    ensures forall k :: 0 <= k < |Resample(rows, 1)| ==> Resample(rows, 1)[k].total == Resample(rows, 1)[k].total.Floor as real
  {
    var b := Resample(rows, 1);
    forall k | 0 <= k < |b|
      ensures b[k].total == b[k].total.Floor as real
    {
      SumInWhole(rows, b[k].binEnd - 7 * 1 + 1, b[k].binEnd);
    }
  }

  /** The product filter leaves a table of that product's sales unchanged. */
  lemma FilterKeepsOwnSales(sales: seq<Sale>, product: string)
    requires forall i :: 0 <= i < |sales| ==> sales[i].product == product
    ensures ProductSales(sales, product) == sales
  {
    SelectAll(sales, ProductIs(product));
    assert ProductSales(sales, product) == Select(sales, ProductIs(product));
  }

  /**
   * The cast comes after the sum: two sales of half a unit in the same week
   * give a Demanda of 1, where casting each sale first would give 0.
   */
  lemma CastAfterSum(d: Day, product: string, customer: string)
    ensures PrepareWeeklyDemand([Sale(d, product, 0.5, customer), Sale(d, product, 0.5, customer)], product)
      == [DemandRow(1, NextMonday(d), 1)]
    ensures Trunc(0.5) + Trunc(0.5) == 0
  {
    var s := Sale(d, product, 0.5, customer);
    var sales := [s, s];
    FilterKeepsOwnSales(sales, product);
    var m := NextMonday(d);
    OneWeek(sales, m);
    assert sales[1..] == [s];
    assert SumIn([s], m - 6, m) == 0.5;
    assert SumIn(sales, m - 6, m) == 1.0;
  }

  /** A product sold once gives a single row: week 1, ending on the first Monday on or after the sale. */
  lemma SingleSale(s: Sale)
    ensures PrepareWeeklyDemand([s], s.product) == [DemandRow(1, NextMonday(s.date), Trunc(s.quantity))]
  {
    FilterKeepsOwnSales([s], s.product);
    var m := NextMonday(s.date);
    OneWeek([s], m);
    assert SumIn([s], m - 6, m) == s.quantity;
  }

  /** The weekly rows of a table whose sales all fall in one Tuesday-to-Monday week. */
  lemma OneWeek(rows: seq<Sale>, m: Day)
    requires rows != [] && Weekday(m) == 0
    requires forall i :: 0 <= i < |rows| ==> m - 7 < rows[i].date <= m
    ensures WeeklyDemandOf(rows) == [DemandRow(1, m, Trunc(SumIn(rows, m - 6, m)))]
  {
    var b := Resample(rows, 1);
    var n := |b| - 1;
    var e :| 0 <= e < |rows| && rows[e].date == EarliestDate(rows);
    var l :| 0 <= l < |rows| && rows[l].date == LatestDate(rows);
    MondaysApart(m, b[0].binEnd);
    if n > 0 {
      ResampleIncrease(rows, 1, 0, n);
      assert false;
    }
    RowOfWeek(rows, 0);
  }

  /**
   * The weekly rows of a table of two sales in consecutive Tuesday-to-Monday
   * weeks, the second week ending on Monday m + 7.
   */
  lemma TwoWeeks(a: Sale, b: Sale, m: Day)
    requires Weekday(m) == 0 && m - 7 < a.date <= m && m < b.date <= m + 7
    ensures WeeklyDemandOf([a, b]) == [DemandRow(1, m, Trunc(a.quantity)), DemandRow(2, m + 7, Trunc(b.quantity))]
  {
    var rows := [a, b];
    assert rows[1..] == [b];
    assert EarliestDate(rows) == a.date && LatestDate(rows) == b.date;
    var bins := Resample(rows, 1);
    var n := |bins| - 1;
    WeekOf(m / 7 + 1, 0);
    MondaysApart(m, bins[0].binEnd);
    MondaysApart(m + 7, bins[n].binEnd);
    if n > 1 {
      ResampleIncrease(rows, 1, 0, 1);
      ResampleIncrease(rows, 1, 1, n);
      assert false;
    }
    assert n == 1;
    assert SumIn([b], m - 6, m) == 0.0;
    assert SumIn(rows, m - 6, m) == a.quantity;
    assert SumIn([b], m + 1, m + 7) == b.quantity;
    assert SumIn(rows, m + 1, m + 7) == b.quantity;
    RowOfWeek(rows, 0);
    RowOfWeek(rows, 1);
  }

  /**
   * 10 units on Tuesday 2024-01-02 (day 738886) and 5 units on Wednesday
   * 2024-01-10 (day 738894) give two weeks, labelled Monday 2024-01-08 (day
   * 738892) and Monday 2024-01-15 (day 738899).
   */
  lemma TwoWeeksOfJanuary2024(c1: string, c2: string)
    ensures PrepareWeeklyDemand([Sale(738886, PlannedProduct, 10.0, c1), Sale(738894, PlannedProduct, 5.0, c2)], PlannedProduct)
      == [DemandRow(1, 738892, 10), DemandRow(2, 738899, 5)]
  {
    var sales := [Sale(738886, PlannedProduct, 10.0, c1), Sale(738894, PlannedProduct, 5.0, c2)];
    FilterKeepsOwnSales(sales, PlannedProduct);
    WeekOf(105556, 0);
    TwoWeeks(sales[0], sales[1], 738892);
    TruncWhole(10);
    TruncWhole(5);
  }
}

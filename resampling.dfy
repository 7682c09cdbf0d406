/**
 * `resample('W-MON').sum()` and `resample('2W-Mon').sum()` on a table
 * indexed by Fecha: bins of 7 * n days, closed on the right (for n = 1,
 * Tuesday through Monday) and labelled by the Monday that ends them. The
 * first bin is the one that holds the earliest sale, bins follow one another
 * without gaps up to the one that holds the latest sale, and a bin that
 * holds no sale sums to 0.
 */
module Resampling {
  import opened Calendar
  import opened Sales

  /** One entry of the resampled series: the bin's label, which is its last day, and the quantity summed over the bin. */
  datatype Bucket = Bucket(binEnd: Day, total: real)

  /** The first Monday on or after day d. */
  function NextMonday(d: Day): (m: Day)
    ensures Weekday(m) == 0 && d <= m < d + 7
  {
    WeekOf(d / 7, 0);
    WeekOf(d / 7 + 1, 0);
    if Weekday(d) == 0 then d else MondayOf(d) + 7
  }

  /** Two Mondays less than a week apart are the same day. */
  lemma MondaysApart(m1: Day, m2: Day)
    requires Weekday(m1) == 0 && Weekday(m2) == 0
    requires m1 - 7 < m2 < m1 + 7
    ensures m1 == m2
  {
    assert m1 == 7 * (m1 / 7) && m2 == 7 * (m2 / 7);
  }

  function EarliestDate(rows: seq<Sale>): (d: Day)
    requires rows != []
    ensures forall i :: 0 <= i < |rows| ==> d <= rows[i].date
    ensures exists i :: 0 <= i < |rows| && rows[i].date == d
  {
    if |rows| == 1 then rows[0].date
    else
      var rest := EarliestDate(rows[1..]);
      assert forall i :: 1 <= i < |rows| ==> rows[i] == rows[1..][i - 1];
      if rows[0].date <= rest then rows[0].date else rest
  }

  function LatestDate(rows: seq<Sale>): (d: Day)
    requires rows != []
    ensures forall i :: 0 <= i < |rows| ==> rows[i].date <= d
    ensures exists i :: 0 <= i < |rows| && rows[i].date == d
  {
    if |rows| == 1 then rows[0].date
    else
      var rest := LatestDate(rows[1..]);
      assert forall i :: 1 <= i < |rows| ==> rows[i] == rows[1..][i - 1];
      if rows[0].date >= rest then rows[0].date else rest
  }

  /** The quantity sold on the days lo .. hi, both included. */
  function SumIn(rows: seq<Sale>, lo: Day, hi: Day): real {
    if rows == [] then 0.0
    else (if lo <= rows[0].date <= hi then rows[0].quantity else 0.0) + SumIn(rows[1..], lo, hi)
  }

  /** Splitting a range of days at mid splits the quantity sold in it. */
  lemma {:induction false} SumInSplit(rows: seq<Sale>, lo: Day, mid: Day, hi: Day)
    requires lo - 1 <= mid <= hi
    ensures SumIn(rows, lo, hi) == SumIn(rows, lo, mid) + SumIn(rows, mid + 1, hi)
  {
    if rows != [] {
      SumInSplit(rows[1..], lo, mid, hi);
    }
  }

  /** A range of days that holds every sale holds the whole quantity sold. */
  lemma {:induction false} SumInAll(rows: seq<Sale>, lo: Day, hi: Day)
    requires forall i :: 0 <= i < |rows| ==> lo <= rows[i].date <= hi
    ensures SumIn(rows, lo, hi) == Total(rows)
  {
    if rows != [] {
      SumInAll(rows[1..], lo, hi);
    }
  }

  /** A range of days without sales sums to 0. */
  lemma {:induction false} SumInNone(rows: seq<Sale>, lo: Day, hi: Day)
    requires forall i :: 0 <= i < |rows| ==> !(lo <= rows[i].date <= hi)
    ensures SumIn(rows, lo, hi) == 0.0
  {
    if rows != [] {
      SumInNone(rows[1..], lo, hi);
    }
  }

  lemma {:induction false} SumInNonNegative(rows: seq<Sale>, lo: Day, hi: Day)
    requires forall i :: 0 <= i < |rows| ==> rows[i].quantity >= 0.0
    ensures SumIn(rows, lo, hi) >= 0.0
  {
    if rows != [] {
      SumInNonNegative(rows[1..], lo, hi);
    }
  }

  /**
   * The bins from the one labelled `first` up to the first one that reaches
   * day `last`, each of 7 * weeks days ending on its label.
   */
  function Bins(rows: seq<Sale>, first: Day, weeks: nat, last: Day): (b: seq<Bucket>)
    requires weeks >= 1
    ensures b != [] ==> b[0] == Bucket(first, SumIn(rows, first - 7 * weeks + 1, first))
    decreases last - first + 7 * weeks
  {
    if first - 7 * weeks >= last then []
    else [Bucket(first, SumIn(rows, first - 7 * weeks + 1, first))] + Bins(rows, first + 7 * weeks, weeks, last)
  }

  /** There are no bins when the first one ends a bin before `last`; otherwise the first is labelled `first` and the last reaches `last`. */
  lemma {:induction false} BinsEnds(rows: seq<Sale>, first: Day, weeks: nat, last: Day)
    requires weeks >= 1
    ensures var b := Bins(rows, first, weeks, last);
      && ((|b| == 0) == (first - 7 * weeks >= last))
      && (|b| > 0 ==> b[0].binEnd == first)
      && (|b| > 0 ==> b[|b| - 1].binEnd - 7 * weeks < last <= b[|b| - 1].binEnd)
    decreases last - first + 7 * weeks
  {
    if first - 7 * weeks < last {
      var rest := Bins(rows, first + 7 * weeks, weeks, last);
      BinsEnds(rows, first + 7 * weeks, weeks, last);
      assert Bins(rows, first, weeks, last) == [Bucket(first, SumIn(rows, first - 7 * weeks + 1, first))] + rest;
    }
  }

  /** When `last` is no earlier than the first day of the bin labelled `first`, the bins run from `first` to the one that holds `last`. */
  lemma BinsReach(rows: seq<Sale>, first: Day, weeks: nat, last: Day)
    requires weeks >= 1 && first - 7 * weeks < last
    ensures Bins(rows, first, weeks, last) != [] && Bins(rows, first, weeks, last)[0].binEnd == first
    ensures Bins(rows, first, weeks, last)[|Bins(rows, first, weeks, last)| - 1].binEnd - 7 * weeks < last
    ensures last <= Bins(rows, first, weeks, last)[|Bins(rows, first, weeks, last)| - 1].binEnd
  {
    BinsEnds(rows, first, weeks, last);
  }

  /** Bin labels are Mondays from `first` on, each 7 * weeks days after the one before. */
  lemma {:induction false} BinsLabels(rows: seq<Sale>, first: Day, weeks: nat, last: Day)
    requires weeks >= 1 && Weekday(first) == 0
    ensures forall k :: 0 <= k < |Bins(rows, first, weeks, last)| ==>
      first <= Bins(rows, first, weeks, last)[k].binEnd && Weekday(Bins(rows, first, weeks, last)[k].binEnd) == 0
    ensures forall j, k :: 0 <= j < k < |Bins(rows, first, weeks, last)| && k == j + 1 ==>
      Bins(rows, first, weeks, last)[k].binEnd == Bins(rows, first, weeks, last)[j].binEnd + 7 * weeks
    decreases last - first + 7 * weeks
  {
    if first - 7 * weeks < last {
      var b := Bins(rows, first, weeks, last);
      var next := first + 7 * weeks;
      var rest := Bins(rows, next, weeks, last);
      WeekOf(first / 7 + weeks, 0);
      assert Weekday(next) == 0 by {
        assert next == 7 * (first / 7 + weeks);
      }
      BinsLabels(rows, next, weeks, last);
      assert b == [Bucket(first, SumIn(rows, first - 7 * weeks + 1, first))] + rest;
      assert forall k :: 1 <= k < |b| ==> b[k] == rest[k - 1];
      if rest != [] {
        BinsEnds(rows, next, weeks, last);
        assert b[1].binEnd == next;
      }
    }
  }

  /** Every bin sums the quantity sold in its days. */
  lemma {:induction false} BinsTotals(rows: seq<Sale>, first: Day, weeks: nat, last: Day)
    requires weeks >= 1
    ensures forall k :: 0 <= k < |Bins(rows, first, weeks, last)| ==>
      Bins(rows, first, weeks, last)[k].total == SumIn(rows, Bins(rows, first, weeks, last)[k].binEnd - 7 * weeks + 1, Bins(rows, first, weeks, last)[k].binEnd)
    decreases last - first + 7 * weeks
  {
    if first - 7 * weeks < last {
      var b := Bins(rows, first, weeks, last);
      var rest := Bins(rows, first + 7 * weeks, weeks, last);
      BinsTotals(rows, first + 7 * weeks, weeks, last);
      assert b == [Bucket(first, SumIn(rows, first - 7 * weeks + 1, first))] + rest;
      forall k | 0 <= k < |b|
        ensures b[k].total == SumIn(rows, b[k].binEnd - 7 * weeks + 1, b[k].binEnd)
      {
        if k > 0 {
          assert b[k] == rest[k - 1];
          assert rest[k - 1].total == SumIn(rows, rest[k - 1].binEnd - 7 * weeks + 1, rest[k - 1].binEnd);
        } else {
          assert b[0] == Bucket(first, SumIn(rows, first - 7 * weeks + 1, first));
        }
      }
    }
  }

  /**
   * `resample('W-MON')` for weeks = 1 and `resample('2W-Mon')` for weeks = 2,
   * summed: an empty table gives an empty series; otherwise the first label
   * is the first Monday on or after the earliest sale, the last bin is the
   * first that reaches the latest sale, and each bin sums the sales of its
   * 7 * weeks days.
   */
  function Resample(rows: seq<Sale>, weeks: nat): (b: seq<Bucket>)
    requires weeks >= 1
    ensures (b == []) == (rows == [])
    ensures forall k :: 0 <= k < |b| ==> Weekday(b[k].binEnd) == 0
    ensures forall j, k :: 0 <= j < k < |b| && k == j + 1 ==> b[k].binEnd == b[j].binEnd + 7 * weeks
    ensures forall k :: 0 <= k < |b| ==> b[k].total == SumIn(rows, b[k].binEnd - 7 * weeks + 1, b[k].binEnd)
    ensures rows != [] ==> b[0].binEnd == NextMonday(EarliestDate(rows))
    ensures rows != [] ==> b[0].binEnd - 7 * weeks < EarliestDate(rows) <= b[0].binEnd
    ensures rows != [] ==> b[|b| - 1].binEnd - 7 * weeks < LatestDate(rows) <= b[|b| - 1].binEnd
  {
    if rows == [] then []
    else
      var first, last := NextMonday(EarliestDate(rows)), LatestDate(rows);
      assert EarliestDate(rows) <= rows[0].date <= last;
      BinsReach(rows, first, weeks, last);
      BinsLabels(rows, first, weeks, last);
      BinsTotals(rows, first, weeks, last);
      Bins(rows, first, weeks, last)
  }

  /** The sum of a resampled series. */
  function SeriesTotal(b: seq<Bucket>): real {
    if b == [] then 0.0 else b[0].total + SeriesTotal(b[1..])
  }

  /** The bins together sum the quantity sold from the start of the first bin to the end of the last. */
  lemma {:induction false} BinsTotal(rows: seq<Sale>, first: Day, weeks: nat, last: Day)
    requires weeks >= 1 && first - 7 * weeks < last
    ensures Bins(rows, first, weeks, last) != []
    ensures SeriesTotal(Bins(rows, first, weeks, last)) ==
      SumIn(rows, first - 7 * weeks + 1, Bins(rows, first, weeks, last)[|Bins(rows, first, weeks, last)| - 1].binEnd)
    decreases last - first
  {
    var head := Bucket(first, SumIn(rows, first - 7 * weeks + 1, first));
    var rest := Bins(rows, first + 7 * weeks, weeks, last);
    assert Bins(rows, first, weeks, last) == [head] + rest;
    if first < last {
      BinsTotal(rows, first + 7 * weeks, weeks, last);
      BinsEnds(rows, first + 7 * weeks, weeks, last);
      SeriesCons(head, rest);
      SumInSplit(rows, first - 7 * weeks + 1, first, rest[|rest| - 1].binEnd);
    } else {
      assert rest == [];
      SeriesCons(head, rest);
    }
  }

  /** A bin put in front of a series adds its total, and keeps the series' last bin when there is one. */
  lemma SeriesCons(head: Bucket, rest: seq<Bucket>)
    ensures SeriesTotal([head] + rest) == head.total + SeriesTotal(rest)
    ensures rest != [] ==> ([head] + rest)[|rest|] == rest[|rest| - 1]
    ensures rest == [] ==> SeriesTotal([head] + rest) == head.total
  {
    assert ([head] + rest)[1..] == rest;
  }

  /** Conservation: resampling neither drops nor double-counts a sale. */
  lemma ResampleConserves(rows: seq<Sale>, weeks: nat)
    requires weeks >= 1
    ensures SeriesTotal(Resample(rows, weeks)) == Total(rows)
  {
    if rows != [] {
      var e, l := EarliestDate(rows), LatestDate(rows);
      var first := NextMonday(e);
      assert forall i :: 0 <= i < |rows| ==> first - 7 * weeks < rows[i].date <= l;
      BinsConserve(rows, first, weeks, l);
    }
  }

  /** Bins that span every sale add up to the whole quantity sold. */
  lemma BinsConserve(rows: seq<Sale>, first: Day, weeks: nat, last: Day)
    requires weeks >= 1 && rows != []
    requires forall i :: 0 <= i < |rows| ==> first - 7 * weeks < rows[i].date <= last
    ensures SeriesTotal(Bins(rows, first, weeks, last)) == Total(rows)
  {
    var b := Bins(rows, first, weeks, last);
    assert first - 7 * weeks < rows[0].date <= last;
    BinsTotal(rows, first, weeks, last);
    BinsEnds(rows, first, weeks, last);
    SumInAll(rows, first - 7 * weeks + 1, b[|b| - 1].binEnd);
  }

  lemma {:induction false} BinsCover(rows: seq<Sale>, first: Day, weeks: nat, last: Day, d: Day) returns (k: nat)
    requires weeks >= 1 && Weekday(first) == 0 && first - 7 * weeks < d <= last
    ensures k < |Bins(rows, first, weeks, last)|
    ensures Bins(rows, first, weeks, last)[k].binEnd - 7 * weeks < d <= Bins(rows, first, weeks, last)[k].binEnd
    decreases last - first
  {
    if d > first {
      WeekOf(first / 7 + weeks, 0);
      var next := first + 7 * weeks;
      var k' := BinsCover(rows, next, weeks, last, d);
      ghost var b := Bins(rows, first, weeks, last);
      ghost var rest := Bins(rows, next, weeks, last);
      assert b == [Bucket(first, SumIn(rows, first - 7 * weeks + 1, first))] + rest;
      assert b[k' + 1] == rest[k'];
      k := k' + 1;
    } else {
      k := 0;
    }
  }

  /** Labels of the resampled series increase by at least 7 * weeks days from one bin to any later one. */
  lemma {:induction false} ResampleIncrease(rows: seq<Sale>, weeks: nat, j: nat, k: nat)
    requires weeks >= 1 && j < k < |Resample(rows, weeks)|
    ensures Resample(rows, weeks)[j].binEnd + 7 * weeks <= Resample(rows, weeks)[k].binEnd
    decreases k - j
  {
    if j + 1 < k {
      ResampleIncrease(rows, weeks, j, k - 1);
    }
  }

  /** A day inside bin j and inside bin k is never in a later bin than j. */
  lemma ResampleOrder(rows: seq<Sale>, weeks: nat, j: nat, k: nat, d: Day)
    requires weeks >= 1 && j < |Resample(rows, weeks)| && k < |Resample(rows, weeks)|
    requires d <= Resample(rows, weeks)[j].binEnd && Resample(rows, weeks)[k].binEnd - 7 * weeks < d
    ensures k <= j
  {
    if j < k {
      ResampleIncrease(rows, weeks, j, k);
      assert false;
    }
  }

  /**
   * Each sale falls in exactly one bin of the resampled series: the one whose
   * label is on or after its date and less than 7 * weeks days past it.
   */
  lemma ResampleBinsEachSaleOnce(rows: seq<Sale>, weeks: nat, i: nat)
    requires weeks >= 1 && i < |rows|
    ensures exists k :: (0 <= k < |Resample(rows, weeks)| &&
      Resample(rows, weeks)[k].binEnd - 7 * weeks < rows[i].date <= Resample(rows, weeks)[k].binEnd)
    ensures forall j, k :: (0 <= j < |Resample(rows, weeks)| && 0 <= k < |Resample(rows, weeks)| &&
      Resample(rows, weeks)[j].binEnd - 7 * weeks < rows[i].date <= Resample(rows, weeks)[j].binEnd &&
      Resample(rows, weeks)[k].binEnd - 7 * weeks < rows[i].date <= Resample(rows, weeks)[k].binEnd) ==> j == k
  {
    var b := Resample(rows, weeks);
    var l := LatestDate(rows);
    var first := NextMonday(EarliestDate(rows));
    assert first - 7 * weeks < rows[i].date <= l;
    assert b == Bins(rows, first, weeks, l);
    var k := BinsCover(rows, first, weeks, l, rows[i].date);
    forall j, k | 0 <= j < |b| && 0 <= k < |b| &&
        b[j].binEnd - 7 * weeks < rows[i].date <= b[j].binEnd &&
        b[k].binEnd - 7 * weeks < rows[i].date <= b[k].binEnd
      ensures j == k
    {
      ResampleOrder(rows, weeks, j, k, rows[i].date);
      ResampleOrder(rows, weeks, k, j, rows[i].date);
    }
  }

  /** For weekly bins, a sale is counted under the first Monday on or after its date. */
  lemma WeeklyLabelIsNextMonday(rows: seq<Sale>, i: nat, k: nat)
    requires i < |rows|
    requires k < |Resample(rows, 1)|
    requires Resample(rows, 1)[k].binEnd - 7 < rows[i].date <= Resample(rows, 1)[k].binEnd
    ensures Resample(rows, 1)[k].binEnd == NextMonday(rows[i].date)
  {
    MondaysApart(Resample(rows, 1)[k].binEnd, NextMonday(rows[i].date));
  }

  /** Zero-fill: a bin with no sale in its days has total 0. */
  lemma ResampleZeroFill(rows: seq<Sale>, weeks: nat, k: nat)
    requires weeks >= 1 && k < |Resample(rows, weeks)|
    requires var l := Resample(rows, weeks)[k].binEnd;
      forall i :: 0 <= i < |rows| ==> !(l - 7 * weeks < rows[i].date <= l)
    ensures Resample(rows, weeks)[k].total == 0.0
  {
    var l := Resample(rows, weeks)[k].binEnd;
    SumInNone(rows, l - 7 * weeks + 1, l);
  }

  /** Non-negative quantities give non-negative bin totals. */
  lemma ResampleNonNegative(rows: seq<Sale>, weeks: nat)
    requires weeks >= 1
    requires forall i :: 0 <= i < |rows| ==> rows[i].quantity >= 0.0
    ensures forall k :: 0 <= k < |Resample(rows, weeks)| ==> Resample(rows, weeks)[k].total >= 0.0
  {
    var b := Resample(rows, weeks);
    forall k | 0 <= k < |b|
      ensures b[k].total >= 0.0
    {
      SumInNonNegative(rows, b[k].binEnd - 7 * weeks + 1, b[k].binEnd);
    }
  }

  /** `ventas_2semanas`: the whole table in two-week bins ending on Mondays. */
  function Biweekly(rows: seq<Sale>): (b: seq<Bucket>)
    ensures b == Resample(rows, 2)
    ensures (b == []) == (rows == [])
    ensures forall k :: 0 <= k < |b| ==> Weekday(b[k].binEnd) == 0
    ensures forall j, k :: 0 <= j < k < |b| && k == j + 1 ==> b[k].binEnd == b[j].binEnd + 7 * 2
    ensures forall k :: 0 <= k < |b| ==> b[k].total == SumIn(rows, b[k].binEnd - 7 * 2 + 1, b[k].binEnd)
    ensures rows != [] ==> b[0].binEnd == NextMonday(EarliestDate(rows))
    ensures rows != [] ==> b[|b| - 1].binEnd - 7 * 2 < LatestDate(rows) <= b[|b| - 1].binEnd
    ensures SeriesTotal(b) == Total(rows)
  {
    ResampleConserves(rows, 2);
    Resample(rows, 2)
  }

  /** `groupby('Nombre_Producto')['Cantidad_Vendida'].resample('W-Mon').sum()`: one weekly series per product. */
  function WeeklyByProduct(rows: seq<Sale>): (m: map<string, seq<Bucket>>)
    ensures m.Keys == Products(rows)
  {
    map p | p in Products(rows) :: Resample(ProductSales(rows, p), 1)
  }

  /**
   * Each product's weekly series is the weekly resample of its own sales,
   * is non-empty and adds up to that product's total.
   */
  lemma WeeklyByProductConserves(rows: seq<Sale>, p: string)
    requires p in Products(rows)
    ensures WeeklyByProduct(rows)[p] == Resample(ProductSales(rows, p), 1) != []
    ensures SeriesTotal(WeeklyByProduct(rows)[p]) == Total(ProductSales(rows, p))
  {
    var i :| 0 <= i < |rows| && rows[i].product == p;
    assert rows[i] in ProductSales(rows, p);
    ResampleConserves(ProductSales(rows, p), 1);
  }
}

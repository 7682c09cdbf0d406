/**
 * The sales table `df_ventas` as a sequence of rows, the calendar columns
 * the scripts attach to it, the boolean-mask filters and row slices they
 * take of it, and the quantity totals the aggregations build on.
 */
module Sales {
  import opened Calendar

  /** One row of the sales table: Fecha (already parsed), Nombre_Producto, Cantidad_Vendida, Cliente. */
  datatype Sale = Sale(date: Day, product: string, quantity: real, customer: string)

  /** A sales row with the columns derived from Fecha: Año, Mes, Semana_del_Año and Dia_Semana. */
  datatype CalendarRow = CalendarRow(sale: Sale, year: int, month: int, isoWeek: int, weekday: int)

  /**
   * The calendar columns of one row: the civil year and month of Fecha, its
   * ISO 8601 week number and its weekday counted from Monday = 0.
   */
  function WithCalendar(s: Sale): (r: CalendarRow)
    ensures r.sale == s
    ensures 1 <= r.month <= 12 && 1 <= r.isoWeek <= 53 && 0 <= r.weekday <= 6
  {
    CalendarRow(s, Year(s.date), Month(s.date), IsoWeek(s.date), Weekday(s.date))
  }

  /** Año and Mes, with the day of the month, form the valid civil date of Fecha. */
  lemma YearMonthColumns(s: Sale)
    ensures var r := WithCalendar(s);
      ValidDate(Date(r.year, r.month, DayOfMonth(s.date))) && DaysFromCivil(Date(r.year, r.month, DayOfMonth(s.date))) == s.date
  {
    CivilColumns(s.date);
  }

  /**
   * Semana_del_Año counts the weeks from the Monday of week 1 of the ISO
   * year of Fecha, and that ISO year's week-1 Mondays enclose Fecha.
   */
  lemma IsoWeekColumn(s: Sale)
    ensures Week1Monday(IsoYear(s.date)) <= s.date < Week1Monday(IsoYear(s.date) + 1)
    ensures WithCalendar(s).isoWeek == (s.date - Week1Monday(IsoYear(s.date))) / 7 + 1
  {
    IsoWeekDefinition(s.date);
  }

  /** Dia_Semana counts the days since the Monday that starts the week of Fecha. */
  lemma WeekdayColumn(s: Sale)
    ensures Weekday(s.date - WithCalendar(s).weekday) == 0
    ensures s.date - WithCalendar(s).weekday == MondayOf(s.date)
  {
    assert WithCalendar(s).weekday == Weekday(s.date);
    MondayByWeekday(s.date);
  }

  /** The four column assignments: every row keeps its data and its place and gains its calendar columns. */
  function AddCalendarColumns(rows: seq<Sale>): (r: seq<CalendarRow>)
    ensures |r| == |rows|
    ensures forall i :: 0 <= i < |rows| ==> r[i] == WithCalendar(rows[i])
    ensures forall i :: 0 <= i < |rows| ==> r[i].sale == rows[i] && 1 <= r[i].month <= 12
    ensures forall i :: 0 <= i < |rows| ==> 1 <= r[i].isoWeek <= 53 && 0 <= r[i].weekday <= 6
  {
    seq(|rows|, i requires 0 <= i < |rows| => WithCalendar(rows[i]))
  }

  /** The boolean masks the scripts build, and their conjunction with `&`. */
  datatype Condition =
    | ProductIs(name: string)
    | CustomerIs(client: string)
    | QuantityAbove(threshold: real)
    | Both(left: Condition, right: Condition)

  predicate Holds(c: Condition, s: Sale) {
    match c
    case ProductIs(name) => s.product == name
    case CustomerIs(client) => s.customer == client
    case QuantityAbove(threshold) => s.quantity > threshold
    case Both(left, right) => Holds(left, s) && Holds(right, s)
  }

  /** `df[mask]`: the rows for which the mask holds, in table order. */
  function Select(rows: seq<Sale>, c: Condition): (r: seq<Sale>)
    ensures |r| <= |rows|
  {
    if rows == [] then []
    else (if Holds(c, rows[0]) then [rows[0]] else []) + Select(rows[1..], c)
  }

  /** A filter keeps exactly the rows of the table that satisfy its mask. */
  lemma {:induction false} SelectMembers(rows: seq<Sale>, c: Condition)
    ensures forall s :: s in Select(rows, c) <==> s in rows && Holds(c, s)
  {
    if rows != [] {
      SelectMembers(rows[1..], c);
      assert rows == [rows[0]] + rows[1..];
    }
  }

  /** A filter keeps every matching row as often as it occurs and drops every other row. */
  lemma {:induction false} SelectCounts(rows: seq<Sale>, c: Condition, s: Sale)
    ensures multiset(Select(rows, c))[s] == if Holds(c, s) then multiset(rows)[s] else 0
  {
    if rows != [] {
      var head := if Holds(c, rows[0]) then [rows[0]] else [];
      var rest := Select(rows[1..], c);
      SelectCounts(rows[1..], c, s);
      assert Select(rows, c) == head + rest;
      CountConcat(head, rest, s);
      CountCons(rows, s);
    }
  }

  /** The occurrences of a row in a table are those in its first row and those in the rest. */
  lemma CountCons(rows: seq<Sale>, s: Sale)
    requires rows != []
    ensures multiset(rows)[s] == multiset([rows[0]])[s] + multiset(rows[1..])[s]
  {
    assert rows == [rows[0]] + rows[1..];
    CountConcat([rows[0]], rows[1..], s);
  }

  /** The occurrences of a row in two tables put together add up. */
  lemma CountConcat(a: seq<Sale>, b: seq<Sale>, s: Sale)
    ensures multiset(a + b)[s] == multiset(a)[s] + multiset(b)[s]
  {
    assert multiset(a + b) == multiset(a) + multiset(b);
  }

  /** A filter keeps table order: filtering a split table is filtering each part. */
  lemma {:induction false} SelectConcat(a: seq<Sale>, b: seq<Sale>, c: Condition)
    ensures Select(a + b, c) == Select(a, c) + Select(b, c)
  {
    if a == [] {
      assert a + b == b;
    } else {
      var head := if Holds(c, a[0]) then [a[0]] else [];
      SelectConcat(a[1..], b, c);
      assert a + b != [] && (a + b)[0] == a[0];
      assert (a + b)[1..] == a[1..] + b;
      calc {
        Select(a + b, c);
        head + Select(a[1..] + b, c);
        head + (Select(a[1..], c) + Select(b, c));
        { assert head + (Select(a[1..], c) + Select(b, c)) == (head + Select(a[1..], c)) + Select(b, c); }
        (head + Select(a[1..], c)) + Select(b, c);
        Select(a, c) + Select(b, c);
      }
    }
  }

  /** Masking with `cond1 & cond2` is the same as filtering by cond1 and then by cond2. */
  lemma {:induction false} SelectBoth(rows: seq<Sale>, c1: Condition, c2: Condition)
    ensures Select(rows, Both(c1, c2)) == Select(Select(rows, c1), c2)
  {
    if rows != [] {
      SelectBoth(rows[1..], c1, c2);
      var head := if Holds(c1, rows[0]) then [rows[0]] else [];
      SelectConcat(head, Select(rows[1..], c1), c2);
    }
  }

  /** Filtering twice by the same mask changes nothing the second time. */
  lemma {:induction false} SelectIdempotent(rows: seq<Sale>, c: Condition)
    ensures Select(Select(rows, c), c) == Select(rows, c)
  {
    if rows != [] {
      SelectIdempotent(rows[1..], c);
      var head := if Holds(c, rows[0]) then [rows[0]] else [];
      SelectConcat(head, Select(rows[1..], c), c);
    }
  }

  /** A mask that holds on every row keeps the whole table. */
  lemma {:induction false} SelectAll(rows: seq<Sale>, c: Condition)
    requires forall i :: 0 <= i < |rows| ==> Holds(c, rows[i])
    ensures Select(rows, c) == rows
  {
    if rows != [] {
      assert Holds(c, rows[0]);
      SelectAll(rows[1..], c);
      assert rows == [rows[0]] + rows[1..];
    }
  }

  /** `df_ventas[df_ventas['Nombre_Producto'] == p]`: the sales of one product. */
  function ProductSales(rows: seq<Sale>, product: string): (r: seq<Sale>)
    ensures forall s :: s in r <==> s in rows && s.product == product
  {
    SelectMembers(rows, ProductIs(product));
    Select(rows, ProductIs(product))
  }

  /** The products that occur in the table. */
  function Products(rows: seq<Sale>): set<string> {
    set i | 0 <= i < |rows| :: rows[i].product
  }

  /** `ventas_grandes`: the sales of more than 100 units. */
  function LargeSales(rows: seq<Sale>): (r: seq<Sale>)
    ensures forall s :: s in r <==> s in rows && s.quantity > 100.0
  {
    SelectMembers(rows, QuantityAbove(100.0));
    Select(rows, QuantityAbove(100.0))
  }

  /** `ventas_tornillo_grandes`: the sales of 'Tornillo Acero' of more than 80 units. */
  function LargeScrewSales(rows: seq<Sale>): (r: seq<Sale>)
    ensures forall s :: s in r <==> s in rows && s.product == "Tornillo Acero" && s.quantity > 80.0
    ensures r == Select(Select(rows, ProductIs("Tornillo Acero")), QuantityAbove(80.0))
  {
    SelectBoth(rows, ProductIs("Tornillo Acero"), QuantityAbove(80.0));
    SelectMembers(rows, Both(ProductIs("Tornillo Acero"), QuantityAbove(80.0)));
    assert forall s :: Holds(Both(ProductIs("Tornillo Acero"), QuantityAbove(80.0)), s) <==>
      Holds(ProductIs("Tornillo Acero"), s) && Holds(QuantityAbove(80.0), s);
    Select(rows, Both(ProductIs("Tornillo Acero"), QuantityAbove(80.0)))
  }

  /** The rows of the 'Industrias ACME' customer, as the `.loc` mask selects them. */
  function AcmeSales(rows: seq<Sale>): (r: seq<Sale>)
    ensures forall s :: s in r <==> s in rows && s.customer == "Industrias ACME"
  {
    SelectMembers(rows, CustomerIs("Industrias ACME"));
    Select(rows, CustomerIs("Industrias ACME"))
  }

  /** Python's normalisation of a slice bound against a sequence of length n. */
  function SliceBound(i: int, n: nat): (b: nat)
    ensures b <= n
    ensures 0 <= i <= n ==> b == i
  {
    if i < 0 then (if n + i < 0 then 0 else n + i) else if i > n then n else i
  }

  /** `.iloc[start:stop]`: rows by position, end exclusive. */
  function ILoc(rows: seq<Sale>, start: int, stop: int): (r: seq<Sale>)
    ensures |r| <= |rows|
  {
    var lo, hi := SliceBound(start, |rows|), SliceBound(stop, |rows|);
    if lo < hi then rows[lo..hi] else []
  }

  /** The rows whose default (RangeIndex) label, counted from offset, lies in first..last. */
  function LocFrom(rows: seq<Sale>, offset: int, first: int, last: int): (r: seq<Sale>)
    ensures |r| <= |rows|
  {
    if rows == [] then []
    else (if first <= offset <= last then [rows[0]] else []) + LocFrom(rows[1..], offset + 1, first, last)
  }

  /** `.loc[first:last]` on the default RangeIndex: rows by label, end inclusive. */
  function Loc(rows: seq<Sale>, first: int, last: int): (r: seq<Sale>)
    ensures |r| <= |rows|
  {
    LocFrom(rows, 0, first, last)
  }

  /**
   * A label bound on the default RangeIndex, clamped to 0..n. Unlike
   * SliceBound, a negative label lies before the first row rather than
   * counting from the end; the two agree on non-negative bounds.
   */
  function Clamp(x: int, n: nat): (c: nat)
    ensures c <= n
    ensures 0 <= x ==> c == SliceBound(x, n)
  {
    if x < 0 then 0 else if x > n then n else x
  }

  /** Label selection from `offset` is the contiguous slice of the labels first..last, end included. */
  lemma {:induction false} LocFromIsSlice(rows: seq<Sale>, offset: int, first: int, last: int)
    requires first <= last + 1
    ensures Clamp(first - offset, |rows|) <= Clamp(last + 1 - offset, |rows|)
    ensures LocFrom(rows, offset, first, last) == rows[Clamp(first - offset, |rows|)..Clamp(last + 1 - offset, |rows|)]
  {
    if rows != [] {
      LocFromIsSlice(rows[1..], offset + 1, first, last);
      LocFromStep(rows, offset, first, last);
    }
  }

  /** One step of LocFromIsSlice: from the slice of the tail to the slice of the table. */
  lemma LocFromStep(rows: seq<Sale>, offset: int, first: int, last: int)
    requires rows != [] && first <= last + 1
    requires var lo, hi := Clamp(first - offset - 1, |rows| - 1), Clamp(last - offset, |rows| - 1);
      lo <= hi && LocFrom(rows[1..], offset + 1, first, last) == rows[1..][lo..hi]
    ensures Clamp(first - offset, |rows|) <= Clamp(last + 1 - offset, |rows|)
    ensures LocFrom(rows, offset, first, last) == rows[Clamp(first - offset, |rows|)..Clamp(last + 1 - offset, |rows|)]
  {
    var lo, hi := Clamp(first - offset - 1, |rows| - 1), Clamp(last - offset, |rows| - 1);
    if first <= offset <= last {
      assert lo == 0 && Clamp(first - offset, |rows|) == 0 && Clamp(last + 1 - offset, |rows|) == hi + 1;
      SliceOfTail(rows, 0, hi);
    } else if offset < first {
      assert Clamp(first - offset, |rows|) == lo + 1 && Clamp(last + 1 - offset, |rows|) == hi + 1;
      SliceOfTail(rows, lo, hi);
    } else {
      assert hi == 0 && lo == 0 && Clamp(last + 1 - offset, |rows|) == 0;
    }
  }

  /** Slicing the tail of a sequence is slicing the sequence one place further on. */
  lemma SliceOfTail(rows: seq<Sale>, i: nat, j: nat)
    requires i <= j < |rows|
    ensures rows[i + 1..j + 1] == rows[1..][i..j]
    ensures i == 0 ==> rows[0..j + 1] == [rows[0]] + rows[1..][0..j]
  {
    assert |rows[i + 1..j + 1]| == |rows[1..][i..j]|;
    forall t | 0 <= t < j - i
      ensures rows[i + 1..j + 1][t] == rows[1..][i..j][t]
    {
    }
    if i == 0 {
      assert |rows[0..j + 1]| == |[rows[0]] + rows[1..][0..j]|;
      forall t | 0 <= t < j + 1
        ensures rows[0..j + 1][t] == ([rows[0]] + rows[1..][0..j])[t]
      {
      }
    }
  }

  /**
   * On the default index, label slicing with an inclusive end and position
   * slicing with an exclusive end one further select the same rows.
   */
  lemma LocMatchesILoc(rows: seq<Sale>, first: int, last: int)
    requires 0 <= first && -1 <= last
    ensures Loc(rows, first, last) == ILoc(rows, first, last + 1)
  {
    if first <= last + 1 {
      LocFromIsSlice(rows, 0, first, last);
    } else {
      LocEmpty(rows, 0, first, last);
    }
  }

  lemma {:induction false} LocEmpty(rows: seq<Sale>, offset: int, first: int, last: int)
    requires first > last
    ensures LocFrom(rows, offset, first, last) == []
  {
    if rows != [] {
      LocEmpty(rows[1..], offset + 1, first, last);
    }
  }

  /** `df_ventas.loc[0:2]` and `df_ventas.iloc[0:3]` both show the first three rows (fewer if the table is shorter). */
  lemma FirstThreeRows(rows: seq<Sale>)
    ensures Loc(rows, 0, 2) == ILoc(rows, 0, 3)
    ensures ILoc(rows, 0, 3) == rows[..if |rows| < 3 then |rows| else 3]
  {
    LocMatchesILoc(rows, 0, 2);
  }

  /** The sum of Cantidad_Vendida over a table. */
  function Total(rows: seq<Sale>): real {
    if rows == [] then 0.0 else rows[0].quantity + Total(rows[1..])
  }

  lemma {:induction false} TotalConcat(a: seq<Sale>, b: seq<Sale>)
    ensures Total(a + b) == Total(a) + Total(b)
  {
    if a == [] {
      assert a + b == b;
    } else {
      TotalConcat(a[1..], b);
      assert (a + b)[1..] == a[1..] + b;
    }
  }

  /** A table of non-negative quantities has a non-negative total. */
  lemma {:induction false} TotalNonNegative(rows: seq<Sale>)
    requires forall s :: s in rows ==> s.quantity >= 0.0
    ensures Total(rows) >= 0.0
  {
    if rows != [] {
      TotalNonNegative(rows[1..]);
    }
  }
}

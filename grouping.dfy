/**
 * `groupby(...)['Cantidad_Vendida'].sum()`: the monthly and weekly totals
 * per product, and the ranking of products by total quantity sold
 * (`sort_values(ascending=False)`) with its first two entries.
 */
module Grouping {
  import opened Calendar
  import opened Sales

  datatype Option<T> = None | Some(value: T)

  /** The key columns of a group-by. */
  datatype KeyColumns =
    | MonthKey    // ['Año', 'Mes', 'Nombre_Producto']
    | WeekKey     // ['Año', 'Semana_del_Año', 'Nombre_Producto']: calendar year with ISO week
    | IsoWeekKey  // ISO week-numbering year with ISO week, and the product

  /** A group key: a year, a month or week number within it, and a product. */
  datatype Key = Key(year: int, period: int, product: string)

  /**
   * The key under which the group-by files a sale: the Año, Mes and
   * Semana_del_Año columns that Sales.WithCalendar adds (as
   * KeysFromCalendarColumns states), and the product.
   */
  function KeyOf(g: KeyColumns, s: Sale): (k: Key)
    ensures k.product == s.product
  {
    match g
    case MonthKey => Key(Year(s.date), Month(s.date), s.product)
    case WeekKey => Key(Year(s.date), IsoWeek(s.date), s.product)
    case IsoWeekKey => Key(IsoYear(s.date), IsoWeek(s.date), s.product)
  }

  /** A month key holds a month 1 .. 12, a week key a week 1 .. 53. */
  lemma KeyPeriod(g: KeyColumns, s: Sale)
    ensures g == MonthKey ==> 1 <= KeyOf(g, s).period <= 12
    ensures g != MonthKey ==> 1 <= KeyOf(g, s).period <= 53
  {
  }

  /**
   * The keys are read from the calendar columns of the table: row i of
   * Sales.AddCalendarColumns carries the year, month and week under which
   * the monthly and the weekly group-by file row i.
   */
  lemma KeysFromCalendarColumns(rows: seq<Sale>, i: int)
    requires 0 <= i < |rows|
    ensures var c := AddCalendarColumns(rows)[i];
      KeyOf(MonthKey, rows[i]) == Key(c.year, c.month, c.sale.product) &&
      KeyOf(WeekKey, rows[i]) == Key(c.year, c.isoWeek, c.sale.product)
  {
  }

  /** A row reduced to what the group-by reads: its key and its quantity. */
  datatype Entry = Entry(key: Key, quantity: real)

  /** Every row tagged with its key, in table order. */
  function Tag(rows: seq<Sale>, g: KeyColumns): (e: seq<Entry>)
    ensures |e| == |rows|
    ensures forall i :: 0 <= i < |rows| ==> e[i] == Entry(KeyOf(g, rows[i]), rows[i].quantity)
  {
    if rows == [] then [] else [Entry(KeyOf(g, rows[0]), rows[0].quantity)] + Tag(rows[1..], g)
  }

  function EntriesTotal(e: seq<Entry>): real {
    if e == [] then 0.0 else e[0].quantity + EntriesTotal(e[1..])
  }

  lemma {:induction false} TagTotal(rows: seq<Sale>, g: KeyColumns)
    ensures EntriesTotal(Tag(rows, g)) == Total(rows)
  {
    if rows != [] {
      TagTotal(rows[1..], g);
      assert Tag(rows, g)[1..] == Tag(rows[1..], g);
    }
  }

  /** The distinct keys that occur among the entries. */
  function KeysOf(e: seq<Entry>): set<Key> {
    set i | 0 <= i < |e| :: e[i].key
  }

  lemma KeysOfTail(e: seq<Entry>)
    requires e != []
    ensures KeysOf(e) == {e[0].key} + KeysOf(e[1..])
  {
    forall k | k in KeysOf(e)
      ensures k in {e[0].key} + KeysOf(e[1..])
    {
      var i :| 0 <= i < |e| && e[i].key == k;
      if i > 0 {
        assert e[1..][i - 1] == e[i];
      }
    }
    forall k | k in KeysOf(e[1..])
      ensures k in KeysOf(e)
    {
      var i :| 0 <= i < |e[1..]| && e[1..][i].key == k;
      assert e[i + 1] == e[1..][i];
    }
  }

  /** The quantity of the entries with key k. */
  function SumWithKey(e: seq<Entry>, k: Key): real {
    if e == [] then 0.0
    else (if e[0].key == k then e[0].quantity else 0.0) + SumWithKey(e[1..], k)
  }

  lemma {:induction false} SumWithAbsentKey(e: seq<Entry>, k: Key)
    requires k !in KeysOf(e)
    ensures SumWithKey(e, k) == 0.0
  {
    if e != [] {
      KeysOfTail(e);
      SumWithAbsentKey(e[1..], k);
    }
  }

  /**
   * The sum per key: one entry per distinct key, holding the quantity of
   * exactly the entries with that key.
   */
  function Group(e: seq<Entry>): (m: map<Key, real>)
    ensures m.Keys == KeysOf(e)
    ensures forall k :: k in m ==> m[k] == SumWithKey(e, k)
  {
    if e == [] then map[]
    else
      var m := Group(e[1..]);
      var k := e[0].key;
      KeysOfTail(e);
      if k in m then m[k := e[0].quantity + m[k]]
      else SumWithAbsentKey(e[1..], k); m[k := e[0].quantity]
  }

  /** The distinct keys of a table. */
  function Keys(rows: seq<Sale>, g: KeyColumns): set<Key> {
    KeysOf(Tag(rows, g))
  }

  /** The quantity of the sales of a table filed under key k. */
  function SumWithKeyOf(rows: seq<Sale>, g: KeyColumns, k: Key): real {
    SumWithKey(Tag(rows, g), k)
  }

  /**
   * `groupby(key columns)['Cantidad_Vendida'].sum()`: one entry per key that
   * occurs, and only those, holding the quantity of exactly the sales filed
   * under it.
   */
  function GroupTotals(rows: seq<Sale>, g: KeyColumns): (m: map<Key, real>)
    ensures forall k :: k in m <==> exists i :: 0 <= i < |rows| && KeyOf(g, rows[i]) == k
    ensures forall k :: k in m ==> m[k] == SumWithKeyOf(rows, g, k)
  {
    TagKeys(rows, g);
    Group(Tag(rows, g))
  }

  /** The keys of the tagged rows are the keys of the rows. */
  lemma TagKeys(rows: seq<Sale>, g: KeyColumns)
    ensures forall k :: k in KeysOf(Tag(rows, g)) <==> exists i :: 0 <= i < |rows| && KeyOf(g, rows[i]) == k
  {
    forall k | k in KeysOf(Tag(rows, g))
      ensures exists i :: 0 <= i < |rows| && KeyOf(g, rows[i]) == k
    {
      TagKeyOccurs(rows, g, k);
    }
    forall k | exists i :: 0 <= i < |rows| && KeyOf(g, rows[i]) == k
      ensures k in KeysOf(Tag(rows, g))
    {
      var i :| 0 <= i < |rows| && KeyOf(g, rows[i]) == k;
      RowKeyTagged(rows, g, i);
    }
  }

  lemma TagKeyOccurs(rows: seq<Sale>, g: KeyColumns, k: Key)
    requires k in KeysOf(Tag(rows, g))
    ensures exists i :: 0 <= i < |rows| && KeyOf(g, rows[i]) == k
  {
    var e := Tag(rows, g);
    var i :| 0 <= i < |e| && e[i].key == k;
    assert KeyOf(g, rows[i]) == k;
  }

  lemma RowKeyTagged(rows: seq<Sale>, g: KeyColumns, i: nat)
    requires i < |rows|
    ensures KeyOf(g, rows[i]) in KeysOf(Tag(rows, g))
  {
    assert Tag(rows, g)[i].key == KeyOf(g, rows[i]);
  }

  /** The sum of the entries of m under the keys ks. */
  ghost function SumOver(m: map<Key, real>, ks: set<Key>): real
    requires ks <= m.Keys
    decreases ks
  {
    if ks == {} then 0.0
    else
      var k :| k in ks;
      m[k] + SumOver(m, ks - {k})
  }

  /** The quantity of the entries whose key lies in ks. */
  function SumWithKeyIn(e: seq<Entry>, ks: set<Key>): real {
    if e == [] then 0.0
    else (if e[0].key in ks then e[0].quantity else 0.0) + SumWithKeyIn(e[1..], ks)
  }

  lemma {:induction false} SumWithKeyInSplit(e: seq<Entry>, ks: set<Key>, k: Key)
    requires k in ks
    ensures SumWithKeyIn(e, ks) == SumWithKey(e, k) + SumWithKeyIn(e, ks - {k})
  {
    if e != [] {
      SumWithKeyInSplit(e[1..], ks, k);
    }
  }

  lemma {:induction false} SumWithKeyInAll(e: seq<Entry>, ks: set<Key>)
    requires KeysOf(e) <= ks
    ensures SumWithKeyIn(e, ks) == EntriesTotal(e)
  {
    if e != [] {
      KeysOfTail(e);
      SumWithKeyInAll(e[1..], ks);
    }
  }

  lemma {:induction false} SumWithKeyInNone(e: seq<Entry>)
    ensures SumWithKeyIn(e, {}) == 0.0
  {
    if e != [] {
      SumWithKeyInNone(e[1..]);
    }
  }

  lemma {:induction false} SumOverGroups(e: seq<Entry>, ks: set<Key>)
    requires ks <= KeysOf(e)
    ensures SumOver(Group(e), ks) == SumWithKeyIn(e, ks)
    decreases ks
  {
    if ks == {} {
      SumWithKeyInNone(e);
    } else {
      var m := Group(e);
      var k :| k in ks && SumOver(m, ks) == m[k] + SumOver(m, ks - {k});
      SumOverGroups(e, ks - {k});
      SumWithKeyInSplit(e, ks, k);
    }
  }

  /** Conservation: the group totals add up to the grand total of Cantidad_Vendida. */
  lemma GroupTotalsConserve(rows: seq<Sale>, g: KeyColumns)
    ensures SumOver(GroupTotals(rows, g), Keys(rows, g)) == Total(rows)
  {
    var e := Tag(rows, g);
    SumOverGroups(e, KeysOf(e));
    SumWithKeyInAll(e, KeysOf(e));
    TagTotal(rows, g);
  }

  /** `ventas_mes_producto`: totals per (Año, Mes, Nombre_Producto). */
  function MonthlyTotals(rows: seq<Sale>): (m: map<Key, real>)
    ensures forall k :: k in m ==> 1 <= k.period <= 12
    ensures forall i :: 0 <= i < |rows| ==> KeyOf(MonthKey, rows[i]) in m
  {
    GroupTotals(rows, MonthKey)
  }

  /** `ventas_semana_producto`: totals per (Año, Semana_del_Año, Nombre_Producto). */
  function WeeklyTotals(rows: seq<Sale>): (m: map<Key, real>)
    ensures forall k :: k in m ==> 1 <= k.period <= 53
    ensures forall i :: 0 <= i < |rows| ==> KeyOf(WeekKey, rows[i]) in m
  {
    GroupTotals(rows, WeekKey)
  }

  /**
   * As written, the weekly key pairs the calendar year with the ISO week. A
   * sale late in December that already belongs to week 1 of the next ISO
   * year keeps its calendar year, so it shares its key with a sale of week 1
   * of its own year, at least 358 days earlier; the ISO-year key keeps the
   * two apart.
   */
  lemma WeekKeyMixesYears(a: Sale, b: Sale)
    requires a.product == b.product
    requires IsoYear(a.date) == Year(a.date) && IsoWeek(a.date) == 1
    requires Year(b.date) == Year(a.date) && IsoYear(b.date) == Year(a.date) + 1
    ensures KeyOf(WeekKey, a) == KeyOf(WeekKey, b)
    ensures b.date - a.date >= 358
    ensures KeyOf(IsoWeekKey, a) != KeyOf(IsoWeekKey, b)
  {
    IsoYearAhead(b.date);
    IsoWeekOneOfNextYear(a.date, b.date);
  }

  /**
   * The inputs of WeekKeyMixesYears occur: 2024-01-01 (day 738885) opens ISO
   * week 1 of 2024, and 2024-12-30 (day 739249) is in calendar year 2024 but
   * in ISO week 1 of 2025.
   */
  lemma WeekKeyMixesYearsIn2024()
    ensures IsoYear(738885) == Year(738885) == 2024 && IsoWeek(738885) == 1
    ensures Year(739249) == 2024 && IsoYear(739249) == 2025
  {
    Jan1Of2024();
    Week1Of2024();
    Dec30Of2024();
    Week1Of2025();
  }

  /** 2024-01-01 is day 738885, in calendar year 2024. */
  lemma Jan1Of2024()
    ensures DaysFromCivil(Date(2024, 1, 1)) == 738885 && Year(738885) == 2024
  {
    Jan1Day();
    CivilRoundTrip(Date(2024, 1, 1));
  }

  lemma Jan1Day()
    ensures DaysFromCivil(Date(2024, 1, 1)) == 738885
  {
    assert DaysBeforeYear(2024) == 738885;
  }

  /** 2024-12-30 is day 739249, in calendar year 2024. */
  lemma Dec30Of2024()
    ensures DaysFromCivil(Date(2024, 12, 30)) == 739249 && Year(739249) == 2024
  {
    assert DaysBeforeYear(2024) == 738885;
    assert DaysBeforeMonth(2024, 12) == 335;
    CivilRoundTrip(Date(2024, 12, 30));
  }

  /** 2024-01-01 opens ISO week 1 of 2024. */
  lemma Week1Of2024()
    ensures IsoYear(738885) == 2024 && IsoWeek(738885) == 1
  {
    Week1Mondays();
    IsoWeekUnique(738885, 2024);
  }

  /** 2024-12-30 opens ISO week 1 of 2025. */
  lemma Week1Of2025()
    ensures IsoYear(739249) == 2025 && IsoWeek(739249) == 1
  {
    Week1Mondays();
    IsoWeekUnique(739249, 2025);
  }

  /** Week 1 of ISO years 2024, 2025 and 2026 starts on days 738885, 739249 and 739613. */
  lemma Week1Mondays()
    ensures Week1Monday(2024) == 738885 && Week1Monday(2025) == 739249 && Week1Monday(2026) == 739613
  {
    assert DaysBeforeYear(2024) == 738885;
    assert DaysBeforeYear(2025) == 739251;
    assert DaysBeforeYear(2026) == 739616;
    WeekOf(105555, 3);
    WeekOf(105607, 5);
    WeekOf(105659, 6);
  }

  /**
   * With the ISO year in place of the calendar year, two sales share a
   * weekly key exactly when they are of the same product and fall in the
   * same Monday-to-Sunday week.
   */
  lemma IsoWeekKeySameWeek(a: Sale, b: Sale)
    ensures KeyOf(IsoWeekKey, a) == KeyOf(IsoWeekKey, b) <==>
      a.product == b.product && MondayOf(a.date) == MondayOf(b.date)
  {
    IsoWeekSameWeek(a.date, b.date);
  }

  /** `ventas_semana_producto` keyed by ISO year: totals per ISO week and product. */
  function IsoWeeklyTotals(rows: seq<Sale>): (m: map<Key, real>)
    ensures forall k :: k in m ==> 1 <= k.period <= 53
    ensures forall i :: 0 <= i < |rows| ==> KeyOf(IsoWeekKey, rows[i]) in m
  {
    GroupTotals(rows, IsoWeekKey)
  }

  /** One entry of `ventas_por_producto`: a product and the quantity sold of it. */
  datatype ProductTotal = ProductTotal(product: string, total: real)

  /** The products of the table, each once. */
  function DistinctProducts(rows: seq<Sale>): (ps: seq<string>)
    ensures forall i, j :: 0 <= i < j < |ps| ==> ps[i] != ps[j]
    ensures forall p :: p in ps <==> p in Products(rows)
  {
    if rows == [] then []
    else
      var rest := DistinctProducts(rows[1..]);
      ProductsOfTail(rows);
      if rows[0].product in rest then rest else [rows[0].product] + rest
  }

  lemma ProductsOfTail(rows: seq<Sale>)
    requires rows != []
    ensures Products(rows) == {rows[0].product} + Products(rows[1..])
  {
    forall p | p in Products(rows)
      ensures p in {rows[0].product} + Products(rows[1..])
    {
      var i :| 0 <= i < |rows| && rows[i].product == p;
      if i > 0 {
        assert rows[1..][i - 1] == rows[i];
      }
    }
    forall p | p in Products(rows[1..])
      ensures p in Products(rows)
    {
      var i :| 0 <= i < |rows[1..]| && rows[1..][i].product == p;
      assert rows[i + 1] == rows[1..][i];
    }
  }

  /** `groupby('Nombre_Producto')['Cantidad_Vendida'].sum()`. */
  function ProductTotals(rows: seq<Sale>): (t: seq<ProductTotal>)
    ensures forall i, j :: 0 <= i < j < |t| ==> t[i] != t[j]
    ensures forall x :: x in t <==> x.product in Products(rows) && x.total == Total(ProductSales(rows, x.product))
  {
    var ps := DistinctProducts(rows);
    var t := seq(|ps|, i requires 0 <= i < |ps| => ProductTotal(ps[i], Total(ProductSales(rows, ps[i]))));
    forall x: ProductTotal | x.product in Products(rows) && x.total == Total(ProductSales(rows, x.product))
      ensures x in t
    {
      var i :| 0 <= i < |ps| && ps[i] == x.product;
      assert t[i] == x;
    }
    t
  }

  predicate NonIncreasing(t: seq<ProductTotal>) {
    forall i, j :: 0 <= i < j < |t| ==> t[i].total >= t[j].total
  }

  function InsertByTotal(x: ProductTotal, t: seq<ProductTotal>): (r: seq<ProductTotal>)
    requires NonIncreasing(t)
    ensures NonIncreasing(r)
    ensures multiset(r) == multiset(t) + multiset{x}
  {
    if t == [] || x.total >= t[0].total then
      InsertFirst(x, t);
      [x] + t
    else
      NonIncreasingTail(t);
      var rest := InsertByTotal(x, t[1..]);
      InsertBehind(x, t, rest);
      [t[0]] + rest
  }

  lemma NonIncreasingTail(t: seq<ProductTotal>)
    requires t != [] && NonIncreasing(t)
    ensures NonIncreasing(t[1..])
  {
    forall i, j | 0 <= i < j < |t[1..]|
      ensures t[1..][i].total >= t[1..][j].total
    {
      assert t[1..][i] == t[i + 1] && t[1..][j] == t[j + 1];
    }
  }

  /** An entry at least as large as the first stays in front. */
  lemma InsertFirst(x: ProductTotal, t: seq<ProductTotal>)
    requires NonIncreasing(t) && (t == [] || x.total >= t[0].total)
    ensures NonIncreasing([x] + t)
  {
    forall i, j | 0 <= i < j < |[x] + t|
      ensures ([x] + t)[i].total >= ([x] + t)[j].total
    {
      if i > 0 {
        assert ([x] + t)[i] == t[i - 1];
      }
      assert ([x] + t)[j] == t[j - 1];
    }
  }

  /** A smaller entry goes behind the first, into the tail. */
  lemma InsertBehind(x: ProductTotal, t: seq<ProductTotal>, rest: seq<ProductTotal>)
    requires t != [] && x.total < t[0].total && NonIncreasing(t)
    requires NonIncreasing(rest) && multiset(rest) == multiset(t[1..]) + multiset{x}
    ensures NonIncreasing([t[0]] + rest)
    ensures multiset([t[0]] + rest) == multiset(t) + multiset{x}
  {
    assert t == [t[0]] + t[1..];
    forall j | 0 <= j < |rest|
      ensures t[0].total >= rest[j].total
    {
      assert rest[j] in multiset(rest);
      if rest[j] != x {
        assert rest[j] in t[1..];
      }
    }
    forall i, j | 0 <= i < j < |[t[0]] + rest|
      ensures ([t[0]] + rest)[i].total >= ([t[0]] + rest)[j].total
    {
      assert ([t[0]] + rest)[j] == rest[j - 1];
      if i > 0 {
        assert ([t[0]] + rest)[i] == rest[i - 1];
      }
    }
  }

  /** `sort_values(ascending=False)`: the same entries, largest total first. */
  function SortByTotalDescending(t: seq<ProductTotal>): (r: seq<ProductTotal>)
    ensures NonIncreasing(r)
    ensures multiset(r) == multiset(t)
  {
    if t == [] then []
    else
      assert t == [t[0]] + t[1..];
      InsertByTotal(t[0], SortByTotalDescending(t[1..]))
  }

  /** `ventas_por_producto`. */
  function Ranking(rows: seq<Sale>): (r: seq<ProductTotal>)
    ensures NonIncreasing(r)
    ensures multiset(r) == multiset(ProductTotals(rows))
  {
    SortByTotalDescending(ProductTotals(rows))
  }

  lemma CountTwo(s: seq<ProductTotal>, i: nat, j: nat)
    requires i < j < |s| && s[i] == s[j]
    ensures multiset(s)[s[i]] >= 2
  {
    assert s == s[..i] + [s[i]] + s[i + 1..j] + [s[j]] + s[j + 1..];
  }

  lemma {:induction false} CountAtMostOne(s: seq<ProductTotal>, x: ProductTotal)
    requires forall i, j :: 0 <= i < j < |s| ==> s[i] != s[j]
    ensures multiset(s)[x] <= 1
  {
    if s != [] {
      CountAtMostOne(s[1..], x);
      assert s == [s[0]] + s[1..];
      if s[0] == x {
        assert x !in s[1..];
      }
    }
  }

  /**
   * The ranking lists every product of the table exactly once, with its
   * total, largest total first.
   */
  lemma RankingEntries(rows: seq<Sale>)
    ensures NonIncreasing(Ranking(rows))
    ensures forall x :: x in Ranking(rows) <==> x.product in Products(rows) && x.total == Total(ProductSales(rows, x.product))
    ensures forall i, j :: 0 <= i < j < |Ranking(rows)| ==> Ranking(rows)[i].product != Ranking(rows)[j].product
  {
    var t, r := ProductTotals(rows), Ranking(rows);
    assert forall x :: x in r <==> x in multiset(r);
    assert forall x :: x in t <==> x in multiset(t);
    forall i, j | 0 <= i < j < |r|
      ensures r[i].product != r[j].product
    {
      if r[i].product == r[j].product {
        assert r[i] in r && r[j] in r;
        assert r[i] == r[j];
        CountTwo(r, i, j);
        CountAtMostOne(t, r[i]);
        assert false;
      }
    }
  }

  /** `ventas_por_producto.index[0]`; None where the index is empty (an IndexError). */
  function TopProduct(rows: seq<Sale>): (t: Option<string>)
    ensures t.Some? ==> t.value in Products(rows)
  {
    var r := Ranking(rows);
    if |r| >= 1 then RankEntry(rows, 0); Some(r[0].product) else None
  }

  /** `ventas_por_producto.index[1]`; None where it has fewer than two entries (an IndexError). */
  function RunnerUp(rows: seq<Sale>): (t: Option<string>)
    ensures t.Some? ==> t.value in Products(rows) && t != TopProduct(rows)
  {
    var r := Ranking(rows);
    if |r| >= 2 then RankEntry(rows, 1); RankOrder(rows, 0, 1); Some(r[1].product) else None
  }

  /** Every product of the table has its place in the ranking. */
  lemma RankOf(rows: seq<Sale>, q: string) returns (i: nat)
    requires q in Products(rows)
    ensures i < |Ranking(rows)| && Ranking(rows)[i] == ProductTotal(q, Total(ProductSales(rows, q)))
  {
    RankingEntries(rows);
    var y := ProductTotal(q, Total(ProductSales(rows, q)));
    assert y in Ranking(rows);
    i :| 0 <= i < |Ranking(rows)| && Ranking(rows)[i] == y;
  }

  /** Every place of the ranking holds a product of the table with its total. */
  lemma RankEntry(rows: seq<Sale>, i: nat)
    requires i < |Ranking(rows)|
    ensures Ranking(rows)[i].product in Products(rows)
    ensures Ranking(rows)[i].total == Total(ProductSales(rows, Ranking(rows)[i].product))
  {
    RankingEntries(rows);
    assert Ranking(rows)[i] in Ranking(rows);
  }

  /** Different places of the ranking hold different products, larger totals first. */
  lemma RankOrder(rows: seq<Sale>, i: nat, j: nat)
    requires i < j < |Ranking(rows)|
    ensures Ranking(rows)[i].product != Ranking(rows)[j].product
    ensures Ranking(rows)[i].total >= Ranking(rows)[j].total
  {
    RankingEntries(rows);
  }

  /** `producto_principal` exists for every non-empty table and sold at least as much as any product. */
  lemma TopProductIsBest(rows: seq<Sale>)
    ensures TopProduct(rows).Some? <==> rows != []
    ensures TopProduct(rows).Some? ==> TopProduct(rows).value in Products(rows)
    ensures TopProduct(rows).Some? ==> forall q :: q in Products(rows) ==>
      Total(ProductSales(rows, q)) <= Total(ProductSales(rows, TopProduct(rows).value))
  {
    var r := Ranking(rows);
    if rows != [] {
      assert rows[0].product in Products(rows);
      var _ := RankOf(rows, rows[0].product);
      RankEntry(rows, 0);
      forall q | q in Products(rows)
        ensures Total(ProductSales(rows, q)) <= r[0].total
      {
        var i := RankOf(rows, q);
        if i > 0 {
          RankOrder(rows, 0, i);
        }
      }
    } else if r != [] {
      RankEntry(rows, 0);
    }
  }

  /** `producto_secundario` exists exactly when two different products were sold. */
  lemma RunnerUpExists(rows: seq<Sale>)
    ensures RunnerUp(rows).Some? <==> exists p, q :: p in Products(rows) && q in Products(rows) && p != q
  {
    var n := |Ranking(rows)|;
    assert RunnerUp(rows).Some? <==> n >= 2;
    if n >= 2 {
      RankOrder(rows, 0, 1);
      RankEntry(rows, 0);
      RankEntry(rows, 1);
      var p, q := Ranking(rows)[0].product, Ranking(rows)[1].product;
      assert p in Products(rows) && q in Products(rows) && p != q;
    }
  }

  /**
   * `producto_secundario` differs from `producto_principal` and sold at
   * least as much as any other product.
   */
  lemma RunnerUpIsSecond(rows: seq<Sale>)
    ensures RunnerUp(rows).Some? ==> RunnerUp(rows).value in Products(rows) && RunnerUp(rows) != TopProduct(rows)
    ensures RunnerUp(rows).Some? ==> forall q :: q in Products(rows) && Some(q) != TopProduct(rows) ==>
      Total(ProductSales(rows, q)) <= Total(ProductSales(rows, RunnerUp(rows).value))
  {
    var r := Ranking(rows);
    if |r| >= 2 {
      RankOrder(rows, 0, 1);
      RankEntry(rows, 1);
      forall q | q in Products(rows) && Some(q) != TopProduct(rows)
        ensures Total(ProductSales(rows, q)) <= r[1].total
      {
        var i := RankOf(rows, q);
        if i > 1 {
          RankOrder(rows, 1, i);
        }
      }
    }
  }
}

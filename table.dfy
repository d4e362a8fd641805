/** `to_excel` up to the file write, and the last-row override of
    `try_fill_from_zhcw_list`: the rows become a table with the fifteen fixed
    columns (absent ones None), sorted by 期号, whose last row then takes the
    sales, pool and first-tier count from the 中彩网 page where those
    patterns matched. */
module Table {
  import opened Text
  import opened Money
  import opened Rows

  /** Why `to_excel` raises: the RuntimeError for an empty table, or the
      TypeError of comparing a str 期号 with an int one while sorting. */
  datatype Failure = EmptyResult | Unorderable

  datatype Result<T> = Ok(value: T) | Err(error: Failure)

  /** Every key of every row: the columns of `pd.DataFrame(rows)`. */
  function KeysOf(records: seq<Record>): set<Column> {
    set i, c | 0 <= i < |records| && c in records[i] :: c
  }

  /** `df.empty`: no rows, or no columns. */
  predicate EmptyFrame(records: seq<Record>) {
    |records| == 0 || KeysOf(records) == {}
  }

  /** Every key of every row is well named: distinct str keys stay distinct
      columns, as they are in a dict. */
  predicate Named(records: seq<Record>) {
    forall i, c :: 0 <= i < |records| && c in records[i] ==> WellNamed(c)
  }

  /** The rows `fetch_from_17500_list` builds are well named. */
  lemma ScrapedNamed(rows: seq<Record>, blocks: seq<Block>, p: Page)
    requires |rows| == |blocks| && PageShaped(p)
    requires forall i :: 0 <= i < |blocks| ==> WellShaped(blocks[i])
    requires forall i :: 0 <= i < |rows| ==> rows[i] == RecordOf(blocks[i], p)
    ensures Named(rows)
  {
    forall i | 0 <= i < |rows| ensures forall c :: c in rows[i] ==> WellNamed(c) {
      RecordNamed(DrawOf(blocks[i]), PageCellsOf(p, PageDist(p)));
    }
  }

  /** A row dict widened to the given columns, NaN where it has no value. */
  function Widen(r: Record, cols: set<Column>): Record {
    map c | c in cols :: if c in r then r[c] else Null
  }

  /** The fifteen cells of one output row. */
  function Project(r: Record): seq<Cell> {
    seq(|Columns|, j requires 0 <= j < |Columns| => if Columns[j] in r then r[Columns[j]] else Null)
  }

  function Projected(records: seq<Record>): (t: seq<seq<Cell>>)
    ensures |t| == |records| && forall i :: 0 <= i < |t| ==> |t[i]| == |Columns|
  {
    seq(|records|, i requires 0 <= i < |records| => Project(records[i]))
  }

  /** `pd.DataFrame(rows)` and the in-place additions of missing columns. A
      table is its set of columns (their order is fixed later by the
      selection) and one dict per row over exactly those columns. */
  class Frame {
    var columns: set<Column>
    var rows: seq<Record>

    ghost predicate Valid()
      reads this
    {
      forall i :: 0 <= i < |rows| ==> rows[i].Keys == columns
    }

    constructor (records: seq<Record>)
      ensures Valid()
      ensures columns == KeysOf(records)
      ensures rows == seq(|records|, i requires 0 <= i < |records| => Widen(records[i], KeysOf(records)))
    {
      columns := KeysOf(records);
      rows := seq(|records|, i requires 0 <= i < |records| => Widen(records[i], KeysOf(records)));
    }

    /** `df.empty`. */
    predicate IsEmpty()
      reads this
    {
      |rows| == 0 || columns == {}
    }

    /** `for c in cols: if c not in df.columns: df[c] = None`. */
    method AddMissing(cols: seq<Column>)
      requires Valid()
      modifies this
      ensures Valid()
      ensures columns == old(columns) + (set c | c in cols)
      ensures |rows| == |old(rows)|
      ensures forall i :: 0 <= i < |rows| ==> rows[i] == Widen(old(rows)[i], columns)
    {
      ghost var rows0 := rows;
      for k := 0 to |cols|
        invariant Valid()
        invariant columns == old(columns) + (set c | c in cols[..k])
        invariant |rows| == |rows0|
        invariant forall i :: 0 <= i < |rows0| ==> rows0[i].Keys == old(columns)
        invariant forall i :: 0 <= i < |rows| ==> rows[i] == Widen(rows0[i], columns)
      {
        var c := cols[k];
        if c !in columns {
          var rs := rows;
          columns := columns + {c};
          rows := seq(|rs|, i requires 0 <= i < |rs| => rs[i][c := Null]);
        }
        assert cols[..k + 1] == cols[..k] + [c];
      }
      assert cols[..|cols|] == cols;
    }

    /** `df[cols]`: the cells of the given columns, row by row. */
    function Select(cols: seq<Column>): (t: seq<seq<Cell>>)
      reads this
      requires Valid() && forall j :: 0 <= j < |cols| ==> cols[j] in columns
      ensures |t| == |rows| && forall i :: 0 <= i < |t| ==> |t[i]| == |cols|
    {
      var rs := rows;
      seq(|rs|, i requires 0 <= i < |rs| => seq(|cols|, j requires 0 <= j < |cols| => rs[i][cols[j]]))
    }
  }

  /** Python's `<=` on str: code point by code point, a prefix first. */
  predicate StrLe(a: string, b: string) {
    a == [] || (b != [] && (a[0] < b[0] || (a[0] == b[0] && StrLe(a[1..], b[1..]))))
  }

  /** The order `sort_values` puts 期号 values in: ints by value, strs by
      StrLe, None (NaN) after everything. An int and a str are never both
      present (see Orderable); ints go first only to make the order total. */
  predicate KeyLe(a: Cell, b: Cell) {
    match (a, b)
    case (_, Null) => true
    case (Null, _) => false
    case (Int(x), Int(y)) => x <= y
    case (Str(x), Str(y)) => StrLe(x, y)
    case (Int(_), Str(_)) => true
    case (Str(_), Int(_)) => false
  }

  lemma {:induction false} StrLeTotal(a: string, b: string)
    ensures StrLe(a, b) || StrLe(b, a)
  {
    if a != [] && b != [] && a[0] == b[0] {
      StrLeTotal(a[1..], b[1..]);
    }
  }

  lemma KeyLeTotal(a: Cell, b: Cell)
    ensures KeyLe(a, b) || KeyLe(b, a)
  {
    if a.Str? && b.Str? {
      StrLeTotal(a.s, b.s);
    }
  }

  /** Rows that all have a 期号 cell first. */
  predicate Keyed(t: seq<seq<Cell>>) {
    forall i :: 0 <= i < |t| ==> |t[i]| > 0
  }

  /** Non-decreasing 期号 from each row to the next. */
  predicate Sorted(t: seq<seq<Cell>>)
    requires Keyed(t)
  {
    forall i :: 0 < i < |t| ==> KeyLe(t[i - 1][0], t[i][0])
  }

  /** The sort does not raise: the 期号 column does not mix ints and strs. */
  predicate Orderable(t: seq<seq<Cell>>)
    requires Keyed(t)
  {
    !((exists i :: 0 <= i < |t| && t[i][0].Int?) && (exists i :: 0 <= i < |t| && t[i][0].Str?))
  }

  /** s with row placed before the first row it does not come after. */
  function Insert(row: seq<Cell>, s: seq<seq<Cell>>): (r: seq<seq<Cell>>)
    requires |row| > 0 && Keyed(s)
    ensures Keyed(r) && |r| == |s| + 1
    ensures multiset(r) == multiset(s) + multiset{row}
  {
    if s == [] then [row]
    else if KeyLe(row[0], s[0][0]) then [row] + s
    else
      assert s == [s[0]] + s[1..];
      [s[0]] + Insert(row, s[1..])
  }

  /** A row whose 期号 comes no later than the head's can go in front. */
  lemma ConsSorted(h: seq<Cell>, t: seq<seq<Cell>>)
    requires |h| > 0 && Keyed(t) && Sorted(t)
    requires t != [] ==> KeyLe(h[0], t[0][0])
    ensures Keyed([h] + t) && Sorted([h] + t)
  {
    var r := [h] + t;
    forall i | 0 < i < |r| ensures KeyLe(r[i - 1][0], r[i][0]) {
      if i > 1 {
        assert r[i - 1] == t[i - 2] && r[i] == t[i - 1];
      }
    }
  }

  /** Inserting into a sorted table keeps it sorted; the new head is the
      inserted row or the old head. */
  lemma {:induction false} InsertSorted(row: seq<Cell>, s: seq<seq<Cell>>)
    requires |row| > 0 && Keyed(s) && Sorted(s)
    ensures Sorted(Insert(row, s))
    ensures Insert(row, s)[0] == row || (s != [] && Insert(row, s)[0] == s[0])
  {
    if s == [] {
    } else if KeyLe(row[0], s[0][0]) {
      ConsSorted(row, s);
    } else {
      KeyLeTotal(row[0], s[0][0]);
      var rest := s[1..];
      InsertSorted(row, rest);
      var t := Insert(row, rest);
      assert rest != [] ==> s[1] == rest[0];
      ConsSorted(s[0], t);
      assert Insert(row, s) == [s[0]] + t;
    }
  }

  /** `sort_values("期号")`: the rows in non-decreasing 期号 order, the same
      rows as before, duplicates kept. Which of two rows with equal 期号 comes
      first is not specified by the sort, so nothing is claimed about it. */
  function SortByIssue(t: seq<seq<Cell>>): (s: seq<seq<Cell>>)
    requires Keyed(t)
    ensures Keyed(s) && Sorted(s)
    ensures multiset(s) == multiset(t)
    ensures |s| == |t|
  {
    if t == [] then []
    else
      assert t == [t[0]] + t[1..];
      var rest := SortByIssue(t[1..]);
      InsertSorted(t[0], rest);
      Insert(t[0], rest)
  }

  /** Rows of the same multiset have the same width. */
  lemma SameWidth(s: seq<seq<Cell>>, t: seq<seq<Cell>>, n: nat)
    requires multiset(s) == multiset(t)
    requires forall i :: 0 <= i < |t| ==> |t[i]| == n
    ensures forall i :: 0 <= i < |s| ==> |s[i]| == n
  {
    forall i | 0 <= i < |s| ensures |s[i]| == n {
      assert s[i] in multiset(t);
    }
  }

  /** The groups the three 中彩网 patterns captured, None where a pattern did
      not match or the page could not be fetched. */
  datatype Zhcw = Zhcw(sales: Option<string>, pool: Option<string>, firstCount: Option<string>)

  /** The 一等奖X注 group is `[0-9]+`. */
  predicate ZhcwShaped(z: Zhcw) {
    z.firstCount.Some? ==> z.firstCount.value != [] && AllDigits(z.firstCount.value)
  }

  /** Positions of the three overridden columns. */
  const SalesAt: nat := 9
  const PoolAt: nat := 10
  const CountAt: nat := 11

  /** The last row after the override: each matched field takes the page's value. */
  function FillRow(row: seq<Cell>, z: Zhcw): seq<Cell>
    requires |row| == |Columns| && ZhcwShaped(z)
  {
    var r1 := if z.sales.Some? then row[SalesAt := AmountCell(z.sales)] else row;
    var r2 := if z.pool.Some? then r1[PoolAt := AmountCell(z.pool)] else r1;
    if z.firstCount.Some? then r2[CountAt := CountCell(z.firstCount)] else r2
  }

  /** `try_fill_from_zhcw_list` on a table: only the last row changes. */
  function Filled(t: seq<seq<Cell>>, z: Zhcw): seq<seq<Cell>>
    requires forall i :: 0 <= i < |t| ==> |t[i]| == |Columns|
    requires ZhcwShaped(z)
  {
    if t == [] then t else t[|t| - 1 := FillRow(t[|t| - 1], z)]
  }

  /** The override on the table held in an array, in place. */
  method FillLatest(a: array<seq<Cell>>, z: Zhcw)
    requires forall i :: 0 <= i < a.Length ==> |a[i]| == |Columns|
    requires ZhcwShaped(z)
    modifies a
    ensures a[..] == Filled(old(a[..]), z)
  {
    if a.Length > 0 {
      var last := a.Length - 1;
      if z.sales.Some? {
        a[last] := a[last][SalesAt := AmountCell(z.sales)];
      }
      if z.pool.Some? {
        a[last] := a[last][PoolAt := AmountCell(z.pool)];
      }
      if z.firstCount.Some? {
        a[last] := a[last][CountAt := CountCell(z.firstCount)];
      }
    }
  }

  /** What `to_excel` returns, or why it raises. */
  function Excel(records: seq<Record>, z: Zhcw): Result<seq<seq<Cell>>>
    requires ZhcwShaped(z) && Named(records)
  {
    if EmptyFrame(records) then Err(EmptyResult)
    else
      var t := Projected(records);
      if !Orderable(t) then Err(Unorderable)
      else
        var s := SortByIssue(t);
        SameWidth(s, t, |Columns|);
        Ok(Filled(s, z))
  }

  /** The sort, then the override on the sorted table. */
  method SortAndFill(t: seq<seq<Cell>>, z: Zhcw) returns (u: seq<seq<Cell>>)
    requires forall i :: 0 <= i < |t| ==> |t[i]| == |Columns|
    requires ZhcwShaped(z)
    ensures Keyed(t)
    ensures var s := SortByIssue(t);
      (forall i :: 0 <= i < |s| ==> |s[i]| == |Columns|) && u == Filled(s, z)
  {
    var s := SortByIssue(t);
    SameWidth(s, t, |Columns|);
    var a := new seq<Cell>[|s|](i requires 0 <= i < |s| => s[i]);
    assert a[..] == s;
    FillLatest(a, z);
    u := a[..];
  }

  /** `to_excel(rows, out_path)` without the file write. */
  method ToExcel(records: seq<Record>, z: Zhcw) returns (r: Result<seq<seq<Cell>>>)
    requires ZhcwShaped(z) && Named(records)
    ensures r == Excel(records, z)
  {
    var df := new Frame(records);
    if df.IsEmpty() {
      return Err(EmptyResult);
    }
    df.AddMissing(Columns);
    SelectIsProjection(records, df);
    var t := df.Select(Columns);
    if !Orderable(t) {
      return Err(Unorderable);
    }
    var u := SortAndFill(t, z);
    return Ok(u);
  }

  /** After the missing columns are added, selecting the fifteen gives each
      row's value for a column it has and None for one it lacks. */
  lemma SelectIsProjection(records: seq<Record>, df: Frame)
    requires df.Valid()
    requires df.columns == KeysOf(records) + (set c | c in Columns)
    requires |df.rows| == |records|
    requires forall i :: 0 <= i < |df.rows| ==> df.rows[i] == Widen(Widen(records[i], KeysOf(records)), df.columns)
    ensures forall j :: 0 <= j < |Columns| ==> Columns[j] in df.columns
    ensures df.Select(Columns) == Projected(records)
  {
    var rows := df.rows;
    forall i | 0 <= i < |rows|
      ensures df.Select(Columns)[i] == Project(records[i])
    {
      forall j | 0 <= j < |Columns| ensures Columns[j] in records[i] ==> Columns[j] in KeysOf(records) {
        if Columns[j] in records[i] {
          assert Columns[j] in KeysOf(records);
        }
      }
    }
  }

  /** Rows that are all `|Columns|` cells wide. */
  predicate Wide(t: seq<seq<Cell>>) {
    forall i :: 0 <= i < |t| ==> |t[i]| == |Columns|
  }

  /** The three overridden positions are the sales, pool and first-tier
      count columns. */
  lemma FilledColumns()
    ensures Columns[SalesAt] == Sales && Columns[PoolAt] == Pool && Columns[CountAt] == FirstCount
  {
  }

  /** The override touches only the last row, and in it only the columns
      whose pattern matched, each set to the page's value. */
  lemma FillOnlyLast(t: seq<seq<Cell>>, z: Zhcw)
    requires Wide(t) && ZhcwShaped(z)
    ensures |Filled(t, z)| == |t| && Wide(Filled(t, z))
    ensures forall i :: 0 <= i < |t| - 1 ==> Filled(t, z)[i] == t[i]
    ensures t != [] ==>
      var u, w := Filled(t, z)[|t| - 1], t[|t| - 1];
      (forall j :: 0 <= j < |Columns| && j != SalesAt && j != PoolAt && j != CountAt ==> u[j] == w[j]) &&
      u[SalesAt] == (if z.sales.Some? then AmountCell(z.sales) else w[SalesAt]) &&
      u[PoolAt] == (if z.pool.Some? then AmountCell(z.pool) else w[PoolAt]) &&
      u[CountAt] == (if z.firstCount.Some? then CountCell(z.firstCount) else w[CountAt])
  {
  }

  /** The override keeps the 期号 column, so a sorted table stays sorted. */
  lemma FilledSorted(t: seq<seq<Cell>>, z: Zhcw)
    requires Wide(t) && ZhcwShaped(z) && Keyed(t) && Sorted(t)
    ensures Keyed(Filled(t, z)) && Sorted(Filled(t, z))
    ensures forall i :: 0 <= i < |t| ==> Filled(t, z)[i][0] == t[i][0]
  {
    FillOnlyLast(t, z);
  }

  /** `to_excel` raises its RuntimeError exactly when no row has any key
      (in particular when there are no rows). */
  lemma ExcelEmpty(records: seq<Record>, z: Zhcw)
    requires ZhcwShaped(z) && Named(records)
    ensures Excel(records, z) == Err(EmptyResult) <==> forall i :: 0 <= i < |records| ==> records[i] == map[]
  {
    if exists i :: 0 <= i < |records| && records[i] != map[] {
      var i :| 0 <= i < |records| && records[i] != map[];
      var c :| c in records[i];
      assert c in KeysOf(records);
    } else {
      assert forall i :: 0 <= i < |records| ==> records[i].Keys == {};
      assert KeysOf(records) == {};
    }
  }

  /** A row's fifteen cells: its value for each fixed column, None where it
      has none. */
  lemma ProjectCells(r: Record)
    ensures |Project(r)| == |Columns|
    ensures forall j :: 0 <= j < |Columns| && Columns[j] in r ==> Project(r)[j] == r[Columns[j]]
    ensures forall j :: 0 <= j < |Columns| && Columns[j] !in r ==> Project(r)[j] == Null
  {
  }

  /** The overridden table is the old one with its last row through FillRow. */
  lemma FilledLast(s: seq<seq<Cell>>, z: Zhcw)
    requires Wide(s) && ZhcwShaped(z) && s != []
    ensures var t := Filled(s, z);
      multiset(t[..|t| - 1]) + multiset{s[|s| - 1]} == multiset(s) &&
      t[|t| - 1] == FillRow(s[|s| - 1], z)
  {
    var n := |s|;
    assert s == s[..n - 1] + [s[n - 1]];
    assert Filled(s, z)[..n - 1] == s[..n - 1];
  }

  /** When `to_excel` succeeds: one row per input row, fifteen cells each,
      sorted by 期号; the rows are the input rows' cells in some order,
      except that the last one has been through the override. */
  lemma ExcelOk(records: seq<Record>, z: Zhcw)
    requires ZhcwShaped(z) && Named(records) && Excel(records, z).Ok?
    ensures var t := Excel(records, z).value;
      |t| == |records| > 0 && Wide(t) && Keyed(t) && Sorted(t) &&
      exists last :: last in Projected(records) && |last| == |Columns| &&
        multiset(t[..|t| - 1]) + multiset{last} == multiset(Projected(records)) &&
        t[|t| - 1] == FillRow(last, z)
  {
    var p := Projected(records);
    var s := SortByIssue(p);
    SameWidth(s, p, |Columns|);
    assert Excel(records, z).value == Filled(s, z);
    FillOnlyLast(s, z);
    FilledSorted(s, z);
    FilledLast(s, z);
    assert s[|s| - 1] in multiset(p);
  }

  /** Rows whose 期号 is always a str (or missing) never make the sort raise. */
  lemma ExcelOrderable(records: seq<Record>, z: Zhcw)
    requires ZhcwShaped(z) && Named(records)
    requires forall i :: 0 <= i < |records| && Issue in records[i] ==> records[i][Issue].Str?
    ensures Excel(records, z) != Err(Unorderable)
  {
    var p: seq<seq<Cell>> := Projected(records);
    forall i | 0 <= i < |p| ensures !p[i][0].Int? {
      assert Columns[0] == Issue;
    }
  }

  lemma DigitDominates(da: int, db: int, x: int, y: int, p: int)
    requires 0 <= x < p && 0 <= y < p && da < db
    ensures da * p + x < db * p + y
  {
    var k := db - da - 1;
    assert db * p == da * p + p + k * p;
    assert k * p >= 0;
  }

  /** Reading a number from its first digit: that digit counts Pow10 of the
      rest's length. */
  lemma ReadFirstDigit(a: string)
    requires AllDigits(a) && a != []
    ensures AllDigits(a[1..])
    ensures DigitsValue(a) == (a[0] as int - '0' as int) * Pow10(|a| - 1) + DigitsValue(a[1..])
  {
    var h: string, t: string := [a[0]], a[1..];
    assert h + t == a;
    DigitsValueAppend(h, t);
    assert DigitsValue(h) == a[0] as int - '0' as int by {
      var e: string := [];
      assert h[..0] == e;
    }
  }

  /** Two 期号 strings of the same number of digits compare as strs the way
      their numbers compare, so sorting the str column sorts by issue number. */
  lemma {:induction false} IssueOrder(a: string, b: string)
    requires |a| == |b| && AllDigits(a) && AllDigits(b)
    ensures StrLe(a, b) <==> DigitsValue(a) <= DigitsValue(b)
  {
    if a != [] {
      ReadFirstDigit(a);
      ReadFirstDigit(b);
      IssueOrder(a[1..], b[1..]);
      var da, db := a[0] as int - '0' as int, b[0] as int - '0' as int;
      var p, x, y := Pow10(|a| - 1), DigitsValue(a[1..]), DigitsValue(b[1..]);
      if da < db {
        DigitDominates(da, db, x, y, p);
      } else if db < da {
        DigitDominates(db, da, y, x, p);
      }
    }
  }
}

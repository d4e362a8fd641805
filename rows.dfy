/** The records `fetch_from_17500_list` builds: one dict per draw block found
    in the page, with the draw's own fields and the fields read once from the
    whole page text. The block extractor and the page-wide patterns are not
    modelled; their captured groups are the inputs. */
module Rows {
  import opened Text
  import opened Money
  import opened OrderedDict
  import opened Distribution
  import opened Json

  /** A value in a record or a table cell: None (NaN once in the table), an
      int, or a str. */
  datatype Cell = Null | Int(n: int) | Str(s: string)

  /** A dict key. The fifteen columns the scraper writes are named; any other
      str key is Other (see WellNamed). */
  datatype Column =
    | Issue | Date | Red1 | Red2 | Red3 | Red4 | Red5 | Red6 | Blue
    | Sales | Pool | FirstCount | DistText | DistJson | MaxRegion
    | Other(name: string)

  /** The column's header text. */
  function Name(c: Column): string {
    match c
    case Issue => "期号"
    case Date => "开奖日期"
    case Red1 => "红1"
    case Red2 => "红2"
    case Red3 => "红3"
    case Red4 => "红4"
    case Red5 => "红5"
    case Red6 => "红6"
    case Blue => "蓝"
    case Sales => "销售额(元)"
    case Pool => "奖池金额(元)"
    case FirstCount => "一等奖注数"
    case DistText => "一等奖地区分布（原文）"
    case DistJson => "一等奖地区分布（结构化JSON）"
    case MaxRegion => "单省最高注数"
    case Other(name) => name
  }

  /** The fifteen output columns, in their fixed order. */
  const Columns: seq<Column> :=
    [Issue, Date, Red1, Red2, Red3, Red4, Red5, Red6, Blue, Sales, Pool, FirstCount, DistText, DistJson, MaxRegion]

  /** An Other key never spells one of the fifteen names, so each str key has
      one Column. */
  predicate WellNamed(c: Column) {
    c.Other? ==> forall j :: 0 <= j < |Columns| ==> c.name != Name(Columns[j])
  }

  /** One row dict, from column to value. */
  type Record = map<Column, Cell>

  /** The column of the q-th red ball, 红(q + 1). */
  function RedColumn(q: nat): Column
    requires q < 6
  {
    Columns[2 + q]
  }

  /** The four groups of one match of the block pattern: the issue, the
      draw date, the six reds as printed, and the blue. */
  datatype Block = Block(issue: string, date: string, reds: string, blue: string)

  /** What the block pattern lets through: `20\d{5}`, `\d{4}-\d{2}-\d{2}`,
      six `\d{2}` separated by single whitespace characters, and `\d{2}`. */
  predicate WellShaped(b: Block) {
    && |b.issue| == 7 && b.issue[0] == '2' && b.issue[1] == '0' && AllDigits(b.issue)
    && |b.date| == 10
    && (forall k :: 0 <= k < 10 ==> if k == 4 || k == 7 then b.date[k] == '-' else IsDigit(b.date[k]))
    && RedsShaped(b.reds)
    && |b.blue| == 2 && AllDigits(b.blue)
  }

  /** Two digits at i and i + 1. */
  predicate PairAt(r: string, i: nat) {
    i + 1 < |r| && IsDigit(r[i]) && IsDigit(r[i + 1])
  }

  /** `\d{2}\s\d{2}\s\d{2}\s\d{2}\s\d{2}\s\d{2}`. */
  predicate RedsShaped(r: string) {
    && |r| == 17
    && PairAt(r, 0) && PairAt(r, 3) && PairAt(r, 6) && PairAt(r, 9) && PairAt(r, 12) && PairAt(r, 15)
    && IsSpace(r[2]) && IsSpace(r[5]) && IsSpace(r[8]) && IsSpace(r[11]) && IsSpace(r[14])
  }

  /** What the whole-page patterns captured (None where a pattern did not
      match): the text after 本期一等奖中奖地, the 投注总额 amount, the 奖池金额
      amount and the count in 共X注. */
  datatype Page = Page(topDist: Option<string>, sales: Option<string>, pool: Option<string>, firstCount: Option<string>)

  /** The 共X注 group is `[0-9]+`. */
  predicate PageShaped(p: Page) {
    p.firstCount.Some? ==> p.firstCount.value != [] && AllDigits(p.firstCount.value)
  }

  /** `int(x)` for a two-digit string x. */
  function TwoDigits(a: char, b: char): (n: nat)
    requires IsDigit(a) && IsDigit(b)
    ensures n < 100
  {
    (a as int - '0' as int) * 10 + (b as int - '0' as int)
  }

  /** `[int(x) for x in re.findall(r"\d{2}", s)]`, scanning from i: pairs of
      digits, left to right, without overlap. */
  function Pairs(s: string, i: nat): (r: seq<nat>)
    requires i <= |s|
    ensures forall q :: 0 <= q < |r| ==> r[q] < 100
    decreases |s| - i
  {
    if i + 1 < |s| && IsDigit(s[i]) && IsDigit(s[i + 1]) then [TwoDigits(s[i], s[i + 1])] + Pairs(s, i + 2)
    else if i < |s| then Pairs(s, i + 1)
    else []
  }

  /** The q-th red as printed: the digits at 3q and 3q + 1. */
  function RedAt(r: string, q: nat): (n: nat)
    requires RedsShaped(r) && q < 6
    ensures n < 100
  {
    RedPair(r, q);
    TwoDigits(r[3 * q], r[3 * q + 1])
  }

  lemma RedPair(r: string, q: nat)
    requires RedsShaped(r) && q < 6
    ensures PairAt(r, 3 * q)
  {
    if q == 0 {} else if q == 1 {} else if q == 2 {} else if q == 3 {} else if q == 4 {} else {}
  }

  /** On a well-shaped reds group the scan finds exactly the six printed
      numbers, in order. */
  lemma PairsOfReds(r: string)
    requires RedsShaped(r)
    ensures Pairs(r, 0) == [RedAt(r, 0), RedAt(r, 1), RedAt(r, 2), RedAt(r, 3), RedAt(r, 4), RedAt(r, 5)]
  {
    assert Pairs(r, 17) == [];
    assert Pairs(r, 15) == [RedAt(r, 5)];
    PairsStep(r, 4, [RedAt(r, 5)]);
    PairsStep(r, 3, [RedAt(r, 4), RedAt(r, 5)]);
    PairsStep(r, 2, [RedAt(r, 3), RedAt(r, 4), RedAt(r, 5)]);
    PairsStep(r, 1, [RedAt(r, 2), RedAt(r, 3), RedAt(r, 4), RedAt(r, 5)]);
    PairsStep(r, 0, [RedAt(r, 1), RedAt(r, 2), RedAt(r, 3), RedAt(r, 4), RedAt(r, 5)]);
  }

  /** The scan at red q reads it, steps over the separator, and goes on with red q + 1. */
  lemma PairsStep(r: string, q: nat, rest: seq<nat>)
    requires RedsShaped(r) && q < 5
    requires Pairs(r, 3 * q + 3) == rest
    ensures Pairs(r, 3 * q) == [RedAt(r, q)] + rest
  {
    RedPair(r, q);
    assert IsSpace(r[3 * q + 2]) by {
      if q == 0 {} else if q == 1 {} else if q == 2 {} else if q == 3 {} else {}
    }
  }

  /** `reds_list`: the first six numbers found in the reds group. */
  function RedList(r: string): (l: seq<nat>)
    requires RedsShaped(r)
    ensures |l| == 6
    ensures forall q :: 0 <= q < 6 ==> l[q] == RedAt(r, q) && l[q] < 100
  {
    PairsOfReds(r);
    Pairs(r, 0)[..6]
  }

  /** An amount column: `_money_to_yuan(group) if match else None`. */
  function AmountCell(group: Option<string>): Cell {
    match MoneyToYuan(group)
    case Some(n) => Int(n)
    case None => Null
  }

  /** `int(group) if match else None` for the 共X注 count. */
  function CountCell(group: Option<string>): Cell
    requires group.Some? ==> AllDigits(group.value)
  {
    match group
    case Some(g) => Int(DigitsValue(g))
    case None => Null
  }

  /** `top_dist`: the captured text, stripped of whitespace. */
  function TopDist(p: Page): Option<string> {
    match p.topDist
    case Some(g) => Some(Strip(g, Space))
    case None => None
  }

  /** `dist_raw or ""`: the text handed to the distribution parser. */
  function DistInput(p: Page): string {
    match TopDist(p)
    case Some(t) => t
    case None => ""
  }

  /** The structured-JSON column for a distribution. */
  function JsonCell(dist: Dist): (c: Cell)
    ensures c == Null <==> dist == []
    ensures c.Str? ==> Decode(c.s) == Some(dist)
  {
    match JsonColumn(dist)
    case Some(j) => Str(j)
    case None => Null
  }

  /** The single-region maximum column for a distribution. */
  function MaxCell(dist: Dist): (c: Cell)
    ensures c == Null <==> dist == []
    ensures c.Int? ==> (forall i :: 0 <= i < |dist| ==> dist[i].count <= c.n) && exists i :: 0 <= i < |dist| && dist[i].count == c.n
  {
    match MaxCount(dist)
    case Some(m) => Int(m)
    case None => Null
  }

  /** The six values every record of one page shares. */
  datatype PageCells = PageCells(sales: Cell, pool: Cell, count: Cell, text: Cell, json: Cell, max: Cell)

  /** The page-wide values, given the distribution parsed from `dist_raw or ""`. */
  function PageCellsOf(p: Page, dist: Dist): PageCells
    requires PageShaped(p)
  {
    PageCells(AmountCell(p.sales), AmountCell(p.pool), CountCell(p.firstCount),
      match TopDist(p) case Some(t) => Str(t) case None => Null,
      JsonCell(dist), MaxCell(dist))
  }

  /** The values a block contributes: `issue`, `date`, `reds_list` and `blue_i`. */
  datatype Draw = Draw(issue: string, date: string, reds: seq<nat>, blue: nat)

  function DrawOf(b: Block): (d: Draw)
    requires WellShaped(b)
    ensures |d.reds| == 6
  {
    Draw(b.issue, b.date, RedList(b.reds), DigitsValue(b.blue))
  }

  /** The value the row dict gives column c. */
  function Field(d: Draw, pc: PageCells, c: Column): Cell
    requires |d.reds| == 6
  {
    match c
    case Issue => Str(d.issue)
    case Date => Str(d.date)
    case Red1 => Int(d.reds[0])
    case Red2 => Int(d.reds[1])
    case Red3 => Int(d.reds[2])
    case Red4 => Int(d.reds[3])
    case Red5 => Int(d.reds[4])
    case Red6 => Int(d.reds[5])
    case Blue => Int(d.blue)
    case Sales => pc.sales
    case Pool => pc.pool
    case FirstCount => pc.count
    case DistText => pc.text
    case DistJson => pc.json
    case MaxRegion => pc.max
    case Other(_) => Null
  }

  /** The row dict: the fifteen columns and nothing else. */
  function RecordWith(d: Draw, pc: PageCells): Record
    requires |d.reds| == 6
  {
    map c | c in Columns :: Field(d, pc, c)
  }

  /** The distribution `_parse_dist(dist_raw or "")`. */
  function PageDist(p: Page): Dist {
    DistOf(DistInput(p))
  }

  /** The record the loop appends for block b. */
  function RecordOf(b: Block, p: Page): Record
    requires WellShaped(b) && PageShaped(p)
  {
    RecordWith(DrawOf(b), PageCellsOf(p, PageDist(p)))
  }

  /** The columns read from the whole page rather than from the block. */
  predicate PageWide(c: Column) {
    c.Sales? || c.Pool? || c.FirstCount? || c.DistText? || c.DistJson? || c.MaxRegion?
  }

  /** The page-wide values one turn of the loop computes, with the
      distribution parsed by `_parse_dist`. */
  method PageValues(p: Page) returns (pc: PageCells)
    requires PageShaped(p)
    ensures pc == PageCellsOf(p, PageDist(p))
  {
    var dist := ParseDist(DistInput(p));
    pc := PageCellsOf(p, dist);
  }

  /** The loop of `fetch_from_17500_list` over the matched blocks: every
      record has the fifteen columns, and all records of one page agree on
      the page-wide ones. */
  method BuildRows(blocks: seq<Block>, p: Page) returns (rows: seq<Record>)
    requires forall i :: 0 <= i < |blocks| ==> WellShaped(blocks[i])
    requires PageShaped(p)
    ensures |rows| == |blocks|
    ensures forall i :: 0 <= i < |rows| ==> rows[i] == RecordOf(blocks[i], p)
    ensures forall i :: 0 <= i < |rows| ==> rows[i].Keys == set c | c in Columns
    ensures forall i, j, c :: 0 <= i < |rows| && 0 <= j < |rows| && PageWide(c) ==>
      c in rows[i] && c in rows[j] && rows[i][c] == rows[j][c]
  {
    rows := [];
    for i := 0 to |blocks|
      invariant |rows| == i
      invariant forall k :: 0 <= k < i ==> rows[k] == RecordOf(blocks[k], p)
    {
      var pc := PageValues(p);
      rows := rows + [RecordWith(DrawOf(blocks[i]), pc)];
    }
    SameRecords(rows, blocks, p);
  }

  /** What holds of the records of one page, whatever their blocks. */
  lemma SameRecords(rows: seq<Record>, blocks: seq<Block>, p: Page)
    requires |rows| == |blocks| && PageShaped(p)
    requires forall i :: 0 <= i < |blocks| ==> WellShaped(blocks[i])
    requires forall i :: 0 <= i < |rows| ==> rows[i] == RecordOf(blocks[i], p)
    ensures forall i :: 0 <= i < |rows| ==> rows[i].Keys == set c | c in Columns
    ensures forall i, j, c :: 0 <= i < |rows| && 0 <= j < |rows| && PageWide(c) ==>
      c in rows[i] && c in rows[j] && rows[i][c] == rows[j][c]
  {
    var pc := PageCellsOf(p, PageDist(p));
    var draws := seq(|blocks|, i requires 0 <= i < |blocks| => DrawOf(blocks[i]));
    assert forall i :: 0 <= i < |rows| ==> rows[i] == RecordWith(draws[i], pc);
    SharedColumns(rows, draws, pc);
  }

  lemma SharedColumns(rows: seq<Record>, draws: seq<Draw>, pc: PageCells)
    requires |rows| == |draws|
    requires forall i :: 0 <= i < |draws| ==> |draws[i].reds| == 6
    requires forall i :: 0 <= i < |rows| ==> rows[i] == RecordWith(draws[i], pc)
    ensures forall i :: 0 <= i < |rows| ==> rows[i].Keys == set c | c in Columns
    ensures forall i, j, c :: 0 <= i < |rows| && 0 <= j < |rows| && PageWide(c) ==>
      c in rows[i] && c in rows[j] && rows[i][c] == rows[j][c]
  {
    forall i | 0 <= i < |rows| ensures rows[i].Keys == set c | c in Columns {
      RecordKeys(draws[i], pc);
    }
    forall i, j, c | 0 <= i < |rows| && 0 <= j < |rows| && PageWide(c)
      ensures c in rows[i] && c in rows[j] && rows[i][c] == rows[j][c]
    {
      PageFieldsShared(draws[i], draws[j], pc, c);
    }
  }

  /** Column c of a record holds Field(d, pc, c). */
  lemma RecordAt(d: Draw, pc: PageCells, c: Column)
    requires |d.reds| == 6 && c in Columns
    ensures c in RecordWith(d, pc) && RecordWith(d, pc)[c] == Field(d, pc, c)
  {
  }

  /** Records of two blocks of the same page agree on every page-wide column. */
  lemma PageFieldsShared(d1: Draw, d2: Draw, pc: PageCells, c: Column)
    requires |d1.reds| == 6 && |d2.reds| == 6 && PageWide(c)
    ensures c in RecordWith(d1, pc) && c in RecordWith(d2, pc)
    ensures RecordWith(d1, pc)[c] == RecordWith(d2, pc)[c]
  {
    assert c in Columns;
    RecordAt(d1, pc, c);
    RecordAt(d2, pc, c);
  }

  /** Every record has exactly the fifteen columns. */
  lemma RecordKeys(d: Draw, pc: PageCells)
    requires |d.reds| == 6
    ensures RecordWith(d, pc).Keys == set c | c in Columns
  {
  }

  /** Every key of a record is one of the fifteen columns, so well named. */
  lemma RecordNamed(d: Draw, pc: PageCells)
    requires |d.reds| == 6
    ensures forall c :: c in RecordWith(d, pc) ==> c in Columns && WellNamed(c)
  {
  }

  /** The reds are the six printed numbers, in printed order, and the blue is
      the printed number; all lie in 0..99. */
  lemma RecordNumbers(b: Block, pc: PageCells)
    requires WellShaped(b)
    ensures forall q :: 0 <= q < 6 ==> RedColumn(q) in RecordWith(DrawOf(b), pc) && RecordWith(DrawOf(b), pc)[RedColumn(q)] == Int(RedAt(b.reds, q))
    ensures forall q :: 0 <= q < 6 ==> RedAt(b.reds, q) < 100
    ensures Blue in RecordWith(DrawOf(b), pc) && RecordWith(DrawOf(b), pc)[Blue] == Int(DigitsValue(b.blue)) && DigitsValue(b.blue) < 100
  {
    var d := DrawOf(b);
    forall q | 0 <= q < 6 ensures RedColumn(q) in RecordWith(d, pc) && RecordWith(d, pc)[RedColumn(q)] == Int(RedAt(b.reds, q)) {
      RedField(d, pc, q);
      RecordAt(d, pc, RedColumn(q));
    }
    RecordAt(d, pc, Blue);
    assert Pow10(2) == 100;
  }

  lemma RedField(d: Draw, pc: PageCells, q: nat)
    requires |d.reds| == 6 && q < 6
    ensures RedColumn(q) in Columns && Field(d, pc, RedColumn(q)) == Int(d.reds[q])
  {
    if q == 0 {} else if q == 1 {} else if q == 2 {} else if q == 3 {} else if q == 4 {} else {}
  }

  /** The distribution columns of a record, for page-wide values made from
      distribution dist. */
  lemma DistCells(d: Draw, pc: PageCells, dist: Dist)
    requires |d.reds| == 6 && pc.json == JsonCell(dist) && pc.max == MaxCell(dist)
    ensures DistJson in RecordWith(d, pc) && MaxRegion in RecordWith(d, pc)
    ensures RecordWith(d, pc)[DistJson] == Null <==> dist == []
    ensures RecordWith(d, pc)[DistJson].Str? ==> Decode(RecordWith(d, pc)[DistJson].s) == Some(dist)
    ensures RecordWith(d, pc)[MaxRegion] == Null <==> dist == []
    ensures RecordWith(d, pc)[MaxRegion].Int? ==>
      (forall i :: 0 <= i < |dist| ==> dist[i].count <= RecordWith(d, pc)[MaxRegion].n) &&
      exists i :: 0 <= i < |dist| && dist[i].count == RecordWith(d, pc)[MaxRegion].n
  {
    DistFields(d, pc);
    var c := JsonCell(dist);
    var x := MaxCell(dist);
    assert c == Null <==> dist == [];
    assert x == Null <==> dist == [];
  }

  lemma DistFields(d: Draw, pc: PageCells)
    requires |d.reds| == 6
    ensures DistJson in RecordWith(d, pc) && RecordWith(d, pc)[DistJson] == pc.json
    ensures MaxRegion in RecordWith(d, pc) && RecordWith(d, pc)[MaxRegion] == pc.max
  {
    RecordAt(d, pc, DistJson);
    RecordAt(d, pc, MaxRegion);
  }

  /** In every record of a page, the structured-JSON column is None exactly
      when the page's distribution is empty and otherwise decodes back to that
      distribution; the maximum column is None exactly when the distribution
      is empty and otherwise is a count of the distribution that no other
      count exceeds. */
  lemma RecordDistColumns(b: Block, p: Page)
    requires WellShaped(b) && PageShaped(p)
    ensures DistJson in RecordOf(b, p) && MaxRegion in RecordOf(b, p)
    ensures RecordOf(b, p)[DistJson] == Null <==> PageDist(p) == []
    ensures RecordOf(b, p)[DistJson].Str? ==> Decode(RecordOf(b, p)[DistJson].s) == Some(PageDist(p))
    ensures RecordOf(b, p)[MaxRegion] == Null <==> PageDist(p) == []
    ensures RecordOf(b, p)[MaxRegion].Int? ==>
      (forall i :: 0 <= i < |PageDist(p)| ==> PageDist(p)[i].count <= RecordOf(b, p)[MaxRegion].n) &&
      exists i :: 0 <= i < |PageDist(p)| && PageDist(p)[i].count == RecordOf(b, p)[MaxRegion].n
  {
    var dist := PageDist(p);
    DistCells(DrawOf(b), PageCellsOf(p, dist), dist);
  }
}

# Verified model of the 双色球 (Union Lotto) multi-source scraper core

`tools/ssq_multi_source.py` scrapes recent draws of the 双色球 lottery and
writes them to a spreadsheet with fifteen fixed columns. Around the network
and file code sits a core that turns text into records. This project models
that core in Dafny and proves what it promises:

- **`_money_to_yuan`** (module `Money`). It reads a money text such as
  "1.2亿", "3,456万" or "5000000" as whole yuan. ASCII commas are removed and
  the text is trimmed. Three patterns are then tried in a fixed order: a
  decimal before 亿, a decimal before 万, and a bare digit run. The first
  pattern that matches anywhere decides.
- **`_parse_dist`** (module `Distribution`). It reads a first-tier
  distribution text such as "广东3注，上海2注，广东1注" into an
  insertion-ordered dict from region to number of bets. The text is trimmed
  of '。' and ' ', split on separator runs, and each piece contributes its
  leftmost "region digits 注".
- **The insertion-ordered dict** (module `OrderedDict`). Both accumulators
  use it: `d[k] = d.get(k, 0) + n` and `setdefault` then `+=`.
- **The derived columns** (module `Json`). One is the compact JSON text of
  the distribution, with a decoder as its partner. The other is the
  single-region maximum.
- **The row construction of `fetch_from_17500_list`** (module `Rows`). Each
  matched (issue, date, reds, blue) block becomes one record. The page-wide
  sales, pool, count and distribution values are shared by every record.
- **The issue accumulator of `fetch_dist_from_yiqicai_recent`** (module
  `Yiqicai`).
- **`to_excel` up to the file write, with the last-row override of
  `try_fill_from_zhcw_list`** (module `Table`). The DataFrame is a class with
  a set of columns and one dict per row. Missing columns are added in place,
  the fifteen columns are selected, and the rows are sorted by 期号. The last
  row's sales, pool and first-tier count are then overwritten in an array,
  in place.

Module `Text` holds the shared character classes and scanners:
- Python's `isspace` whitespace, which is also `\s`;
- ASCII digits;
- the CJK range `[一-龥·]`;
- the `_parse_dist` separators;
- `int()` on digit strings and `str()` on naturals;
- `str.strip`.

`MoneyExamples` and `DistributionExamples` apply the general lemmas to
concrete inputs.

## Model

| member | source | states |
|---|---|---|
| Money.MoneyToYuan | tools/ssq_multi_source.py:23-31 | No ensures of its own: `_money_to_yuan` is the empty-text guard, then AmountIn on Cleaned. Its properties are stated by Money.NoneIffNoDigit, Money.MoneyOfText, Money.YiFirst, Money.WanFirst, Money.DigitsOnly and Money.CommaDropped. |
| Money.AmountIn | tools/ssq_multi_source.py:26-31 | No ensures of its own: the three searches in order. Money.YiFirst, Money.WanFirst and Money.DigitsOnly state which one decides and what it yields. |
| Money.Cleaned | tools/ssq_multi_source.py:25 | No ensures of its own: `replace(",", "")` then `strip()`. Money.RemoveCommas, Money.RemoveCommasCount and Text.Strip state what each step keeps and drops; Money.CleanedKeepsDigits states that the cleaned text has a digit exactly when the text does. |
| Money.RemoveCommasAppend | tools/ssq_multi_source.py:25 | Removing commas from a concatenation removes them from each part. |
| Money.NoneIffNoDigit | tools/ssq_multi_source.py:24-31 | The amount is None exactly when the text is missing or has no ASCII digit. |
| Money.MoneyOfText | tools/ssq_multi_source.py:24-25 | The empty-text guard agrees with searching the cleaned text. |
| Money.YiFirst | tools/ssq_multi_source.py:26-27 | The leftmost "decimal 亿" match decides, wherever it is and whatever comes before it. The result is that decimal times 10^8. |
| Money.WanFirst | tools/ssq_multi_source.py:28-29 | With no 亿 match anywhere, the leftmost "decimal 万" match decides, times 10^4. |
| Money.DigitsOnly | tools/ssq_multi_source.py:30-31 | With neither suffix matching, the amount is the value of the first maximal digit run alone. |
| Money.CommaDropped | tools/ssq_multi_source.py:25 | An ASCII comma anywhere in the text does not change the amount. |
| Money.RemoveCommasCount | tools/ssq_multi_source.py:25 | `replace(",", "")` removes every ASCII comma and keeps the count of every other character. |
| Money.Scaled | tools/ssq_multi_source.py:27-29 | With at most e fractional digits, the result times 10^frac equals the literal's digits times 10^e (exact). With more, it is the nearest integer, ties to even. |
| Money.ScaledParts | tools/ssq_multi_source.py:27-29 | The exact scaled amount is the integer part times 10^e plus the shifted fraction. |
| Money.RoundHalfEven | tools/ssq_multi_source.py:27 | The result is within half a unit of the quotient, and an exact tie gives the even neighbour. |
| Money.RemoveCommas | tools/ssq_multi_source.py:25 | No ASCII comma is left. |
| Money.ScanSuffixed | tools/ssq_multi_source.py:26-28 | What it finds is a well-formed decimal literal. Money.ScanSound and Money.ScanComplete state that it finds exactly the match of `([0-9]+(?:\.[0-9]+)?)\s*<suffix>` at that position. |
| Money.FindSuffixed | tools/ssq_multi_source.py:26-28 | A position found is at or after the start and the pattern matches there with the returned capture; the pattern matches at no earlier position, and nowhere when None is returned. |
| Money.ScanSound | tools/ssq_multi_source.py:26-28 | What the scanner finds at a position is a match of `([0-9]+(?:\.[0-9]+)?)\s*<suffix>` there. |
| Money.ScanComplete | tools/ssq_multi_source.py:26-28 | Every match of that pattern at a position is the one the scanner finds. |
| Money.FindsFirst | tools/ssq_multi_source.py:26-28 | The search returns the leftmost match. |
| Money.FindsNone | tools/ssq_multi_source.py:26-28 | The search returns None when the pattern matches nowhere. |
| Text.FirstIn | tools/ssq_multi_source.py:30 | The position found holds a character of the class (a digit for `re.search(r"([0-9]+)")`), and no earlier position does; None means there is none. |
| MoneyExamples.YiExample | tools/ssq_multi_source.py:23-27 | "1.2亿" gives 120000000. |
| MoneyExamples.WanExample | tools/ssq_multi_source.py:23-29 | "3,456万" gives 34560000. |
| MoneyExamples.PriorityExample | tools/ssq_multi_source.py:26-29 | "5万2亿" gives 200000000: the 亿 amount wins over an earlier 万 amount. |
| MoneyExamples.PointExample | tools/ssq_multi_source.py:30-31 | "1.5" with no suffix gives 1. |
| MoneyExamples.FullWidthCommaExample | tools/ssq_multi_source.py:25-31 | "1，234" gives 1: the full-width comma stays and ends the digit run. |
| MoneyExamples.AsciiCommaExample | tools/ssq_multi_source.py:25-31 | "1,234" gives 1234. |
| MoneyExamples.DigitText | tools/ssq_multi_source.py:30-31 | A text of digits alone gives its own value. |
| MoneyExamples.YiAfterWan | tools/ssq_multi_source.py:26-29 | In "a万b亿" the 亿 amount decides. |
| Text.Strip | tools/ssq_multi_source.py:25 | The result is one slice of the text, and everything before and after the slice is of the class. The slice neither starts nor ends with a character of the class. Every other character keeps its count. |
| Text.NatToString | tools/ssq_multi_source.py:81 | `str(n)` is non-empty, all digits, reads back as n, and has no leading zero. |
| Text.DigitsValue | tools/ssq_multi_source.py:39 | `int()` of a digit string, as at lines 31, 39, 71 and 120, is below 10 to the power of its length. Text.DigitsValueAppend, Text.NatToString and Table.IssueOrder state how it reads concatenations, `str(n)` and the order of digit strings. |
| Text.DigitsValueAppend | tools/ssq_multi_source.py:31 | `int()` of a concatenation is the left part shifted by the right part's length, plus the right part. |
| Distribution.ParseDist | tools/ssq_multi_source.py:33-41 | The in-place loop over the pieces builds exactly `DistOf(text)`. |
| Distribution.SplitKeeps | tools/ssq_multi_source.py:36 | The pieces of `re.split`, joined, are the text without its separators. |
| Distribution.Split | tools/ssq_multi_source.py:36 | There is at least one piece, and no piece holds a separator. |
| Distribution.SplitRoundTrip | tools/ssq_multi_source.py:36 | There are non-empty runs of separators, one between each two pieces, that interleaved with the pieces give back the text exactly. |
| Distribution.SplitInner | tools/ssq_multi_source.py:36 | Every piece other than the first and the last is non-empty, so each run the text is cut at is maximal. |
| Distribution.SearchPiece | tools/ssq_multi_source.py:37-39 | No ensures of its own: `re.search` on one piece. Distribution.PieceTakesFirst and Distribution.PieceWithoutMatch state what it yields. |
| Distribution.Matches | tools/ssq_multi_source.py:35-39 | No ensures of its own: the (region, count) pairs of the pieces, in order. Distribution.FoundStep states that each piece appends the pair SearchPiece finds, or nothing; Distribution.EmptyText covers the empty text. |
| Distribution.DistOf | tools/ssq_multi_source.py:33-41 | No ensures of its own: the tally of Matches. Distribution.ParseDist, Distribution.SumsPerRegion, Distribution.RegionsInOrder and Distribution.TotalOfCounts state what it holds. |
| Distribution.ScanEntry | tools/ssq_multi_source.py:37 | A match has a non-empty region. Distribution.ScanEntrySound and Distribution.ScanEntryComplete state that it finds exactly the match of `([一-龥·]+)\s*(\d+)\s*注` at that position. |
| Distribution.FindEntry | tools/ssq_multi_source.py:37 | No ensures of its own: `re.search` for the entry pattern. Distribution.FindEntryLeftmost and Distribution.FindEntryFirst state that it returns the leftmost match. |
| Distribution.FindEntryFirst | tools/ssq_multi_source.py:37 | The search returns position i and its match when the pattern matches at i and at no position between the start and i. |
| Distribution.ScanEntrySound | tools/ssq_multi_source.py:37 | What the scanner finds at a position is a match of `([一-龥·]+)\s*(\d+)\s*注` there. |
| Distribution.ScanEntryComplete | tools/ssq_multi_source.py:37 | Every match at a position is the one the scanner finds. |
| Distribution.FindEntryLeftmost | tools/ssq_multi_source.py:37 | The search stops at the first position where the pattern matches. |
| Distribution.PieceTakesFirst | tools/ssq_multi_source.py:37-39 | A piece contributes the region and count of its leftmost match, even if later positions match too. |
| Distribution.PieceWithoutMatch | tools/ssq_multi_source.py:38 | A piece with no match contributes nothing. |
| Distribution.Found | tools/ssq_multi_source.py:36-38 | There are no more pairs than pieces. |
| Distribution.FoundStep | tools/ssq_multi_source.py:36-39 | Taking one more piece appends the pair SearchPiece finds in it, or nothing when the piece has no match. |
| Distribution.EmptyText | tools/ssq_multi_source.py:35 | An empty text gives the empty dict. |
| Distribution.SumsPerRegion | tools/ssq_multi_source.py:40 | A region's value is the sum of all its matched counts, not its last one. |
| Distribution.RegionsInOrder | tools/ssq_multi_source.py:40 | The regions appear once each, in first-seen order. |
| Distribution.TotalOfCounts | tools/ssq_multi_source.py:40 | The values add up to the total of all matched counts. |
| DistributionExamples.ParseExample | tools/ssq_multi_source.py:33-41 | "广东3注，上海2注，广东1注" gives {广东: 4, 上海: 2}. |
| DistributionExamples.MaxExample | tools/ssq_multi_source.py:82 | For "广东3注，上海2注，广东1注" the single-region maximum is 4. |
| DistributionExamples.PieceEntry | tools/ssq_multi_source.py:37-39 | A piece "RRd注" gives region RR and the digit's value. |
| DistributionExamples.SplitThree | tools/ssq_multi_source.py:36 | Three such pieces joined by '，' split back into them. |
| DistributionExamples.TallyThree | tools/ssq_multi_source.py:40 | A key, another key, then the first key again: the first key's counts add up in its first place. |
| OrderedDict.Get | tools/ssq_multi_source.py:40 | No ensures of its own: `d.get(k, 0)`. OrderedDict.AddGet, OrderedDict.GetUpdated, OrderedDict.GetAppended and OrderedDict.TallyGet state its values. |
| OrderedDict.GetUpdated | tools/ssq_multi_source.py:40 | Updating an existing key's item in place raises that key's value by n and leaves every other key's value alone. |
| OrderedDict.GetAppended | tools/ssq_multi_source.py:40 | Appending an item for an absent key gives that key the count n and leaves every other key's value alone. |
| OrderedDict.Add | tools/ssq_multi_source.py:40 | An existing key keeps its place. A new key is appended. Keys stay distinct. |
| OrderedDict.AddGet | tools/ssq_multi_source.py:40 | The updated key gains n and every other key keeps its value. |
| OrderedDict.AddKeepsOthers | tools/ssq_multi_source.py:40 | Items with another key are unchanged. |
| OrderedDict.AddTotal | tools/ssq_multi_source.py:40 | One update raises the sum of the values by n. |
| OrderedDict.Find | tools/ssq_multi_source.py:40 | The position found holds the key, and no earlier position does. |
| OrderedDict.Tally | tools/ssq_multi_source.py:34-40 | The accumulated dict has distinct keys. |
| OrderedDict.TallyGet | tools/ssq_multi_source.py:40 | Each key maps to the sum of its counts. |
| OrderedDict.TallyKeys | tools/ssq_multi_source.py:40 | The keys are the first-seen order of the input keys. |
| OrderedDict.FirstSeenHas | tools/ssq_multi_source.py:40 | A key is present exactly when some input carries it. |
| OrderedDict.TallyTotal | tools/ssq_multi_source.py:40 | The values add up to the sum of all counts. |
| Json.Encode | tools/ssq_multi_source.py:81 | No ensures of its own: `json.dumps(dist, ensure_ascii=False, separators=(",",":"))`. Json.RoundTrip states that Json.Decode reads it back; Json.EscapeChar and Json.RegionKeyVerbatim state how keys are written. |
| Json.Decode | tools/ssq_multi_source.py:81 | No ensures of its own: the reader of the compact encoding, the partner of Json.Encode. Json.RoundTrip states the round trip. |
| Json.RoundTrip | tools/ssq_multi_source.py:81 | Decoding the compact encoding gives back the dict, keys in the same order. |
| Json.JsonColumn | tools/ssq_multi_source.py:81 | The JSON column is None exactly when the dict is empty. When present, it decodes to the dict. |
| Json.MaxCount | tools/ssq_multi_source.py:82 | The maximum is None exactly when the dict is empty. Otherwise it is at least every value and equals one of them. |
| Json.EscapeChar | tools/ssq_multi_source.py:81 | Escaped output never starts with '"'. It starts with a backslash exactly for '"', backslash and control characters. |
| Json.DecodeEscapedChar | tools/ssq_multi_source.py:81 | Every escaped character decodes back to itself. |
| Json.HexRoundTrip | tools/ssq_multi_source.py:81 | The hex digit written for v reads back as v. |
| Json.CountRead | tools/ssq_multi_source.py:81 | A written count reads back as itself. |
| Json.RegionKeyVerbatim | tools/ssq_multi_source.py:81 | A region name (CJK and ·) is written without escapes. |
| Rows.BuildRows | tools/ssq_multi_source.py:58-84 | There is one record per block, in order, each with exactly the fifteen columns. All records agree on the six page-wide columns. |
| Rows.PageValues | tools/ssq_multi_source.py:65-82 | The page-wide values use the distribution `_parse_dist` computes from `dist_raw or ""`. |
| Rows.RecordNumbers | tools/ssq_multi_source.py:61-78 | Reds 1..6 are the six printed numbers in printed order and the blue is the printed blue, all in 0..99. |
| Rows.RedList | tools/ssq_multi_source.py:62 | `reds_list` has six entries, the q-th being the q-th printed pair, each below 100. |
| Rows.Pairs | tools/ssq_multi_source.py:62 | Every number `findall(r"\d{2}")` yields is below 100. |
| Rows.TwoDigits | tools/ssq_multi_source.py:62-63 | A two-digit number is below 100. |
| Rows.RecordKeys | tools/ssq_multi_source.py:74-83 | The definition of Rows.RecordWith read back: a record's keys are exactly the fifteen columns. Rows.BuildRows carries it to every built record. |
| Rows.PageFieldsShared | tools/ssq_multi_source.py:65-82 | Two records of one page agree on every page-wide column. |
| Rows.RecordDistColumns | tools/ssq_multi_source.py:73-82 | In every record of a page the JSON column is None exactly when the page's parsed distribution is empty, and otherwise decodes back to that distribution. The maximum column is None exactly when it is empty, and otherwise is an upper bound of its counts that one count reaches. |
| Rows.RecordNamed | tools/ssq_multi_source.py:74-83 | Every key of a record is one of the fifteen named columns. |
| Rows.JsonCell | tools/ssq_multi_source.py:81 | The JSON cell is None exactly when the distribution is empty. A text cell decodes to the distribution. |
| Rows.MaxCell | tools/ssq_multi_source.py:82 | The maximum cell is None exactly when the distribution is empty. Otherwise it is an upper bound attained by some value. |
| Rows.PairsOfReds | tools/ssq_multi_source.py:62 | The pairs `findall(r"\d{2}")` yields from a six-pair reds text are the six printed pairs, in order. |
| Rows.Field | tools/ssq_multi_source.py:74-83 | No ensures of its own: the value the row dict gives each column. Rows.RecordAt, Rows.RedField and Rows.RecordNumbers state the values. |
| Rows.RedField | tools/ssq_multi_source.py:76-77 | Red column q holds the q-th red number. |
| Rows.PageCellsOf | tools/ssq_multi_source.py:65-82 | No ensures of its own: the six page-wide values. Rows.PageValues, Rows.PageFieldsShared and Rows.RecordDistColumns state what they are and that every record shares them. |
| Rows.DistInput | tools/ssq_multi_source.py:72-73 | No ensures of its own: `dist_raw or ""`. Rows.PageValues states that the distribution is parsed from it. |
| Rows.RecordOf | tools/ssq_multi_source.py:72-83 | No ensures of its own: the record the loop appends for one block. Rows.BuildRows, Rows.RecordNumbers, Rows.RecordDistColumns and Rows.RecordNamed state its contents. |
| Rows.RecordWith | tools/ssq_multi_source.py:74-83 | No ensures of its own: the fifteen columns and their values. Rows.RecordKeys, Rows.RecordAt and Rows.PageFieldsShared state its keys and values. |
| Rows.RecordAt | tools/ssq_multi_source.py:74-83 | The definition of Rows.RecordWith read back: each of the fifteen columns is present and holds Rows.Field's value. The content is in Rows.RecordNumbers, Rows.RecordDistColumns and Rows.PageFieldsShared, which use it. |
| Rows.AmountCell | tools/ssq_multi_source.py:67-68 | No ensures of its own: `_money_to_yuan(group) if match else None`. Its properties are those of Money.MoneyToYuan. |
| Rows.CountCell | tools/ssq_multi_source.py:70-71 | No ensures of its own: `int(group) if match else None`. Text.DigitsValue and Text.DigitsValueAppend state how digit strings read. |
| Rows.TopDist | tools/ssq_multi_source.py:53-56 | No ensures of its own: the captured distribution text stripped of whitespace. Text.Strip states what the strip keeps. |
| Rows.DrawOf | tools/ssq_multi_source.py:61-63 | A block yields six reds. |
| Yiqicai.TallyIssues | tools/ssq_multi_source.py:95-101 | The `setdefault` then `+=` loop builds the ordered tally of the (issue, n) matches. |
| Yiqicai.SetDefaultThenAdd | tools/ssq_multi_source.py:100-101 | `setdefault(k, 0)` followed by `+= n` is one addition of n. |
| Yiqicai.IssueTotals | tools/ssq_multi_source.py:95-101 | Each issue maps to the sum of its counts, and an issue is present exactly when some match names it. |
| Yiqicai.IssuesInOrder | tools/ssq_multi_source.py:95-101 | The issues appear once each, in the order of their first match. |
| Table.Frame.constructor | tools/ssq_multi_source.py:126 | `pd.DataFrame(rows)`: the columns are every key of every row, and each row is widened to them. |
| Table.Frame.AddMissing | tools/ssq_multi_source.py:133-134 | After the loop the columns are the old ones plus the given ones. Each row is its old dict widened with None. |
| Table.Frame.Select | tools/ssq_multi_source.py:135 | `df[cols]` has one row per frame row and one cell per selected column. |
| Table.Project | tools/ssq_multi_source.py:133-135 | No ensures of its own: one row's fifteen cells. Table.ProjectCells states them. |
| Table.ScrapedNamed | tools/ssq_multi_source.py:74-83 | The rows `fetch_from_17500_list` builds meet the precondition of Table.Excel: every key is well named. |
| Table.Projected | tools/ssq_multi_source.py:135 | The selected table has one row per record and fifteen cells per row. |
| Table.SelectIsProjection | tools/ssq_multi_source.py:133-135 | After the missing columns are added, selecting the fifteen gives each record's value or None. |
| Table.ProjectCells | tools/ssq_multi_source.py:130-135 | The definition of Table.Project read back: fifteen cells, a row's value for each fixed column it has and None for each it lacks. Table.SelectIsProjection ties it to the frame steps. |
| Table.Insert | tools/ssq_multi_source.py:135 | Insertion adds the row to the multiset of rows. |
| Table.InsertSorted | tools/ssq_multi_source.py:135 | Insertion into a sorted table keeps it sorted. |
| Table.SortByIssue | tools/ssq_multi_source.py:135 | The result is sorted by 期号 and is a permutation of the input: same rows, duplicates kept. |
| Table.StrLe | tools/ssq_multi_source.py:135 | No ensures of its own: Python's str order. Table.StrLeTotal and Table.IssueOrder state its properties. |
| Table.KeyLe | tools/ssq_multi_source.py:135 | No ensures of its own: the 期号 order of `sort_values`, None last. Table.KeyLeTotal states that it is total. |
| Table.KeyLeTotal | tools/ssq_multi_source.py:135 | The 期号 order is total. |
| Table.StrLeTotal | tools/ssq_multi_source.py:135 | Python's str order is total. |
| Table.IssueOrder | tools/ssq_multi_source.py:135 | Two digit-string 期号 of equal length compare as strings exactly as their numbers compare. |
| Table.Excel | tools/ssq_multi_source.py:125-136 | No ensures of its own: what `to_excel` returns, or why it raises. Table.ExcelEmpty, Table.ExcelOk and Table.ExcelOrderable state its cases, and Table.ToExcel is proved equal to it. |
| Table.EmptyFrame | tools/ssq_multi_source.py:127 | No ensures of its own: `df.empty`, no rows or no columns. Table.ExcelEmpty states that it holds exactly when no row has a key. |
| Table.Frame.IsEmpty | tools/ssq_multi_source.py:127 | No ensures of its own: `df.empty` on the frame. The constructor's ensures make it Table.EmptyFrame of the rows, which Table.ToExcel's ensures rests on. |
| Table.Orderable | tools/ssq_multi_source.py:135 | No ensures of its own: the sort raises TypeError exactly when the 期号 column mixes ints and strs. Table.ExcelOrderable states that scraped rows never do. |
| Table.ExcelEmpty | tools/ssq_multi_source.py:126-128 | `to_excel` raises for an empty table exactly when no row has any key, in particular for no rows. |
| Table.ExcelOk | tools/ssq_multi_source.py:126-136 | On success there is one row per input row, fifteen cells each, sorted by 期号. The rows are the projected input rows in some order, except that the last one went through the override. |
| Table.ExcelOrderable | tools/ssq_multi_source.py:135 | Rows whose 期号 is always a str, or missing, never make the sort raise. |
| Table.ToExcel | tools/ssq_multi_source.py:125-136 | The in-place frame steps compute `Excel(records, z)`. |
| Table.SortAndFill | tools/ssq_multi_source.py:135-136 | The sorted rows are copied to an array and overridden in place. |
| Table.FillLatest | tools/ssq_multi_source.py:117-120 | The in-place array override yields `Filled` of the old table. |
| Table.FillRow | tools/ssq_multi_source.py:117-120 | No ensures of its own: the override of one row. Table.FillOnlyLast and Table.FilledColumns state which cells change and to what. |
| Table.Filled | tools/ssq_multi_source.py:117-120 | No ensures of its own: the table with its last row overridden. Table.FillOnlyLast, Table.FilledSorted and Table.FilledLast state its properties. |
| Table.FillOnlyLast | tools/ssq_multi_source.py:117-120 | Only the last row changes, and in it only the matched fields, each set to the page's value. |
| Table.FilledColumns | tools/ssq_multi_source.py:118-120 | The overridden positions are the sales, pool and first-tier count columns. |
| Table.FilledSorted | tools/ssq_multi_source.py:117-120 | The override keeps the 期号 column, so a sorted table stays sorted. |
| Table.FilledLast | tools/ssq_multi_source.py:117-120 | The overridden table is the old one with its last row through the override. |
| Table.SameWidth | tools/ssq_multi_source.py:135 | Sorting keeps every row fifteen cells wide. |

## Left out

- Network and file I/O are not modelled: `requests.get`, `raise_for_status`, BeautifulSoup's `get_text`, `os.makedirs`, `df.to_excel`, `argparse` and `main`. The fetched texts become parameters.
- The regular expressions run over the whole page are not modelled. Their captured groups are inputs (`Option<string>`, None when no match). They are:
  - the block extractor of line 60;
  - `本期一等奖中奖地` (line 54);
  - `投注总额`, `奖池金额` and `共X注` (lines 65-70);
  - the 中彩网 patterns (lines 114-116);
  - the lazy issue matcher of line 96.

  Each input is constrained only by what its group can match: a `[0-9]+` group is a non-empty digit string, and a block has the `20\d{5}`, date, six-pair and `\d{2}` shapes.
- A failed 中彩网 fetch is modelled as all three groups being None, which is what the `try/except` leaves the table as.
- Money.Scaled: `int(round(float(x) * 1e8))` (or `* 1e4` for 万) is computed on the exact decimal, ties to even. Python rounds twice in binary floating point: once for `float(x)` and once for the product. The two agree when the literal has at most 8 (亿) or 4 (万) fractional digits and the exact amount is below about 2^51 (2.25 * 10^15 yuan). Beyond that they can differ: for "123456789012亿" the model gives 12345678901200000000 where Python's float product gives 12345678901199998976. With more fractional digits the float may also round the other way at a tie. An OverflowError on an enormous literal, which the `try/except` of the 中彩网 override would swallow after a partial update, is not modelled.
- Money.AmountIn, Distribution.ScanEntry, Rows.CountCell, Table.FillRow and Text.NatToString: `int()` of a digit string (lines 31, 39, 71 and 120) and `str(n)` inside `json.dumps` (line 81) are unbounded in the model. Python 3.11 and later, and the patched 3.7 to 3.10 releases, raise ValueError for a decimal string longer than `sys.get_int_max_str_digits()` (4300 digits by default). At lines 31, 39 and 71 that error reaches the caller of `fetch_from_17500_list`; at line 120 the `try/except` swallows it after the sales and pool may already have been overwritten, so the override stops part-way. The model reads such strings as numbers, so Money.NoneIffNoDigit and the lemmas about these members hold only for digit strings within that limit.
- Text.IsDigit: `\d` in `_parse_dist` and in the row patterns matches any Unicode decimal digit. The model accepts ASCII digits only. `[0-9]` in `_money_to_yuan` is ASCII as modelled.
- Json.Decode: the decoder is the partner of the encoder. It does not read `\u` surrogate pairs, which the encoder never writes because it writes non-ASCII characters as they are.
- Table.SortByIssue: pandas' default quicksort is not stable. The order of rows with equal 期号 is not claimed, only sortedness and the permutation. NaN (a missing 期号) sorts last.
- Table.Excel: a table mixing int and str 期号 values makes pandas raise TypeError. This is modelled as the `Unorderable` error. The rows built by `fetch_from_17500_list` always have str 期号 (Table.ExcelOrderable).
- Table.Frame: the DataFrame's column order is a set in the model. The final order is fixed by the selection of the fifteen columns, which is what the output shows. Extra columns are dropped by that selection.
- Pandas dtype coercion is not modelled: an int column holding None becomes float64 with NaN. Cells keep their Python values (None, int, str).
- Table.Excel: a dict key is a str, and the model's key is a `Column`. An `Other` key spelling one of the fifteen headers would be a second key for a str the dict can only hold once. `Table.Excel`, `Table.ToExcel` and their lemmas therefore require every key to be well named (`Rows.WellNamed`). The rows `fetch_from_17500_list` builds always are (Table.ScrapedNamed).
- The row dict of `fetch_from_17500_list` uses the Chinese header strings as keys. The model uses the `Column` datatype, and `Rows.Name` gives each column's exact header.

/** The amount normaliser `_money_to_yuan`: a money text such as "1.2亿",
    "3,456万" or "5000000" read as a whole number of yuan. Three patterns are
    tried in a fixed order over the whole text, and the first that matches
    anywhere decides. */
module Money {
  import opened Text

  /** 亿, a hundred million (10^8). */
  const Yi: char := '亿'
  /** 万, ten thousand (10^4). */
  const Wan: char := '万'

  /** A decimal literal as `[0-9]+(\.[0-9]+)?` matches it: its integer digits
      and its fractional digits (empty when the literal has no point). */
  datatype Decimal = Decimal(whole: string, frac: string)

  predicate WellFormed(d: Decimal) {
    |d.whole| > 0 && AllDigits(d.whole) && AllDigits(d.frac)
  }

  /** The characters the literal occupies in the text. */
  function Lexeme(d: Decimal): string {
    if d.frac == [] then d.whole else d.whole + "." + d.frac
  }

  /** The literal times 10^|frac|, the integer it denotes once the point is dropped. */
  function Numerator(d: Decimal): nat
    requires WellFormed(d)
  {
    DigitsValueAppend(d.whole, d.frac);
    DigitsValue(d.whole + d.frac)
  }

  function Distance(a: int, b: int): nat {
    if a <= b then b - a else a - b
  }

  /** n / den rounded to the nearest integer, a tie going to the even neighbour
      (Python's `round`). */
  function RoundHalfEven(n: nat, den: nat): (r: nat)
    requires den >= 1
    ensures 2 * Distance(r * den, n) <= den
    ensures 2 * Distance(r * den, n) == den ==> r % 2 == 0
  {
    var q, rem := n / den, n % den;
    NeighbourDistances(n, den, q, rem);
    if 2 * rem < den || (2 * rem == den && q % 2 == 0) then q else q + 1
  }

  /** n lies between the multiples q * den and (q + 1) * den of den. */
  lemma NeighbourDistances(n: nat, den: nat, q: nat, rem: nat)
    requires den >= 1 && q == n / den && rem == n % den
    ensures Distance(q * den, n) == rem
    ensures Distance((q + 1) * den, n) == den - rem
  {
    assert n == q * den + rem;
    assert (q + 1) * den == q * den + den;
  }

  lemma MulAssoc(a: nat, b: nat, c: nat)
    ensures (a * b) * c == a * (b * c)
  {
  }

  /** `int(round(float(d) * 10^e))` on exact decimals: when the literal has at
      most e fractional digits the product is exact; otherwise it is rounded to
      the nearest integer, a tie going to the even neighbour. */
  function Scaled(d: Decimal, e: nat): (r: nat)
    requires WellFormed(d)
    ensures |d.frac| <= e ==> r * Pow10(|d.frac|) == Numerator(d) * Pow10(e)
    ensures |d.frac| > e ==>
      && 2 * Distance(r * Pow10(|d.frac| - e), Numerator(d)) <= Pow10(|d.frac| - e)
      && (2 * Distance(r * Pow10(|d.frac| - e), Numerator(d)) == Pow10(|d.frac| - e) ==> r % 2 == 0)
  {
    var n, l := Numerator(d), |d.frac|;
    if l <= e then
      Pow10Add(e - l, l);
      MulAssoc(n, Pow10(e - l), Pow10(l));
      n * Pow10(e - l)
    else
      RoundHalfEven(n, Pow10(l - e))
  }

  /** With at most e fractional digits, the scaled amount is the integer part
      times 10^e plus the fractional digits shifted into place. */
  lemma ScaledParts(d: Decimal, e: nat)
    requires WellFormed(d) && |d.frac| <= e
    ensures Scaled(d, e) == DigitsValue(d.whole) * Pow10(e) + DigitsValue(d.frac) * Pow10(e - |d.frac|)
  {
    var l := |d.frac|;
    var n := Numerator(d);
    assert Scaled(d, e) == n * Pow10(e - l);
    DigitsValueAppend(d.whole, d.frac);
    Pow10Add(l, e - l);
    SpreadProduct(n, DigitsValue(d.whole), Pow10(l), DigitsValue(d.frac), Pow10(e - l), Pow10(e));
  }

  lemma SpreadProduct(n: nat, w: nat, a: nat, f: nat, b: nat, p: nat)
    requires n == w * a + f && p == a * b
    ensures n * b == w * p + f * b
  {
  }

  /** `txt.replace(",", "")`: only the ASCII comma goes, every other character stays. */
  function RemoveCommas(s: string): (r: string)
    ensures ',' !in r
  {
    if s == [] then [] else (if s[0] == ',' then [] else [s[0]]) + RemoveCommas(s[1..])
  }

  /** Only the commas go: every other character keeps its number of occurrences. */
  lemma {:induction false} RemoveCommasCount(s: string)
    ensures multiset(RemoveCommas(s)) == multiset(s)[',' := 0]
  {
    if s != [] {
      assert s == [s[0]] + s[1..];
      RemoveCommasCount(s[1..]);
    }
  }

  lemma {:induction false} RemoveCommasAppend(x: string, y: string)
    ensures RemoveCommas(x + y) == RemoveCommas(x) + RemoveCommas(y)
  {
    if x != [] {
      assert (x + y)[1..] == x[1..] + y;
      RemoveCommasAppend(x[1..], y);
    } else {
      assert x + y == y;
    }
  }

  /** The text the three patterns are searched in: `txt.replace(",", "").strip()`. */
  function Cleaned(s: string): string {
    Strip(RemoveCommas(s), Space)
  }

  /** The regular expression `([0-9]+(?:\.[0-9]+)?)\s*<sfx>` matches at position i
      of t, capturing the literal d, with w whitespace characters before the suffix. */
  ghost predicate SuffixMatch(t: string, i: nat, sfx: char, d: Decimal, w: nat) {
    && WellFormed(d)
    && i + |Lexeme(d)| + w < |t|
    && t[i..i + |Lexeme(d)|] == Lexeme(d)
    && (forall k :: i + |Lexeme(d)| <= k < i + |Lexeme(d)| + w ==> IsSpace(t[k]))
    && t[i + |Lexeme(d)| + w] == sfx
  }

  /** The suffix is none of the characters the literal and the gap are made of. */
  predicate IsSuffix(sfx: char) {
    !IsDigit(sfx) && !IsSpace(sfx) && sfx != '.'
  }

  /** The same pattern tried at position i by a left-to-right scan: the longest
      digit run, then a point and digits if both are there, then whitespace,
      then the suffix. */
  function ScanSuffixed(t: string, i: nat, sfx: char): (r: Option<Decimal>)
    requires i <= |t|
    ensures r.Some? ==> WellFormed(r.value)
  {
    if i < |t| && IsDigit(t[i]) then
      var j := RunEnd(t, i, Digit);
      var k := if j + 1 < |t| && t[j] == '.' && IsDigit(t[j + 1]) then RunEnd(t, j + 1, Digit) else j;
      var m := RunEnd(t, k, Space);
      if m < |t| && t[m] == sfx then
        Some(Decimal(t[i..j], if k == j then [] else t[j + 1..k]))
      else None
    else None
  }

  /** What the scan finds is a match of the pattern. */
  lemma ScanSound(t: string, i: nat, sfx: char)
    requires i <= |t| && ScanSuffixed(t, i, sfx).Some?
    ensures exists w :: SuffixMatch(t, i, sfx, ScanSuffixed(t, i, sfx).value, w)
  {
    var j := RunEnd(t, i, Digit);
    var k := if j + 1 < |t| && t[j] == '.' && IsDigit(t[j + 1]) then RunEnd(t, j + 1, Digit) else j;
    var m := RunEnd(t, k, Space);
    var d := Decimal(t[i..j], if k == j then [] else t[j + 1..k]);
    assert ScanSuffixed(t, i, sfx) == Some(d);
    if k != j {
    }
    MatchAt(t, i, j, k, m, sfx);
  }

  /** The pieces the scan delimits make up a match. */
  lemma MatchAt(t: string, i: nat, j: nat, k: nat, m: nat, sfx: char)
    requires i < j <= k <= m < |t| && k != j + 1
    requires forall q :: i <= q < j ==> IsDigit(t[q])
    requires k > j ==> t[j] == '.' && forall q :: j + 1 <= q < k ==> IsDigit(t[q])
    requires forall q :: k <= q < m ==> IsSpace(t[q])
    requires t[m] == sfx
    ensures SuffixMatch(t, i, sfx, Decimal(t[i..j], if k == j then [] else t[j + 1..k]), m - k)
  {
    var d := Decimal(t[i..j], if k == j then [] else t[j + 1..k]);
    if k == j {
      assert t[i..k] == Lexeme(d);
    } else {
      LexemeSplit(t, i, j, k);
    }
  }

  /** A digit run, a point and a digit run, read back as a literal. */
  lemma LexemeSplit(t: string, i: nat, j: nat, k: nat)
    requires i < j && j + 1 < k <= |t| && t[j] == '.'
    ensures t[i..k] == Lexeme(Decimal(t[i..j], t[j + 1..k]))
  {
    assert t[i..k] == t[i..j] + [t[j]] + t[j + 1..k];
  }

  /** Where a literal stands in a text, its parts stand at fixed offsets. */
  lemma LexemeAt(t: string, i: nat, d: Decimal)
    requires WellFormed(d) && i + |Lexeme(d)| <= |t| && t[i..i + |Lexeme(d)|] == Lexeme(d)
    ensures forall k :: i <= k < i + |d.whole| ==> IsDigit(t[k])
    ensures t[i..i + |d.whole|] == d.whole
    ensures d.frac == [] ==> |Lexeme(d)| == |d.whole|
    ensures d.frac != [] ==>
      && |Lexeme(d)| == |d.whole| + 1 + |d.frac|
      && t[i + |d.whole|] == '.'
      && t[i + |d.whole| + 1..i + |Lexeme(d)|] == d.frac
      && forall k :: i + |d.whole| + 1 <= k < i + |Lexeme(d)| ==> IsDigit(t[k])
  {
    var g, wl := Lexeme(d), |d.whole|;
    assert g[..wl] == d.whole;
    assert forall k :: i <= k < i + wl ==> t[k] == d.whole[k - i];
    if d.frac != [] {
      assert g[wl] == '.';
      assert g[wl + 1..] == d.frac;
      assert forall k :: i + wl + 1 <= k < i + |g| ==> t[k] == d.frac[k - i - wl - 1];
    }
  }

  /** A match of the pattern is what the scan finds: the capture is unique. */
  lemma ScanComplete(t: string, i: nat, sfx: char, d: Decimal, w: nat)
    requires IsSuffix(sfx) && SuffixMatch(t, i, sfx, d, w)
    ensures ScanSuffixed(t, i, sfx) == Some(d)
  {
    LexemeAt(t, i, d);
    var j, k := i + |d.whole|, i + |Lexeme(d)|;
    AfterLiteral(t, k, w, sfx);
    if d.frac == [] {
      ScanAtWhole(t, i, j, k + w, sfx);
    } else {
      ScanAtFrac(t, i, j, k, k + w, sfx);
    }
  }

  /** The gap and the suffix after a literal: the scan's whitespace run ends at the suffix. */
  lemma AfterLiteral(t: string, k: nat, w: nat, sfx: char)
    requires IsSuffix(sfx) && k + w < |t| && t[k + w] == sfx
    requires forall q :: k <= q < k + w ==> IsSpace(t[q])
    ensures !IsDigit(t[k]) && t[k] != '.'
    ensures RunEnd(t, k, Space) == k + w
  {
    if w > 0 { assert IsSpace(t[k]); }
    RunEndIs(t, k, k + w, Space);
  }

  /** The scan at i when the literal there has no point. */
  lemma ScanAtWhole(t: string, i: nat, j: nat, m: nat, sfx: char)
    requires i < j <= m < |t|
    requires forall q :: i <= q < j ==> IsDigit(t[q])
    requires !IsDigit(t[j]) && t[j] != '.'
    requires RunEnd(t, j, Space) == m && t[m] == sfx
    ensures ScanSuffixed(t, i, sfx) == Some(Decimal(t[i..j], []))
  {
    RunEndIs(t, i, j, Digit);
  }

  /** The scan at i when the literal there has a point and fractional digits. */
  lemma ScanAtFrac(t: string, i: nat, j: nat, k: nat, m: nat, sfx: char)
    requires i < j && j + 1 < k <= m < |t|
    requires forall q :: i <= q < j ==> IsDigit(t[q])
    requires t[j] == '.'
    requires forall q :: j + 1 <= q < k ==> IsDigit(t[q])
    requires !IsDigit(t[k])
    requires RunEnd(t, k, Space) == m && t[m] == sfx
    ensures ScanSuffixed(t, i, sfx) == Some(Decimal(t[i..j], t[j + 1..k]))
  {
    RunEndIs(t, i, j, Digit);
    RunEndIs(t, j + 1, k, Digit);
  }

  /** `re.search` for that pattern: the leftmost position at or after `from`
      where it matches, with its capture. */
  function FindSuffixed(t: string, sfx: char, from: nat): (r: Option<(nat, Decimal)>)
    requires from <= |t|
    ensures r.Some? ==> from <= r.value.0 < |t| && ScanSuffixed(t, r.value.0, sfx) == Some(r.value.1)
    ensures forall j :: from <= j < |t| && (r.None? || j < r.value.0) ==> ScanSuffixed(t, j, sfx).None?
    decreases |t| - from
  {
    if from == |t| then None
    else
      var here := ScanSuffixed(t, from, sfx);
      if here.Some? then Some((from, here.value)) else FindSuffixed(t, sfx, from + 1)
  }

  /** The three searches of `_money_to_yuan` on the cleaned text, in order: the
      first "decimal 亿" anywhere, else the first "decimal 万" anywhere, else the
      first run of digits, else None. */
  function AmountIn(t: string): Option<nat> {
    match FindSuffixed(t, Yi, 0)
    case Some((_, d)) => Some(Scaled(d, 8))
    case None =>
      match FindSuffixed(t, Wan, 0)
      case Some((_, d)) => Some(Scaled(d, 4))
      case None =>
        match FirstIn(t, 0, Digit)
        case Some(i) =>
          Some(DigitsValue(t[i..RunEnd(t, i, Digit)]))
        case None => None
  }

  /** `_money_to_yuan`: None for a missing or empty text, else the amount found
      in the text once its ASCII commas are gone and its ends are trimmed. */
  function MoneyToYuan(txt: Option<string>): Option<nat> {
    if txt.None? || txt.value == [] then None else AmountIn(Cleaned(txt.value))
  }

  /** The empty-text guard changes nothing: an empty text has no amount anyway. */
  lemma MoneyOfText(s: string)
    ensures MoneyToYuan(Some(s)) == AmountIn(Cleaned(s))
  {
    if s == [] {
      assert RemoveCommas(s) == [];
      assert Cleaned(s) == [];
    }
  }

  /** Two texts with the same number of each digit agree on having none. */
  lemma SameDigits(a: string, b: string)
    requires forall c {:trigger multiset(a)[c]} :: IsDigit(c) ==> multiset(a)[c] == multiset(b)[c]
    ensures NoneIn(a, Digit) <==> NoneIn(b, Digit)
  {
    if !NoneIn(a, Digit) {
      var k :| 0 <= k < |a| && IsDigit(a[k]);
      assert multiset(a)[a[k]] > 0;
    }
    if !NoneIn(b, Digit) {
      var k :| 0 <= k < |b| && IsDigit(b[k]);
      assert multiset(b)[b[k]] > 0;
      assert multiset(a)[b[k]] > 0;
    }
  }

  /** A digit of the original text survives cleaning, and cleaning adds none. */
  lemma CleanedKeepsDigits(s: string)
    ensures NoneIn(Cleaned(s), Digit) <==> NoneIn(s, Digit)
  {
    var r := RemoveCommas(s);
    RemoveCommasCount(s);
    forall c | IsDigit(c) ensures multiset(Cleaned(s))[c] == multiset(s)[c] {
      assert !IsSpace(c) && c != ',';
      assert multiset(Cleaned(s))[c] == multiset(r)[c];
    }
    SameDigits(Cleaned(s), s);
  }

  /** The amount is None exactly when there is no text or the text has no ASCII
      digit at all; any digit makes at least the last pattern match. */
  lemma {:induction false} NoneIffNoDigit(txt: Option<string>)
    ensures MoneyToYuan(txt).None? <==> txt.None? || NoneIn(txt.value, Digit)
  {
    if txt.Some? {
      var t := Cleaned(txt.value);
      MoneyOfText(txt.value);
      CleanedKeepsDigits(txt.value);
      if NoneIn(t, Digit) {
        assert FindSuffixed(t, Yi, 0).None?;
        assert FindSuffixed(t, Wan, 0).None?;
        assert FirstIn(t, 0, Digit).None?;
      } else {
        var q :| 0 <= q < |t| && IsDigit(t[q]);
        assert FirstIn(t, 0, Digit).Some?;
      }
    }
  }

  /** The leftmost match of a suffixed pattern, stated without the scanner. */
  ghost predicate FirstSuffixMatch(t: string, i: nat, sfx: char, d: Decimal, w: nat) {
    && SuffixMatch(t, i, sfx, d, w)
    && forall j: nat, d', w' :: j < i ==> !SuffixMatch(t, j, sfx, d', w')
  }

  ghost predicate NoSuffixMatch(t: string, sfx: char) {
    forall j: nat, d, w :: !SuffixMatch(t, j, sfx, d, w)
  }

  /** The search finds the leftmost match of the pattern. */
  lemma FindsFirst(t: string, sfx: char, i: nat, d: Decimal, w: nat)
    requires IsSuffix(sfx) && FirstSuffixMatch(t, i, sfx, d, w)
    ensures FindSuffixed(t, sfx, 0) == Some((i, d))
  {
    ScanComplete(t, i, sfx, d, w);
    var r := FindSuffixed(t, sfx, 0);
    if r.value.0 < i {
      ScanSound(t, r.value.0, sfx);
      assert false;
    }
  }

  /** Where the scan fails, the pattern has no match at all. */
  lemma NoMatchAt(t: string, j: nat, sfx: char)
    requires IsSuffix(sfx) && j <= |t| && ScanSuffixed(t, j, sfx).None?
    ensures forall d, w :: !SuffixMatch(t, j, sfx, d, w)
  {
    forall d, w | SuffixMatch(t, j, sfx, d, w) ensures false {
      ScanComplete(t, j, sfx, d, w);
    }
  }

  /** A text without the suffix character has no match anywhere. */
  lemma NoSuffixChar(t: string, sfx: char)
    requires sfx !in t
    ensures NoSuffixMatch(t, sfx)
  {
  }

  /** The search finds nothing when the pattern matches nowhere. */
  lemma FindsNone(t: string, sfx: char)
    requires NoSuffixMatch(t, sfx)
    ensures FindSuffixed(t, sfx, 0).None?
  {
    var r := FindSuffixed(t, sfx, 0);
    if r.Some? {
      ScanSound(t, r.value.0, sfx);
      assert false;
    }
  }

  /** The leftmost "decimal 亿" decides, wherever it is, even after a 万 amount
      or bare digits. */
  lemma {:induction false} YiFirst(s: string, i: nat, d: Decimal, w: nat)
    requires FirstSuffixMatch(Cleaned(s), i, Yi, d, w)
    ensures MoneyToYuan(Some(s)) == Some(Scaled(d, 8))
  {
    MoneyOfText(s);
    FindsFirst(Cleaned(s), Yi, i, d, w);
  }

  /** With no "decimal 亿" anywhere, the leftmost "decimal 万" decides. */
  lemma {:induction false} WanFirst(s: string, i: nat, d: Decimal, w: nat)
    requires NoSuffixMatch(Cleaned(s), Yi)
    requires FirstSuffixMatch(Cleaned(s), i, Wan, d, w)
    ensures MoneyToYuan(Some(s)) == Some(Scaled(d, 4))
  {
    MoneyOfText(s);
    FindsNone(Cleaned(s), Yi);
    FindsFirst(Cleaned(s), Wan, i, d, w);
  }

  /** With neither suffix anywhere, the amount is the first run of digits alone:
      a point ends it, so "1.5" reads as 1. */
  lemma {:induction false} DigitsOnly(s: string, i: nat, e: nat)
    requires NoSuffixMatch(Cleaned(s), Yi) && NoSuffixMatch(Cleaned(s), Wan)
    requires i < e <= |Cleaned(s)| && AllDigits(Cleaned(s)[i..e])
    requires e == |Cleaned(s)| || !IsDigit(Cleaned(s)[e])
    requires NoneIn(Cleaned(s)[..i], Digit)
    ensures MoneyToYuan(Some(s)) == Some(DigitsValue(Cleaned(s)[i..e]))
  {
    MoneyOfText(s);
    FirstRun(Cleaned(s), i, e);
  }

  /** The third pattern on a text where the first two match nowhere. */
  lemma FirstRun(t: string, i: nat, e: nat)
    requires NoSuffixMatch(t, Yi) && NoSuffixMatch(t, Wan)
    requires i < e <= |t| && AllDigits(t[i..e])
    requires e == |t| || !IsDigit(t[e])
    requires NoneIn(t[..i], Digit)
    ensures AmountIn(t) == Some(DigitsValue(t[i..e]))
  {
    FindsNone(t, Yi);
    FindsNone(t, Wan);
    assert IsDigit(t[i]) by { assert t[i] == t[i..e][0]; }
    forall j | 0 <= j < i ensures !IsDigit(t[j]) { assert t[j] == t[..i][j]; }
    forall k | i <= k < e ensures IsDigit(t[k]) { assert t[k] == t[i..e][k - i]; }
    RunEndIs(t, i, e, Digit);
  }

  /** An ASCII comma anywhere in the text does not change the amount. */
  lemma CommaDropped(x: string, y: string)
    ensures MoneyToYuan(Some(x + [','] + y)) == MoneyToYuan(Some(x + y))
  {
    MoneyOfText(x + [','] + y);
    MoneyOfText(x + y);
    CommaGone(x, y);
  }

  lemma CommaGone(x: string, y: string)
    ensures RemoveCommas(x + [','] + y) == RemoveCommas(x + y)
  {
    var a := x + [','];
    RemoveCommasAppend(x, [',']);
    assert RemoveCommas([',']) == [] by {
      assert [','][1..] == [];
    }
    assert RemoveCommas(a) == RemoveCommas(x);
    RemoveCommasAppend(a, y);
    RemoveCommasAppend(x, y);
  }
}

/** Character classes, digit runs, decimal printing and `str.strip`, shared by
    the scanners that stand in for the scraper's regular expressions. */
module Text {

  datatype Option<+T> = None | Some(value: T)

  /** The ASCII digit class `[0-9]` (also used for `\d`, see README). */
  predicate IsDigit(c: char) { '0' <= c <= '9' }

  /** Python's whitespace: the characters for which `str.isspace()` holds,
      which is also the `\s` class of a `re` pattern on `str`. */
  predicate IsSpace(c: char) {
    || '\t' <= c <= '\r'
    || '\U{1C}' <= c <= ' '
    || c == '\U{85}' || c == '\U{A0}' || c == '\U{1680}'
    || '\U{2000}' <= c <= '\U{200A}'
    || c == '\U{2028}' || c == '\U{2029}' || c == '\U{202F}' || c == '\U{205F}'
    || c == '\U{3000}'
  }

  /** The region characters of `_parse_dist`: `[\u4e00-\u9fa5·]`. */
  predicate IsRegionChar(c: char) {
    '\U{4E00}' <= c <= '\U{9FA5}' || c == '·'
  }

  /** The separators `[，,；;、\s]` that `_parse_dist` splits on. */
  predicate IsSeparator(c: char) {
    c == '，' || c == ',' || c == '；' || c == ';' || c == '、' || IsSpace(c)
  }

  /** The character classes the scanners run over. */
  datatype CharClass = Digit | Space | Region | Separator | DistEdge

  predicate Is(k: CharClass, c: char) {
    match k
    case Digit => IsDigit(c)
    case Space => IsSpace(c)
    case Region => IsRegionChar(c)
    case Separator => IsSeparator(c)
    case DistEdge => c == '。' || c == ' '
  }

  predicate AllDigits(s: string) { forall k :: 0 <= k < |s| ==> IsDigit(s[k]) }

  /** No character of s is of class cls. */
  predicate NoneIn(s: string, cls: CharClass) {
    forall k :: 0 <= k < |s| ==> !Is(cls, s[k])
  }

  function Pow10(k: nat): (p: nat)
    ensures p >= 1
  {
    if k == 0 then 1 else 10 * Pow10(k - 1)
  }

  lemma {:induction false} Pow10Add(a: nat, b: nat)
    ensures Pow10(a + b) == Pow10(a) * Pow10(b)
  {
    if b > 0 {
      Pow10Add(a, b - 1);
      assert Pow10(a + b) == 10 * Pow10(a + b - 1);
    }
  }

  /** `int(s)` for a string of ASCII digits, read most significant digit first. */
  function DigitsValue(s: string): (n: nat)
    requires AllDigits(s)
    ensures n < Pow10(|s|)
  {
    if s == [] then 0 else DigitsValue(s[..|s| - 1]) * 10 + (s[|s| - 1] as int - '0' as int)
  }

  /** Reading a concatenation: the left part is shifted by the length of the right. */
  lemma {:induction false} DigitsValueAppend(a: string, b: string)
    requires AllDigits(a) && AllDigits(b)
    ensures AllDigits(a + b)
    ensures DigitsValue(a + b) == DigitsValue(a) * Pow10(|b|) + DigitsValue(b)
  {
    assert forall k :: 0 <= k < |a + b| ==> (a + b)[k] == if k < |a| then a[k] else b[k - |a|];
    if b != [] {
      var b' := b[..|b| - 1];
      var d := b[|b| - 1] as int - '0' as int;
      assert (a + b)[..|a + b| - 1] == a + b';
      DigitsValueAppend(a, b');
      var x, p, y := DigitsValue(a), Pow10(|b'|), DigitsValue(b');
      assert DigitsValue(a + b) == DigitsValue(a + b') * 10 + d;
      assert DigitsValue(b) == y * 10 + d;
      assert Pow10(|b|) == p * 10;
      ShiftDigit(x, p, y, d);
    } else {
      assert a + b == a;
    }
  }

  lemma ShiftDigit(x: int, p: int, y: int, d: int)
    ensures (x * p + y) * 10 + d == x * (p * 10) + (y * 10 + d)
  {
  }

  /** `str(n)`: the canonical decimal form, no sign and no leading zero. */
  function NatToString(n: nat): (s: string)
    ensures |s| > 0 && AllDigits(s)
    ensures DigitsValue(s) == n
    ensures s[0] == '0' ==> n == 0
  {
    var d := ['0' + (n % 10) as char];
    if n < 10 then d
    else
      var s := NatToString(n / 10) + d;
      assert s[..|s| - 1] == NatToString(n / 10);
      s
  }


  /** The first position at or after `from` holding a character of class cls. */
  function FirstIn(t: string, from: nat, cls: CharClass): (r: Option<nat>)
    requires from <= |t|
    ensures r.Some? ==> from <= r.value < |t| && Is(cls, t[r.value])
    ensures forall k :: from <= k < |t| && (r.None? || k < r.value) ==> !Is(cls, t[k])
    decreases |t| - from
  {
    if from == |t| then None
    else if Is(cls, t[from]) then Some(from)
    else FirstIn(t, from + 1, cls)
  }

  /** The end of the longest run of characters of class cls that starts at i. */
  function RunEnd(t: string, i: nat, cls: CharClass): (j: nat)
    requires i <= |t|
    ensures i <= j <= |t|
    ensures forall k :: i <= k < j ==> Is(cls, t[k])
    ensures j == |t| || !Is(cls, t[j])
    decreases |t| - i
  {
    if i < |t| && Is(cls, t[i]) then RunEnd(t, i + 1, cls) else i
  }

  /** A run that ends where the class first fails is the one RunEnd finds. */
  lemma RunEndIs(t: string, i: nat, j: nat, cls: CharClass)
    requires i <= j <= |t|
    requires forall k :: i <= k < j ==> Is(cls, t[k])
    requires j == |t| || !Is(cls, t[j])
    ensures RunEnd(t, i, cls) == j
  {
  }

  /** The start of the longest run of characters of class cls that ends at j. */
  function RunStart(t: string, j: nat, cls: CharClass): (i: nat)
    requires j <= |t|
    ensures i <= j
    ensures forall k :: i <= k < j ==> Is(cls, t[k])
    ensures i == 0 || !Is(cls, t[i - 1])
  {
    if j > 0 && Is(cls, t[j - 1]) then RunStart(t, j - 1, cls) else j
  }

  /** `s.strip(...)`: s without its leading and trailing characters of class cls.
      The result is one slice of s, cut only where everything before and after
      the slice is of class cls, and it neither starts nor ends with such a
      character; so every other character keeps its number of occurrences. */
  function Strip(s: string, cls: CharClass): (r: string)
    ensures exists a, e :: (0 <= a <= e <= |s| && r == s[a..e] &&
      (forall k :: 0 <= k < a ==> Is(cls, s[k])) && (forall k :: e <= k < |s| ==> Is(cls, s[k])))
    ensures r == [] || (!Is(cls, r[0]) && !Is(cls, r[|r| - 1]))
    ensures forall c {:trigger multiset(r)[c]} :: !Is(cls, c) ==> multiset(r)[c] == multiset(s)[c]
  {
    var a := RunEnd(s, 0, cls);
    var b := RunStart(s, |s|, cls);
    var e := if b <= a then a else b;
    StripKeeps(s, a, e, cls);
    s[a..e]
  }

  /** Cutting off a prefix and a suffix of class cls keeps the other characters. */
  lemma StripKeeps(s: string, a: nat, e: nat, cls: CharClass)
    requires a <= e <= |s|
    requires forall k :: 0 <= k < a ==> Is(cls, s[k])
    requires forall k :: e <= k < |s| ==> Is(cls, s[k])
    ensures forall c {:trigger multiset(s[a..e])[c]} :: !Is(cls, c) ==> multiset(s[a..e])[c] == multiset(s)[c]
  {
    assert s == s[..a] + s[a..e] + s[e..];
    DropOnly(s[..a], s[a..e], s[e..], cls);
  }

  /** Removing pieces made of characters of class cls leaves every other character's count alone. */
  lemma DropOnly(x: string, y: string, z: string, cls: CharClass)
    requires forall k :: 0 <= k < |x| ==> Is(cls, x[k])
    requires forall k :: 0 <= k < |z| ==> Is(cls, z[k])
    ensures forall c {:trigger multiset(y)[c]} :: !Is(cls, c) ==> multiset(y)[c] == multiset(x + y + z)[c]
  {
    forall c | !Is(cls, c) ensures multiset(y)[c] == multiset(x + y + z)[c] {
      assert c !in x && c !in z;
    }
  }
}

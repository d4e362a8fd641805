/** Worked inputs for the amount normaliser, each derived from the general
    lemmas of module Money. The shapes are proved for any digits first and
    then applied to concrete texts. */
module MoneyExamples {
  import opened Text
  import opened Money

  lemma {:induction false} CommaFree(s: string)
    requires ',' !in s
    ensures RemoveCommas(s) == s
  {
    if s != [] {
      assert s[0] in s;
      CommaFree(s[1..]);
      assert RemoveCommas(s) == [s[0]] + RemoveCommas(s[1..]);
    }
  }

  /** A text that starts and ends with a non-space character and has no ASCII
      comma is searched as it is. */
  lemma CleanedIs(s: string)
    requires ',' !in s && s != [] && !IsSpace(s[0]) && !IsSpace(s[|s| - 1])
    ensures Cleaned(s) == s
  {
    CommaFree(s);
    RunEndIs(s, 0, 0, Space);
    assert RunStart(s, |s|, Space) == |s|;
  }

  /** "a.b亿" for digits a and b: the 亿 pattern decides. */
  lemma PointYi(a: char, b: char)
    requires IsDigit(a) && IsDigit(b)
    ensures MoneyToYuan(Some([a, '.', b, Yi])) == Some(Scaled(Decimal([a], [b]), 8))
  {
    var t := [a, '.', b, Yi];
    CleanedIs(t);
    PointYiMatch(a, b);
    YiFirst(t, 0, Decimal([a], [b]), 0);
  }

  lemma PointYiMatch(a: char, b: char)
    requires IsDigit(a) && IsDigit(b)
    ensures FirstSuffixMatch([a, '.', b, Yi], 0, Yi, Decimal([a], [b]), 0)
  {
    var t, d := [a, '.', b, Yi], Decimal([a], [b]);
    assert t[0..3] == Lexeme(d);
  }

  lemma OnePointTwo()
    ensures Scaled(Decimal("1", "2"), 8) == 120000000
  {
    ScaledParts(Decimal("1", "2"), 8);
    assert DigitsValue("1") == 1 && DigitsValue("2") == 2;
    assert Pow10(8) == 100000000 && Pow10(7) == 10000000;
  }

  /** "1.2亿" is 120,000,000 yuan. */
  lemma YiExample()
    ensures MoneyToYuan(Some("1.2亿")) == Some(120000000)
  {
    PointYi('1', '2');
    OnePointTwo();
  }
  /** "3,456万" is 34,560,000 yuan: the ASCII comma is dropped first. */
  lemma WanExample()
    ensures MoneyToYuan(Some("3,456万")) == Some(34560000)
  {
    CommaWan('3', '4', '5', '6');
    ThreeFourFiveSix();
  }

  /** "a,bcd万" for digits a, b, c, d reads as the literal abcd before 万. */
  lemma CommaWan(a: char, b: char, c: char, d: char)
    requires IsDigit(a) && IsDigit(b) && IsDigit(c) && IsDigit(d)
    ensures MoneyToYuan(Some([a, ',', b, c, d, Wan])) == Some(Scaled(Decimal([a, b, c, d], ""), 4))
  {
    CommaAfterFirst(a, b, c, d);
    FourDigitsWan(a, b, c, d);
  }

  lemma CommaAfterFirst(a: char, b: char, c: char, d: char)
    ensures MoneyToYuan(Some([a, ',', b, c, d, Wan])) == MoneyToYuan(Some([a, b, c, d, Wan]))
  {
    assert [a] + [','] + [b, c, d, Wan] == [a, ',', b, c, d, Wan];
    assert [a] + [b, c, d, Wan] == [a, b, c, d, Wan];
    CommaDropped([a], [b, c, d, Wan]);
  }

  lemma FourDigitsWan(a: char, b: char, c: char, d: char)
    requires IsDigit(a) && IsDigit(b) && IsDigit(c) && IsDigit(d)
    ensures MoneyToYuan(Some([a, b, c, d, Wan])) == Some(Scaled(Decimal([a, b, c, d], ""), 4))
  {
    assert [a, b, c, d] + [Wan] == [a, b, c, d, Wan];
    WholeWan([a, b, c, d]);
  }

  lemma ThreeFourFiveSix()
    ensures Scaled(Decimal("3456", ""), 4) == 34560000
  {
    ScaledParts(Decimal("3456", ""), 4);
    assert "3456"[..3] == "345" && "345"[..2] == "34" && "34"[..1] == "3" && "3"[..0] == "";
    assert DigitsValue("3456") == 3456;
    assert Pow10(4) == 10000;
  }

  /** A run of digits followed by 万 and nothing else. */
  lemma WholeWan(x: string)
    requires x != [] && AllDigits(x)
    ensures MoneyToYuan(Some(x + [Wan])) == Some(Scaled(Decimal(x, []), 4))
  {
    var t := x + [Wan];
    assert t[|t| - 1] == Wan && t[0] == x[0];
    assert ',' !in t && Yi !in t by {
      forall k | 0 <= k < |t| ensures t[k] != ',' && t[k] != Yi {
        if k < |x| { assert t[k] == x[k]; }
      }
    }
    CleanedIs(t);
    NoSuffixChar(t, Yi);
    assert t[0..|x|] == x;
    assert SuffixMatch(t, 0, Wan, Decimal(x, []), 0);
    WanFirst(t, 0, Decimal(x, []), 0);
  }

  /** "a万b亿" for digits a and b: the 亿 amount wins over the earlier 万 amount. */
  lemma YiAfterWan(a: char, b: char)
    requires IsDigit(a) && IsDigit(b)
    ensures MoneyToYuan(Some([a, Wan, b, Yi])) == Some(Scaled(Decimal([b], []), 8))
  {
    var t := [a, Wan, b, Yi];
    CleanedIs(t);
    YiAfterWanMatch(a, b);
    YiFirst(t, 2, Decimal([b], []), 0);
  }

  lemma YiAfterWanMatch(a: char, b: char)
    requires IsDigit(a) && IsDigit(b)
    ensures FirstSuffixMatch([a, Wan, b, Yi], 2, Yi, Decimal([b], []), 0)
  {
    var t := [a, Wan, b, Yi];
    RunEndIs(t, 0, 1, Digit);
    RunEndIs(t, 1, 1, Space);
    assert ScanSuffixed(t, 0, Yi).None?;
    assert ScanSuffixed(t, 1, Yi).None?;
    NoMatchAt(t, 0, Yi);
    NoMatchAt(t, 1, Yi);
    assert t[2..3] == Lexeme(Decimal([b], []));
  }

  /** "5万2亿" is 200,000,000 yuan. */
  lemma PriorityExample()
    ensures MoneyToYuan(Some("5万2亿")) == Some(200000000)
  {
    YiAfterWan('5', '2');
    TwoYi();
  }

  lemma TwoYi()
    ensures Scaled(Decimal("2", ""), 8) == 200000000
  {
    ScaledParts(Decimal("2", ""), 8);
    assert DigitsValue("2") == 2;
    assert Pow10(8) == 100000000;
  }

  /** A digit followed by a non-digit, in a text without either suffix: the
      amount is that one digit. */
  lemma LeadingDigit(a: char, rest: string)
    requires IsDigit(a) && rest != [] && !IsDigit(rest[0]) && !IsSpace(rest[|rest| - 1])
    requires ',' !in rest && Yi !in rest && Wan !in rest
    ensures MoneyToYuan(Some([a] + rest)) == Some(DigitsValue([a]))
  {
    var t := [a] + rest;
    assert t[1..] == rest && t[0] == a && t[|t| - 1] == rest[|rest| - 1];
    CleanedIs(t);
    NoSuffixChar(t, Yi);
    NoSuffixChar(t, Wan);
    assert t[0..1] == [a];
    DigitsOnly(t, 0, 1);
  }

  /** "1.5" with no suffix is 1: the bare pattern stops at the point. */
  lemma PointExample()
    ensures MoneyToYuan(Some("1.5")) == Some(1)
  {
    assert ['1'] + ".5" == "1.5";
    LeadingDigit('1', ".5");
    assert DigitsValue("1") == 1;
  }

  /** "1，234" is 1: the full-width comma is not removed, so it ends the digit run. */
  lemma FullWidthCommaExample()
    ensures MoneyToYuan(Some("1，234")) == Some(1)
  {
    assert ['1'] + "，234" == "1，234";
    LeadingDigit('1', "，234");
    assert DigitsValue("1") == 1;
  }

  /** A text of digits alone is its own value. */
  lemma DigitText(x: string)
    requires x != [] && AllDigits(x)
    ensures MoneyToYuan(Some(x)) == Some(DigitsValue(x))
  {
    assert ',' !in x && Yi !in x && Wan !in x by {
      forall k | 0 <= k < |x| ensures x[k] != ',' && x[k] != Yi && x[k] != Wan {
        assert IsDigit(x[k]);
      }
    }
    CleanedIs(x);
    NoSuffixChar(x, Yi);
    NoSuffixChar(x, Wan);
    assert x[0..|x|] == x;
    DigitsOnly(x, 0, |x|);
  }

  lemma OneTwoThreeFour()
    ensures AllDigits("1234") && DigitsValue("1234") == 1234
  {
    assert "1234"[..3] == "123" && "123"[..2] == "12" && "12"[..1] == "1" && "1"[..0] == "";
  }

  lemma CommaInOneThousand()
    ensures MoneyToYuan(Some("1,234")) == MoneyToYuan(Some("1234"))
  {
    assert "1" + [','] + "234" == "1,234";
    assert "1" + "234" == "1234";
    CommaDropped("1", "234");
  }

  /** "1,234" is 1234: the ASCII comma goes before the search. */
  lemma AsciiCommaExample()
    ensures MoneyToYuan(Some("1,234")) == Some(1234)
  {
    CommaInOneThousand();
    OneTwoThreeFour();
    DigitText("1234");
  }
}

/** A worked input for the distribution normaliser, derived from the general
    lemmas of module Distribution: pieces of the shape "region, digit, 注"
    joined by '，', with one region seen twice. */
module DistributionExamples {
  import opened Text
  import opened OrderedDict
  import opened Distribution
  import opened Json

  /** A piece of two region characters, one digit and 注 yields that region
      and that digit's value. */
  lemma PieceEntry(r1: char, r2: char, d: char)
    requires IsRegionChar(r1) && IsRegionChar(r2) && IsDigit(d)
    ensures SearchPiece([r1, r2, d, Zhu]) == Some(Entry([r1, r2], d as int - '0' as int))
  {
    var seg := [r1, r2, d, Zhu];
    var e: string := [];
    assert seg[0..2] == [r1, r2] && seg[2..3] == [d];
    assert [d][..0] == e;
    assert DigitsValue([d]) == d as int - '0' as int;
    assert EntryAt(seg, 0, 2, 2, 3, 3);
    PieceTakesFirst(seg, 0, 2, 2, 3, 3);
  }

  /** A separator-free text is one piece. */
  lemma SplitLast(x: string)
    requires NoneIn(x, Separator)
    ensures Split(x) == [x]
  {
    match FirstIn(x, 0, Separator)
    case None =>
    case Some(p) => assert false;
  }

  /** A separator-free piece, one '，', and a rest that starts with a
      non-separator: the piece comes first, then the pieces of the rest. */
  lemma SplitStep(x: string, rest: string)
    requires NoneIn(x, Separator) && rest != [] && !Is(Separator, rest[0])
    ensures Split(x + ['，'] + rest) == [x] + Split(rest)
  {
    var s := x + ['，'] + rest;
    var n := |x|;
    assert forall k :: 0 <= k < n ==> s[k] == x[k];
    assert s[n] == '，' && s[n + 1] == rest[0];
    match FirstIn(s, 0, Separator)
    case None => assert false;
    case Some(p) =>
      assert p == n;
      RunEndIs(s, n, n + 1, Separator);
      assert s[..n] == x && s[n + 1..] == rest;
  }

  /** The matches of three pieces, in order. */
  lemma FoundThree(p1: string, p2: string, p3: string, e1: Entry, e2: Entry, e3: Entry)
    requires SearchPiece(p1) == Some(e1) && SearchPiece(p2) == Some(e2) && SearchPiece(p3) == Some(e3)
    ensures Found([p1, p2, p3]) == [e1, e2, e3]
  {
    var segs := [p1, p2, p3];
    assert segs[..2] == [p1, p2] && segs[..2][..1] == [p1] && segs[..2][..1][..0] == [];
    assert Found([p1]) == [e1];
    assert Found([p1, p2]) == [e1, e2];
  }

  /** A key, another key, then the first key again: the first key's counts
      add up in its first place. */
  lemma TallyThree(a: Entry, b: Entry, c: Entry)
    requires a.key != b.key && c.key == a.key
    ensures Tally([a, b, c]) == [Entry(a.key, a.count + c.count), b]
  {
    var d1 := [Entry(a.key, a.count)];
    TallyAppend([], a);
    assert [] + [a] == [a];
    FindUnique(d1, b.key, None);
    TallyAppend([a], b);
    assert [a] + [b] == [a, b];
    var d2 := d1 + [b];
    FindUnique(d2, a.key, Some(0));
    TallyAppend([a, b], c);
    assert [a, b] + [c] == [a, b, c];
  }

  /** A text that neither starts nor ends with '。' or ' ' is not trimmed. */
  lemma StripNothing(text: string)
    requires text != [] && !Is(DistEdge, text[0]) && !Is(DistEdge, text[|text| - 1])
    ensures Strip(text, DistEdge) == text
  {
    RunEndIs(text, 0, 0, DistEdge);
    assert RunStart(text, |text|, DistEdge) == |text|;
  }

  /** A piece "RRd注": two region characters, a digit and 注. */
  predicate Shaped(p: string) {
    |p| == 4 && IsRegionChar(p[0]) && IsRegionChar(p[1]) && IsDigit(p[2]) && p[3] == Zhu
  }

  lemma ShapedPiece(p: string)
    requires Shaped(p)
    ensures NoneIn(p, Separator) && p != [] && !Is(Separator, p[0])
  {
  }

  /** Three such pieces joined by '，' split back into them. */
  lemma SplitThree(p1: string, p2: string, p3: string)
    requires Shaped(p1) && Shaped(p2) && Shaped(p3)
    ensures Split(p1 + ['，'] + (p2 + ['，'] + p3)) == [p1, p2, p3]
  {
    ShapedPiece(p1);
    ShapedPiece(p2);
    ShapedPiece(p3);
    SplitLast(p3);
    SplitStep(p2, p3);
    var rest := p2 + ['，'] + p3;
    assert rest[0] == p2[0];
    SplitStep(p1, rest);
  }

  /** The example text, edge-trimmed and split. */
  lemma ExamplePieces(text: string)
    requires text == "广东3注，上海2注，广东1注"
    ensures Split(Strip(text, DistEdge)) == ["广东3注", "上海2注", "广东1注"]
  {
    StripNothing(text);
    assert text == "广东3注" + ['，'] + ("上海2注" + ['，'] + "广东1注");
    assert Shaped("广东3注") && Shaped("上海2注") && Shaped("广东1注");
    SplitThree("广东3注", "上海2注", "广东1注");
  }

  /** "广东3注，上海2注，广东1注" reads as {广东: 4, 上海: 2}. */
  lemma ParseExample()
    ensures DistOf("广东3注，上海2注，广东1注") == [Entry("广东", 4), Entry("上海", 2)]
  {
    var text := "广东3注，上海2注，广东1注";
    ExamplePieces(text);
    PieceEntry('广', '东', '3');
    PieceEntry('上', '海', '2');
    PieceEntry('广', '东', '1');
    FoundThree("广东3注", "上海2注", "广东1注", Entry("广东", 3), Entry("上海", 2), Entry("广东", 1));
    assert Matches(text) == [Entry("广东", 3), Entry("上海", 2), Entry("广东", 1)];
    TallyThree(Entry("广东", 3), Entry("上海", 2), Entry("广东", 1));
  }

  /** The example's single-region maximum, `max(dist.values())`, is 4. */
  lemma MaxExample()
    ensures MaxCount(DistOf("广东3注，上海2注，广东1注")) == Some(4)
  {
    ParseExample();
    var d := [Entry("广东", 4), Entry("上海", 2)];
    assert d[1..] == [Entry("上海", 2)];
    assert MaxCount(d[1..][1..]) == None;
  }
}

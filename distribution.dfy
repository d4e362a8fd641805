/** The distribution normaliser `_parse_dist`: a text such as
    "广东3注，上海2注，广东1注" read as an insertion-ordered dict from region
    to number of first-tier winning bets. The text is trimmed of '。' and ' ',
    split on runs of separators, and each piece contributes the first
    "region, digits, 注" it contains, if any. */
module Distribution {
  import opened Text
  import opened OrderedDict

  /** 注, the unit "bet(s)". */
  const Zhu: char := '注'

  /** `re.split(r"[，,；;、\s]+", s)`: the pieces between maximal runs of
      separators, with an empty piece before a leading run and after a
      trailing one. */
  function Split(s: string): (segs: seq<string>)
    ensures |segs| >= 1
    ensures forall q :: 0 <= q < |segs| ==> NoneIn(segs[q], Separator)
    decreases |s|
  {
    match FirstIn(s, 0, Separator)
    case None => [s]
    case Some(p) => [s[..p]] + Split(s[RunEnd(s, p, Separator)..])
  }

  /** The characters of s that are not separators, in order. */
  function Kept(s: string): string {
    if s == [] then [] else (if Is(Separator, s[0]) then [] else [s[0]]) + Kept(s[1..])
  }

  function Concat(segs: seq<string>): string {
    if segs == [] then [] else segs[0] + Concat(segs[1..])
  }

  lemma {:induction false} KeptAppend(x: string, y: string)
    ensures Kept(x + y) == Kept(x) + Kept(y)
  {
    if x != [] {
      assert (x + y)[1..] == x[1..] + y;
      KeptAppend(x[1..], y);
    } else {
      assert x + y == y;
    }
  }

  lemma {:induction false} KeptNone(x: string)
    requires NoneIn(x, Separator)
    ensures Kept(x) == x
  {
    if x != [] {
      KeptNone(x[1..]);
    }
  }

  lemma {:induction false} KeptAll(x: string)
    requires forall k :: 0 <= k < |x| ==> Is(Separator, x[k])
    ensures Kept(x) == []
  {
    if x != [] {
      KeptAll(x[1..]);
    }
  }

  /** The pieces, put back together, are the text without its separators:
      nothing but separators is dropped, and the order is kept. */
  lemma {:induction false} SplitKeeps(s: string)
    ensures Concat(Split(s)) == Kept(s)
    decreases |s|
  {
    match FirstIn(s, 0, Separator)
    case None =>
      KeptNone(s);
      assert Concat(Split(s)) == s + Concat([]);
    case Some(p) =>
      var e := RunEnd(s, p, Separator);
      var x, y, z := s[..p], s[p..e], s[e..];
      SplitKeeps(z);
      assert Concat(Split(s)) == x + Concat(Split(z));
      RunPieces(s, p, e);
      KeptJoin(x, y, z);
  }

  /** A non-empty run of separators. */
  predicate SeparatorRun(r: string) {
    r != [] && forall k :: 0 <= k < |r| ==> Is(Separator, r[k])
  }

  /** The pieces with the runs between them put back: segs[0] + runs[0] +
      segs[1] + ... + segs[|runs|]. */
  function Interleave(segs: seq<string>, runs: seq<string>): string
    requires |segs| == |runs| + 1
    decreases |runs|
  {
    if runs == [] then segs[0] else segs[0] + runs[0] + Interleave(segs[1..], runs[1..])
  }

  /** Split cuts s exactly at its runs of separators: there are runs of
      separators, one between each two pieces, that put the pieces back
      together into s. */
  lemma {:induction false} SplitRoundTrip(s: string)
    ensures exists runs :: (|runs| + 1 == |Split(s)| && (forall q :: 0 <= q < |runs| ==> SeparatorRun(runs[q])) &&
      Interleave(Split(s), runs) == s)
    decreases |s|
  {
    match FirstIn(s, 0, Separator)
    case None =>
      var runs: seq<string> := [];
      assert Interleave(Split(s), runs) == s;
    case Some(p) =>
      var e := RunEnd(s, p, Separator);
      var z := s[e..];
      SplitRoundTrip(z);
      RunPieces(s, p, e);
      JoinStep(s, s[..p], s[p..e], z, Split(z));
      assert Split(s) == [s[..p]] + Split(z);
  }

  /** One more piece and run in front of pieces that join back into z. */
  lemma JoinStep(s: string, x: string, y: string, z: string, segs: seq<string>)
    requires s == x + y + z && SeparatorRun(y)
    requires exists rest :: (|rest| + 1 == |segs| && (forall q :: 0 <= q < |rest| ==> SeparatorRun(rest[q])) &&
      Interleave(segs, rest) == z)
    ensures exists runs :: (|runs| + 1 == |[x] + segs| && (forall q :: 0 <= q < |runs| ==> SeparatorRun(runs[q])) &&
      Interleave([x] + segs, runs) == s)
  {
    var rest :| |rest| + 1 == |segs| && (forall q :: 0 <= q < |rest| ==> SeparatorRun(rest[q])) &&
      Interleave(segs, rest) == z;
    InterleaveCons(x, y, segs, rest);
    var runs := [y] + rest;
    assert forall q :: 0 < q < |runs| ==> runs[q] == rest[q - 1];
  }

  lemma InterleaveCons(x: string, r: string, segs: seq<string>, runs: seq<string>)
    requires |segs| == |runs| + 1
    ensures Interleave([x] + segs, [r] + runs) == x + r + Interleave(segs, runs)
  {
    assert ([x] + segs)[1..] == segs && ([r] + runs)[1..] == runs;
  }

  /** Every piece other than the first and the last is non-empty, so the runs
      Split cuts at are maximal: none could have been cut in two. */
  lemma {:induction false} SplitInner(s: string)
    ensures forall q :: 0 < q < |Split(s)| - 1 ==> Split(s)[q] != []
    decreases |s|
  {
    match FirstIn(s, 0, Separator)
    case None =>
    case Some(p) =>
      var e := RunEnd(s, p, Separator);
      var z := s[e..];
      var segs := Split(z);
      assert Split(s) == [s[..p]] + segs;
      SplitInner(z);
      if z != [] {
        SplitHead(z);
      }
  }

  /** A text that starts with a non-separator starts with a non-empty piece. */
  lemma SplitHead(t: string)
    requires t != [] && !Is(Separator, t[0])
    ensures Split(t)[0] != []
  {
    match FirstIn(t, 0, Separator)
    case None =>
    case Some(p) => assert t[..p][0] == t[0];
  }

  lemma RunPieces(s: string, p: nat, e: nat)
    requires p <= e <= |s|
    requires forall k :: p <= k < e ==> Is(Separator, s[k])
    ensures s == s[..p] + s[p..e] + s[e..]
    ensures forall k :: 0 <= k < e - p ==> Is(Separator, s[p..e][k])
  {
    assert s == s[..p] + s[p..e] + s[e..];
  }

  /** A separator-free piece, a run of separators, and the rest. */
  lemma KeptJoin(x: string, y: string, z: string)
    requires NoneIn(x, Separator)
    requires forall k :: 0 <= k < |y| ==> Is(Separator, y[k])
    ensures Kept(x + y + z) == x + Kept(z)
  {
    KeptAppend(x, y);
    KeptNone(x);
    KeptAll(y);
    assert Kept(x + y) == x;
    KeptAppend(x + y, z);
  }

  /** The pattern `([一-龥·]+)\s*(\d+)\s*注` matches at i of t: region
      characters in [i, j), whitespace in [j, a), digits in [a, b), whitespace
      in [b, c) and 注 at c. */
  ghost predicate EntryAt(t: string, i: nat, j: nat, a: nat, b: nat, c: nat) {
    && i < j <= a < b <= c < |t|
    && (forall q :: i <= q < j ==> IsRegionChar(t[q]))
    && (forall q :: j <= q < a ==> IsSpace(t[q]))
    && AllDigits(t[a..b])
    && (forall q :: b <= q < c ==> IsSpace(t[q]))
    && t[c] == Zhu
  }

  /** A match at i capturing region e.key and count e.count. */
  ghost predicate MatchesAt(t: string, i: nat, e: Entry) {
    exists j: nat, a: nat, b: nat, c: nat :: EntryAt(t, i, j, a, b, c) && e == Entry(t[i..j], DigitsValue(t[a..b]))
  }

  /** The same pattern tried at i by a left-to-right scan. */
  function ScanEntry(t: string, i: nat): (r: Option<Entry>)
    requires i <= |t|
    ensures r.Some? ==> |r.value.key| > 0
  {
    var j := RunEnd(t, i, Region);
    var a := RunEnd(t, j, Space);
    var b := RunEnd(t, a, Digit);
    var c := RunEnd(t, b, Space);
    if i < j && a < b && c < |t| && t[c] == Zhu then
      assert AllDigits(t[a..b]);
      Some(Entry(t[i..j], DigitsValue(t[a..b])))
    else None
  }

  /** What the scan finds is a match. */
  lemma ScanEntrySound(t: string, i: nat)
    requires i <= |t| && ScanEntry(t, i).Some?
    ensures MatchesAt(t, i, ScanEntry(t, i).value)
  {
    var j := RunEnd(t, i, Region);
    var a := RunEnd(t, j, Space);
    var b := RunEnd(t, a, Digit);
    var c := RunEnd(t, b, Space);
    assert EntryAt(t, i, j, a, b, c);
  }

  /** Every match is what the scan finds: a match at i is unique. */
  lemma ScanEntryComplete(t: string, i: nat, j: nat, a: nat, b: nat, c: nat)
    requires EntryAt(t, i, j, a, b, c)
    ensures ScanEntry(t, i) == Some(Entry(t[i..j], DigitsValue(t[a..b])))
  {
    assert !IsRegionChar(t[j]) by {
      if j < a { assert IsSpace(t[j]); } else { assert t[j] == t[a..b][0]; }
    }
    RunEndIs(t, i, j, Region);
    RunEndIs(t, j, a, Space);
    assert forall q :: a <= q < b ==> IsDigit(t[q]) by {
      forall q | a <= q < b ensures IsDigit(t[q]) { assert t[q] == t[a..b][q - a]; }
    }
    RunEndIs(t, a, b, Digit);
    RunEndIs(t, b, c, Space);
  }

  /** `re.search` for the pattern: the leftmost position at or after `from`
      where it matches, with its capture (see FindEntryLeftmost). */
  function FindEntry(t: string, from: nat): Option<(nat, Entry)>
    requires from <= |t|
    decreases |t| - from
  {
    if from == |t| then None
    else if ScanEntry(t, from).Some? then Some((from, ScanEntry(t, from).value))
    else FindEntry(t, from + 1)
  }

  /** The search stops at the first position where the scan succeeds. */
  lemma {:induction false} FindEntryLeftmost(t: string, from: nat)
    requires from <= |t|
    ensures var r := FindEntry(t, from);
      && (r.Some? ==> from <= r.value.0 < |t| && ScanEntry(t, r.value.0) == Some(r.value.1))
      && forall i :: from <= i < |t| && (r.None? || i < r.value.0) ==> ScanEntry(t, i).None?
    decreases |t| - from
  {
    if from < |t| && ScanEntry(t, from).None? {
      FindEntryLeftmost(t, from + 1);
    }
  }

  /** A piece yields the match at the leftmost position where the pattern
      matches, even when a later position would match too. */
  lemma PieceTakesFirst(seg: string, i: nat, j: nat, a: nat, b: nat, c: nat)
    requires EntryAt(seg, i, j, a, b, c)
    requires forall i': nat, e :: i' < i ==> !MatchesAt(seg, i', e)
    ensures SearchPiece(seg) == Some(Entry(seg[i..j], DigitsValue(seg[a..b])))
  {
    ScanEntryComplete(seg, i, j, a, b, c);
    forall i' | 0 <= i' < i ensures ScanEntry(seg, i').None? {
      if ScanEntry(seg, i').Some? {
        ScanEntrySound(seg, i');
        assert false;
      }
    }
    FindEntryFirst(seg, 0, i, Entry(seg[i..j], DigitsValue(seg[a..b])));
  }

  /** The search from `from` finds i when the scan fails everywhere between
      and succeeds at i. */
  lemma {:induction false} FindEntryFirst(t: string, from: nat, i: nat, e: Entry)
    requires from <= i < |t| && ScanEntry(t, i) == Some(e)
    requires forall i' :: from <= i' < i ==> ScanEntry(t, i').None?
    ensures FindEntry(t, from) == Some((i, e))
    decreases i - from
  {
    if from < i {
      assert ScanEntry(t, from).None?;
      FindEntryFirst(t, from + 1, i, e);
    }
  }

  /** A piece in which the pattern matches nowhere adds nothing. */
  lemma PieceWithoutMatch(seg: string)
    requires forall i: nat, e :: !MatchesAt(seg, i, e)
    ensures SearchPiece(seg).None?
  {
    FindEntryLeftmost(seg, 0);
    var r := FindEntry(seg, 0);
    if r.Some? {
      ScanEntrySound(seg, r.value.0);
      assert false;
    }
  }

  /** `re.search(...)` on one piece, reduced to its two groups: the region
      and the count. */
  function SearchPiece(seg: string): Option<Entry> {
    match FindEntry(seg, 0)
    case Some((_, e)) => Some(e)
    case None => None
  }

  /** The matches of all pieces, in order: each piece adds its first match, if any. */
  function Found(segs: seq<string>): (r: seq<Entry>)
    ensures |r| <= |segs|
  {
    if segs == [] then []
    else
      var init := Found(segs[..|segs| - 1]);
      match SearchPiece(segs[|segs| - 1])
      case Some(e) => init + [e]
      case None => init
  }

  /** The (region, count) pairs `_parse_dist` feeds to its dict. */
  function Matches(text: string): seq<Entry> {
    if text == [] then [] else Found(Split(Strip(text, DistEdge)))
  }

  /** `_parse_dist(text)`. */
  function DistOf(text: string): Dist {
    Tally(Matches(text))
  }

  /** `_parse_dist`: the loop over the pieces that updates the dict in place. */
  method ParseDist(text: string) returns (out: Dist)
    ensures out == DistOf(text)
  {
    out := [];
    if text == [] {
      return;
    }
    var segs := Split(Strip(text, DistEdge));
    var i := 0;
    while i < |segs|
      invariant i <= |segs|
      invariant out == Tally(Found(segs[..i]))
    {
      ParseStep(segs, i, out);
      var m := SearchPiece(segs[i]);
      if m.Some? {
        out := Add(out, m.value.key, m.value.count);
      }
      i := i + 1;
    }
    assert segs[..|segs|] == segs;
  }

  /** One turn of the loop: the dict for one more piece. */
  lemma ParseStep(segs: seq<string>, i: nat, out: Dist)
    requires i < |segs| && out == Tally(Found(segs[..i]))
    ensures Tally(Found(segs[..i + 1])) ==
      match SearchPiece(segs[i])
      case Some(e) => Add(out, e.key, e.count)
      case None => out
  {
    FoundStep(segs, i);
    match SearchPiece(segs[i])
    case Some(e) => TallyAppend(Found(segs[..i]), e);
    case None =>
  }

  lemma FoundStep(segs: seq<string>, i: nat)
    requires i < |segs|
    ensures Found(segs[..i + 1]) ==
      match SearchPiece(segs[i])
      case Some(e) => Found(segs[..i]) + [e]
      case None => Found(segs[..i])
  {
    assert segs[..i + 1][..i] == segs[..i];
  }

  lemma TallyAppend(ms: seq<Entry>, e: Entry)
    ensures Tally(ms + [e]) == Add(Tally(ms), e.key, e.count)
  {
    assert (ms + [e])[..|ms|] == ms;
  }

  /** An empty text gives the empty dict. */
  lemma EmptyText()
    ensures DistOf("") == []
  {
  }

  /** A region seen in several pieces gets the sum of its counts. */
  lemma SumsPerRegion(text: string, region: string)
    ensures Get(DistOf(text), region) == SumFor(Matches(text), region)
  {
    TallyGet(Matches(text), region);
  }

  /** The regions come out once each, in first-seen order. */
  lemma RegionsInOrder(text: string)
    ensures Keys(DistOf(text)) == FirstSeen(Matches(text))
    ensures DistinctKeys(DistOf(text))
  {
    TallyKeys(Matches(text));
  }

  /** The values add up to the total of all matched counts. */
  lemma TotalOfCounts(text: string)
    ensures Total(DistOf(text)) == Total(Matches(text))
  {
    TallyTotal(Matches(text));
  }
}

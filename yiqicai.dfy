/** The per-issue accumulator of `fetch_dist_from_yiqicai_recent`: each
    (issue, n) match found in the page adds n to that issue's total, the
    issues kept in the order they were first seen. The lazy page pattern is
    not modelled; the matches are the input. */
module Yiqicai {
  import opened Text
  import opened OrderedDict

  /** `mp.setdefault(issue, 0)` followed by `mp[issue] += n` is one addition
      of n: the first step adds a key only when it is missing, with 0. */
  lemma SetDefaultThenAdd(d: Dist, k: string, n: nat)
    ensures Add(Add(d, k, 0), k, n) == Add(d, k, n)
  {
    match Find(d, k)
    case Some(i) =>
      assert Add(d, k, 0) == d[i := Entry(k, d[i].count + 0)];
      assert d[i := Entry(k, d[i].count + 0)] == d;
    case None =>
      var e := d + [Entry(k, 0)];
      assert Add(d, k, 0) == e;
      assert forall j :: 0 <= j < |d| ==> e[j] == d[j];
      FindUnique(e, k, Some(|d|));
      assert Add(e, k, n) == e[|d| := Entry(k, 0 + n)];
      assert e[|d| := Entry(k, 0 + n)] == d + [Entry(k, n)];
  }

  /** The loop over the matches: `mp` is the tally of the matches seen so far. */
  method TallyIssues(ms: seq<Entry>) returns (mp: Dist)
    ensures mp == Tally(ms)
  {
    mp := [];
    for i := 0 to |ms|
      invariant mp == Tally(ms[..i])
    {
      var issue, n := ms[i].key, ms[i].count;
      SetDefaultThenAdd(mp, issue, n);
      assert ms[..i + 1][..i] == ms[..i];
      mp := Add(mp, issue, 0);
      mp := Add(mp, issue, n);
    }
    assert ms[..|ms|] == ms;
  }

  /** Each issue maps to the sum of the counts matched for it. */
  lemma IssueTotals(ms: seq<Entry>, issue: string)
    ensures Get(Tally(ms), issue) == SumFor(ms, issue)
    ensures (exists i :: 0 <= i < |ms| && ms[i].key == issue) <==> issue in Keys(Tally(ms))
  {
    TallyGet(ms, issue);
    TallyKeys(ms);
    FirstSeenHas(ms, issue);
  }

  /** The issues appear once each, in the order of their first match. */
  lemma IssuesInOrder(ms: seq<Entry>)
    ensures Keys(Tally(ms)) == FirstSeen(ms)
    ensures DistinctKeys(Tally(ms))
  {
    TallyKeys(ms);
  }
}

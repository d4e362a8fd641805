/** The per-key accumulation shared by `_parse_dist` (region -> winning bets)
    and `fetch_dist_from_yiqicai_recent` (issue -> winning bets): a Python dict
    updated with `d[k] = d.get(k, 0) + n`, which keeps its keys in the order
    they were first inserted. */
module OrderedDict {
  import opened Text

  /** A key with its count: one dict item, or one (key, n) match fed to it. */
  datatype Entry = Entry(key: string, count: nat)

  /** An insertion-ordered dict is its items in insertion order; its keys are
      distinct (see DistinctKeys). */
  type Dist = seq<Entry>

  function Keys(d: seq<Entry>): seq<string> {
    seq(|d|, i requires 0 <= i < |d| => d[i].key)
  }

  predicate DistinctKeys(d: seq<Entry>) {
    forall i, j :: 0 <= i < j < |d| ==> d[i].key != d[j].key
  }

  /** Where key k sits in d: the first item with that key, or None. */
  function Find(d: seq<Entry>, k: string): (r: Option<nat>)
    ensures r.Some? ==> r.value < |d| && d[r.value].key == k
    ensures forall j :: 0 <= j < |d| && (r.None? || j < r.value) ==> d[j].key != k
  {
    if d == [] then None
    else if d[0].key == k then Some(0)
    else
      match Find(d[1..], k)
      case None => None
      case Some(i) => Some(i + 1)
  }

  /** `d.get(k, 0)`. */
  function Get(d: seq<Entry>, k: string): nat {
    match Find(d, k)
    case Some(i) => d[i].count
    case None => 0
  }

  /** `d[k] = d.get(k, 0) + n`: an existing key keeps its place and gains n, a
      new key is appended with n, and no other item changes. */
  function Add(d: Dist, k: string, n: nat): (r: Dist)
    ensures Keys(r) == if k in Keys(d) then Keys(d) else Keys(d) + [k]
    ensures DistinctKeys(d) ==> DistinctKeys(r)
  {
    match Find(d, k)
    case Some(i) =>
      var r := d[i := Entry(k, d[i].count + n)];
      assert Keys(d)[i] == k;
      assert Keys(r) == Keys(d);
      r
    case None =>
      var r := d + [Entry(k, n)];
      assert Keys(r) == Keys(d) + [k];
      r
  }

  /** Every item with another key stays where it was, unchanged. */
  lemma AddKeepsOthers(d: Dist, k: string, n: nat, i: nat)
    requires i < |d| && d[i].key != k
    ensures i < |Add(d, k, n)| && Add(d, k, n)[i] == d[i]
  {
  }

  /** The value of k goes up by n; every other key keeps its value. */
  lemma AddGet(d: Dist, k: string, n: nat, j: string)
    ensures Get(Add(d, k, n), j) == Get(d, j) + (if j == k then n else 0)
  {
    match Find(d, k)
    case Some(i) =>
      assert Add(d, k, n) == d[i := Entry(k, d[i].count + n)];
      GetUpdated(d, k, n, i, j);
    case None =>
      assert Add(d, k, n) == d + [Entry(k, n)];
      GetAppended(d, k, n, j);
  }

  lemma GetUpdated(d: seq<Entry>, k: string, n: nat, i: nat, j: string)
    requires Find(d, k) == Some(i)
    ensures Get(d[i := Entry(k, d[i].count + n)], j) == Get(d, j) + (if j == k then n else 0)
  {
    var r := d[i := Entry(k, d[i].count + n)];
    assert forall x :: 0 <= x < |d| ==> r[x].key == d[x].key;
    FindUnique(r, j, Find(d, j));
  }

  lemma GetAppended(d: seq<Entry>, k: string, n: nat, j: string)
    requires Find(d, k).None?
    ensures Get(d + [Entry(k, n)], j) == Get(d, j) + (if j == k then n else 0)
  {
    var r := d + [Entry(k, n)];
    assert forall x :: 0 <= x < |d| ==> r[x] == d[x];
    if j == k {
      FindUnique(r, j, Some(|d|));
    } else {
      FindUnique(r, j, Find(d, j));
    }
  }

  /** Find is determined by its contract: the first position holding k. */
  lemma FindUnique(d: seq<Entry>, k: string, r: Option<nat>)
    requires r.Some? ==> r.value < |d| && d[r.value].key == k
    requires forall j :: 0 <= j < |d| && (r.None? || j < r.value) ==> d[j].key != k
    ensures Find(d, k) == r
  {
  }

  /** The dict the loop `for (k, n) in ms: d[k] = d.get(k, 0) + n` builds from {}. */
  function Tally(ms: seq<Entry>): (d: Dist)
    ensures DistinctKeys(d)
  {
    if ms == [] then []
    else
      var last := ms[|ms| - 1];
      Add(Tally(ms[..|ms| - 1]), last.key, last.count)
  }

  /** The sum of the counts of the matches with key k. */
  function SumFor(ms: seq<Entry>, k: string): nat {
    if ms == [] then 0
    else SumFor(ms[..|ms| - 1], k) + (if ms[|ms| - 1].key == k then ms[|ms| - 1].count else 0)
  }

  /** The sum of all counts. */
  function Total(ms: seq<Entry>): nat {
    if ms == [] then 0 else Total(ms[..|ms| - 1]) + ms[|ms| - 1].count
  }

  /** The keys of ms, each once, in the order of their first occurrence. */
  function FirstSeen(ms: seq<Entry>): seq<string> {
    if ms == [] then []
    else
      var f, k := FirstSeen(ms[..|ms| - 1]), ms[|ms| - 1].key;
      if k in f then f else f + [k]
  }

  /** A key's value is the sum of all its counts, not its last count. */
  lemma {:induction false} TallyGet(ms: seq<Entry>, k: string)
    ensures Get(Tally(ms), k) == SumFor(ms, k)
  {
    if ms != [] {
      var last := ms[|ms| - 1];
      TallyGet(ms[..|ms| - 1], k);
      AddGet(Tally(ms[..|ms| - 1]), last.key, last.count, k);
    }
  }

  /** The keys come out in first-seen order. */
  lemma {:induction false} TallyKeys(ms: seq<Entry>)
    ensures Keys(Tally(ms)) == FirstSeen(ms)
  {
    if ms != [] {
      TallyKeys(ms[..|ms| - 1]);
    }
  }

  /** A key is present exactly when some match carries it. */
  lemma {:induction false} FirstSeenHas(ms: seq<Entry>, k: string)
    ensures k in FirstSeen(ms) <==> exists i :: 0 <= i < |ms| && ms[i].key == k
  {
    if ms != [] {
      var init := ms[..|ms| - 1];
      FirstSeenHas(init, k);
      if exists i :: 0 <= i < |init| && init[i].key == k {
        var i :| 0 <= i < |init| && init[i].key == k;
        assert ms[i].key == k;
      }
      if exists i :: 0 <= i < |ms| && ms[i].key == k {
        var i :| 0 <= i < |ms| && ms[i].key == k;
        if i < |init| { assert init[i].key == k; }
      }
    }
  }

  /** The values add up to the total of all counts fed in. */
  lemma {:induction false} TallyTotal(ms: seq<Entry>)
    ensures Total(Tally(ms)) == Total(ms)
  {
    if ms != [] {
      var last := ms[|ms| - 1];
      var d := Tally(ms[..|ms| - 1]);
      TallyTotal(ms[..|ms| - 1]);
      AddTotal(d, last.key, last.count);
    }
  }

  lemma AddTotal(d: Dist, k: string, n: nat)
    ensures Total(Add(d, k, n)) == Total(d) + n
  {
    match Find(d, k)
    case Some(i) =>
      assert Add(d, k, n) == d[i := Entry(k, d[i].count + n)];
      UpdateTotal(d, i, Entry(k, d[i].count + n));
    case None =>
      assert Add(d, k, n) == d + [Entry(k, n)];
      assert (d + [Entry(k, n)])[..|d|] == d;
  }

  /** Replacing one item changes the total by the difference of the counts. */
  lemma {:induction false} UpdateTotal(d: seq<Entry>, i: nat, e: Entry)
    requires i < |d|
    ensures Total(d[i := e]) + d[i].count == Total(d) + e.count
  {
    var r := d[i := e];
    if i < |d| - 1 {
      assert r[..|r| - 1] == d[..|d| - 1][i := e];
      UpdateTotal(d[..|d| - 1], i, e);
    } else {
      assert r[..|r| - 1] == d[..|d| - 1];
    }
  }
}

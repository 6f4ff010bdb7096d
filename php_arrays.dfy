/** PHP array built-ins the analyzer relies on: `array_unique` on a list
    (keep the first occurrence of each value, in order) and the ordered
    string-keyed counters that `$counts[$k] = ($counts[$k] ?? 0) + 1`
    builds (a PHP array remembers the order in which its keys were first
    written). */
module PhpArrays {

  predicate NoDuplicates(s: seq<string>) {
    forall i, j :: 0 <= i < j < |s| ==> s[i] != s[j]
  }

  /** `array_unique($s)` on a list of strings: each value once, at the
      place of its first occurrence. */
  function Dedup(s: seq<string>): (r: seq<string>)
    ensures NoDuplicates(r)
    ensures forall x :: x in r <==> x in s
    ensures |r| <= |s|
    decreases |s|
  {
    if |s| == 0 then []
    else
      var d := Dedup(s[..|s| - 1]);
      if s[|s| - 1] in d then d else d + [s[|s| - 1]]
  }

  /** Deduplicating a longer list never reorders what the shorter one kept:
      the values first seen in `a` come first, in the same order. */
  lemma {:induction false} DedupPrefix(a: seq<string>, b: seq<string>)
    ensures Dedup(a) <= Dedup(a + b)
    decreases |b|
  {
    if |b| > 0 {
      var b' := b[..|b| - 1];
      DedupPrefix(a, b');
      assert (a + b)[..|a + b| - 1] == a + b';
    } else {
      assert a + b == a;
    }
  }

  /** A list without repeated values is left as it is. */
  lemma {:induction false} DedupOfDistinct(s: seq<string>)
    requires NoDuplicates(s)
    ensures Dedup(s) == s
    decreases |s|
  {
    if |s| > 0 {
      var init := s[..|s| - 1];
      assert NoDuplicates(init);
      DedupOfDistinct(init);
      assert s[|s| - 1] !in init;
      assert s == init + [s[|s| - 1]];
    }
  }

  /** An ordered string-keyed array of counts. */
  type Counter = seq<(string, nat)>

  /** The keys of a counter, in insertion order. */
  function Keys(c: Counter): (ks: seq<string>)
    ensures |ks| == |c|
    ensures forall i :: 0 <= i < |c| ==> ks[i] == c[i].0
  {
    if |c| == 0 then [] else [c[0].0] + Keys(c[1..])
  }

  /** `$c[$k] ?? 0`. */
  function Get(c: Counter, k: string): nat {
    if |c| == 0 then 0 else if c[0].0 == k then c[0].1 else Get(c[1..], k)
  }

  /** The sum of all counts. */
  function SumCounts(c: Counter): nat {
    if |c| == 0 then 0 else c[0].1 + SumCounts(c[1..])
  }

  /** `$c[$k] = ($c[$k] ?? 0) + 1`: the first entry for `k` goes up by
      one, or a new entry for `k` is appended at the end. */
  function Increment(c: Counter, k: string): (r: Counter)
    ensures SumCounts(r) == SumCounts(c) + 1
    decreases |c|
  {
    if |c| == 0 then [(k, 1)]
    else if c[0].0 == k then [(k, c[0].1 + 1)] + c[1..]
    else
      var r := [c[0]] + Increment(c[1..], k);
      assert r[0] == c[0] && r[1..] == Increment(c[1..], k);
      r
  }

  /** Incrementing keeps the keys and their order, and a new key goes at
      the end. */
  lemma {:induction false} IncrementKeys(c: Counter, k: string)
    ensures Keys(Increment(c, k)) == if k in Keys(c) then Keys(c) else Keys(c) + [k]
    decreases |c|
  {
    if |c| > 0 && c[0].0 != k {
      IncrementKeys(c[1..], k);
      var r := Increment(c, k);
      assert r[0] == c[0] && r[1..] == Increment(c[1..], k);
      assert Keys(c) == [c[0].0] + Keys(c[1..]);
      assert Keys(r) == [c[0].0] + Keys(r[1..]);
    }
  }

  /** Incrementing `k` adds one to the count of `k` and leaves every other
      count as it was. */
  lemma {:induction false} IncrementGet(c: Counter, k: string, x: string)
    ensures Get(Increment(c, k), x) == Get(c, x) + (if x == k then 1 else 0)
    decreases |c|
  {
    if |c| > 0 && c[0].0 != k {
      IncrementGet(c[1..], k, x);
      var r := Increment(c, k);
      assert r[0] == c[0] && r[1..] == Increment(c[1..], k);
    }
  }

  /** The counter that incrementing once per element of `ks` builds, from
      an empty array. */
  function Tally(ks: seq<string>): Counter
    decreases |ks|
  {
    if |ks| == 0 then [] else Increment(Tally(ks[..|ks| - 1]), ks[|ks| - 1])
  }

  /** The keys of a tally are the distinct values in order of first
      occurrence, and its counts add up to the number of values. */
  lemma {:induction false} TallySpec(ks: seq<string>)
    ensures NoDuplicates(Keys(Tally(ks)))
    ensures Keys(Tally(ks)) == Dedup(ks)
    ensures SumCounts(Tally(ks)) == |ks|
    decreases |ks|
  {
    if |ks| > 0 {
      var init := ks[..|ks| - 1];
      TallySpec(init);
      IncrementKeys(Tally(init), ks[|ks| - 1]);
    }
  }

  /** Each key is counted as often as it occurs. */
  lemma {:induction false} TallyGet(ks: seq<string>, x: string)
    ensures Get(Tally(ks), x) == multiset(ks)[x]
    decreases |ks|
  {
    if |ks| > 0 {
      var init := ks[..|ks| - 1];
      TallyGet(init, x);
      IncrementGet(Tally(init), ks[|ks| - 1], x);
      assert ks == init + [ks[|ks| - 1]];
    }
  }

  /** Counting one more key is one more increment. */
  lemma TallyAppend(ks: seq<string>, k: string)
    ensures Tally(ks + [k]) == Increment(Tally(ks), k)
  {
    assert (ks + [k])[..|ks|] == ks;
  }
}

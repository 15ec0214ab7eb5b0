/**
 * Counting over sequences: what `list.count`, `collections.Counter`, `Counter.most_common`,
 * `Series.value_counts` and `DataFrame.groupby(...).count()` compute, stated once for any
 * element type. A tally is a sequence of (key, count) pairs.
 */
module Tally {

  /** `xs.count(x)`: how often x occurs in xs. */
  function Occ<K(==,!new)>(xs: seq<K>, x: K): (n: nat)
    ensures n <= |xs|
    ensures n > 0 <==> x in xs
  {
    if xs == [] then 0
    else
      var init := xs[..|xs| - 1];
      assert xs == init + [xs[|xs| - 1]];
      Occ(init, x) + (if xs[|xs| - 1] == x then 1 else 0)
  }

  lemma OccAppend<K(!new)>(xs: seq<K>, x: K, y: K)
    ensures Occ(xs + [x], y) == Occ(xs, y) + (if x == y then 1 else 0)
  {
    assert (xs + [x])[..|xs + [x]| - 1] == xs;
  }

  predicate Distinct<K(==,!new)>(ks: seq<K>) {
    forall i, j :: 0 <= i < j < |ks| ==> ks[i] != ks[j]
  }

  /** The distinct elements of xs in order of first appearance: the key order of a dict
      (and so of a Counter) filled from xs. */
  function Keys<K(==,!new)>(xs: seq<K>): (ks: seq<K>)
    ensures forall x :: x in ks <==> x in xs
    ensures Distinct(ks)
    ensures |ks| <= |xs|
  {
    if xs == [] then []
    else
      var init := xs[..|xs| - 1];
      var x := xs[|xs| - 1];
      assert xs == init + [x];
      var ks := Keys(init);
      if x in ks then ks else ks + [x]
  }

  // ---------------------------------------------------------------- tallies

  function KeysOf<K(!new)>(ps: seq<(K, nat)>): (ks: seq<K>)
    ensures |ks| == |ps| && forall i :: 0 <= i < |ps| ==> ks[i] == ps[i].0
  {
    seq(|ps|, i requires 0 <= i < |ps| => ps[i].0)
  }

  /** The sum of the counts of a tally. */
  function Total<K(!new)>(ps: seq<(K, nat)>): nat
  {
    if ps == [] then 0 else ps[0].1 + Total(ps[1..])
  }

  lemma {:induction false} TotalAppend<K(!new)>(a: seq<(K, nat)>, b: seq<(K, nat)>)
    ensures Total(a + b) == Total(a) + Total(b)
    decreases |a|
  {
    if a == [] {
      assert a + b == b;
    } else {
      assert (a + b)[1..] == a[1..] + b;
      TotalAppend(a[1..], b);
    }
  }

  /** ps lists every distinct element of xs exactly once, each with its number of
      occurrences in xs, and nothing else. */
  ghost predicate IsTally<K(!new)>(ps: seq<(K, nat)>, xs: seq<K>) {
    && Distinct(KeysOf(ps))
    && (forall i :: 0 <= i < |ps| ==> ps[i].1 == Occ(xs, ps[i].0))
    && (forall x :: x in xs <==> x in KeysOf(ps))
  }

  /** Counts ordered from the largest down. */
  predicate NonIncreasing<K(!new)>(ps: seq<(K, nat)>) {
    forall i, j :: 0 <= i < j < |ps| ==> ps[i].1 >= ps[j].1
  }

  /** The pairs (k, count of k in xs) for the keys ks, in the order of ks. */
  function CountEach<K(==,!new)>(ks: seq<K>, xs: seq<K>): seq<(K, nat)>
  {
    seq(|ks|, i requires 0 <= i < |ks| => (ks[i], Occ(xs, ks[i])))
  }

  lemma {:induction false} CountEachStep<K(!new)>(ks: seq<K>, xs: seq<K>, x: K)
    requires Distinct(ks)
    ensures Total(CountEach(ks, xs + [x])) == Total(CountEach(ks, xs)) + (if x in ks then 1 else 0)
    decreases |ks|
  {
    if ks != [] {
      OccAppend(xs, x, ks[0]);
      assert CountEach(ks, xs + [x])[1..] == CountEach(ks[1..], xs + [x]);
      assert CountEach(ks, xs)[1..] == CountEach(ks[1..], xs);
      CountEachStep(ks[1..], xs, x);
      forall j | 0 <= j < |ks[1..]| ensures ks[1..][j] != ks[0] {
        assert ks[1..][j] == ks[j + 1];
      }
      assert x in ks <==> x == ks[0] || x in ks[1..];
    }
  }

  /** Counting every element of xs once under distinct keys that cover xs accounts for all
      of xs. */
  lemma {:induction false} CountEachTotal<K(!new)>(ks: seq<K>, xs: seq<K>)
    requires Distinct(ks)
    requires forall x :: x in xs ==> x in ks
    ensures Total(CountEach(ks, xs)) == |xs|
    decreases |xs|
  {
    if xs == [] {
      ZeroCounts(ks, xs);
    } else {
      var init := xs[..|xs| - 1];
      var x := xs[|xs| - 1];
      assert xs == init + [x];
      CountEachTotal(ks, init);
      CountEachStep(ks, init, x);
    }
  }

  lemma {:induction false} ZeroCounts<K(!new)>(ks: seq<K>, xs: seq<K>)
    requires xs == []
    ensures Total(CountEach(ks, xs)) == 0
    decreases |ks|
  {
    if ks != [] {
      assert CountEach(ks, xs)[1..] == CountEach(ks[1..], xs);
      ZeroCounts(ks[1..], xs);
    }
  }

  /** The sum of a sequence of counts. */
  function Sum(ns: seq<nat>): nat
  {
    if ns == [] then 0 else ns[0] + Sum(ns[1..])
  }

  /** The total of the pairs (k, count of k) is the sum of the counts alone. */
  lemma {:induction false} CountEachSum<K(!new)>(ks: seq<K>, xs: seq<K>)
    ensures Total(CountEach(ks, xs)) == Sum(seq(|ks|, i requires 0 <= i < |ks| => Occ(xs, ks[i])))
    decreases |ks|
  {
    if ks != [] {
      assert CountEach(ks, xs)[1..] == CountEach(ks[1..], xs);
      var ns := seq(|ks|, i requires 0 <= i < |ks| => Occ(xs, ks[i]));
      assert ns[1..] == seq(|ks[1..]|, i requires 0 <= i < |ks[1..]| => Occ(xs, ks[1..][i]));
      CountEachSum(ks[1..], xs);
    }
  }

  /** The counts of a tally of xs add up to |xs|. */
  lemma TallyTotal<K(!new)>(ps: seq<(K, nat)>, xs: seq<K>)
    requires IsTally(ps, xs)
    ensures Total(ps) == |xs|
  {
    assert ps == CountEach(KeysOf(ps), xs);
    CountEachTotal(KeysOf(ps), xs);
  }

  /** `Counter(xs).items()`: every distinct element with its count, in order of first
      appearance. */
  function Counter<K(==,!new)>(xs: seq<K>): (ps: seq<(K, nat)>)
    ensures IsTally(ps, xs)
    ensures Total(ps) == |xs|
  {
    var ps := CountEach(Keys(xs), xs);
    assert KeysOf(ps) == Keys(xs);
    CountEachTotal(Keys(xs), xs);
    ps
  }

  // ---------------------------------------------------------------- ranking by count

  /** Where a stable descending sort places p among the already sorted t: after every pair
      with a strictly larger count. */
  function InsertPos<K(!new)>(p: (K, nat), t: seq<(K, nat)>): (k: nat)
    ensures k <= |t|
    ensures forall i :: 0 <= i < k ==> t[i].1 > p.1
    ensures k < |t| ==> t[k].1 <= p.1
  {
    if t == [] || t[0].1 <= p.1 then 0 else 1 + InsertPos(p, t[1..])
  }

  /** Putting p at the place InsertPos finds keeps a non-increasing sequence so. */
  lemma InsertKeepsOrder<K(!new)>(p: (K, nat), t: seq<(K, nat)>)
    requires NonIncreasing(t)
    ensures var k := InsertPos(p, t); NonIncreasing(t[..k] + [p] + t[k..])
  {
    var k := InsertPos(p, t);
    var r := t[..k] + [p] + t[k..];
    forall i, j | 0 <= i < j < |r| ensures r[i].1 >= r[j].1 {
      if i < k && j > k {
        assert r[i] == t[i] && r[j] == t[j - 1];
      } else if i == k && j > k {
        assert r[j] == t[j - 1];
      }
    }
  }

  /** Putting a pair with a new key anywhere among pairs with distinct keys keeps the keys
      distinct. */
  lemma InsertKeepsDistinct<K(!new)>(p: (K, nat), t: seq<(K, nat)>, k: nat)
    requires k <= |t| && Distinct(KeysOf(t))
    requires forall i :: 0 <= i < |t| ==> t[i].0 != p.0
    ensures Distinct(KeysOf(t[..k] + [p] + t[k..]))
  {
    var r := t[..k] + [p] + t[k..];
    forall i, j | 0 <= i < j < |r| ensures r[i].0 != r[j].0 {
      if i < k && j == k {
        assert r[i] == t[i];
      } else if i == k {
        assert r[j] == t[j - 1];
      } else if i < k && j > k {
        assert r[i] == t[i] && r[j] == t[j - 1];
        assert KeysOf(t)[i] != KeysOf(t)[j - 1];
      } else if j < k {
        assert KeysOf(t)[i] != KeysOf(t)[j];
      } else {
        assert r[i] == t[i - 1] && r[j] == t[j - 1];
        assert KeysOf(t)[i - 1] != KeysOf(t)[j - 1];
      }
    }
  }

  lemma DistinctTail<K(!new)>(ps: seq<(K, nat)>)
    requires ps != [] && Distinct(KeysOf(ps))
    ensures Distinct(KeysOf(ps[1..]))
    ensures forall i :: 0 <= i < |ps[1..]| ==> ps[1..][i].0 != ps[0].0
  {
    forall i, j | 0 <= i < j < |ps[1..]| ensures ps[1..][i].0 != ps[1..][j].0 {
      assert KeysOf(ps)[i + 1] != KeysOf(ps)[j + 1];
    }
    forall i | 0 <= i < |ps[1..]| ensures ps[1..][i].0 != ps[0].0 {
      assert KeysOf(ps)[0] != KeysOf(ps)[i + 1];
    }
  }

  /** One step of the insertion sort: t is the sorted tail of ps, and p = ps[0] goes in at
      InsertPos. */
  lemma SortStep<K(!new)>(ps: seq<(K, nat)>, t: seq<(K, nat)>)
    requires ps != []
    requires |t| == |ps| - 1 && multiset(t) == multiset(ps[1..]) && NonIncreasing(t)
    requires Total(t) == Total(ps[1..])
    requires Distinct(KeysOf(ps[1..])) ==> Distinct(KeysOf(t))
    ensures var k := InsertPos(ps[0], t); var r := t[..k] + [ps[0]] + t[k..];
      && |r| == |ps| && multiset(r) == multiset(ps) && NonIncreasing(r)
      && Total(r) == Total(ps)
      && (Distinct(KeysOf(ps)) ==> Distinct(KeysOf(r)))
  {
    var p := ps[0];
    var k := InsertPos(p, t);
    var r := t[..k] + [p] + t[k..];
    assert t == t[..k] + t[k..];
    assert ps == [p] + ps[1..];
    InsertKeepsOrder(p, t);
    TotalAppend(t[..k] + [p], t[k..]);
    TotalAppend(t[..k], [p]);
    TotalAppend(t[..k], t[k..]);
    if Distinct(KeysOf(ps)) {
      DistinctTail(ps);
      forall i | 0 <= i < |t| ensures t[i].0 != p.0 {
        assert t[i] in multiset(ps[1..]);
      }
      InsertKeepsDistinct(p, t, k);
    }
  }

  /** `sorted(ps, key=count, reverse=True)`: a permutation of ps in non-increasing order of
      count (stable, so equal counts keep their order in ps). */
  function SortByCount<K(==,!new)>(ps: seq<(K, nat)>): (r: seq<(K, nat)>)
    ensures |r| == |ps|
    ensures multiset(r) == multiset(ps)
    ensures NonIncreasing(r)
    ensures Total(r) == Total(ps)
    ensures Distinct(KeysOf(ps)) ==> Distinct(KeysOf(r))
  {
    if ps == [] then []
    else
      var t := SortByCount(ps[1..]);
      var k := InsertPos(ps[0], t);
      SortStep(ps, t);
      t[..k] + [ps[0]] + t[k..]
  }

  /** Sorting by count keeps a tally a tally. */
  lemma SortedTally<K(!new)>(ps: seq<(K, nat)>, xs: seq<K>)
    requires IsTally(ps, xs)
    ensures IsTally(SortByCount(ps), xs)
  {
    var r := SortByCount(ps);
    forall x ensures x in xs <==> x in KeysOf(r) {
      if x in xs {
        var i :| 0 <= i < |ps| && ps[i].0 == x;
        assert ps[i] in multiset(r);
      }
      if x in KeysOf(r) {
        var i :| 0 <= i < |r| && r[i].0 == x;
        assert r[i] in multiset(ps);
      }
    }
    forall i | 0 <= i < |r| ensures r[i].1 == Occ(xs, r[i].0) {
      assert r[i] in multiset(ps);
    }
  }

  /** `Counter(xs).most_common()` and `Series(xs).value_counts()`: every distinct element
      with its count, largest count first; equal counts keep first-appearance order. */
  function Ranked<K(==,!new)>(xs: seq<K>): (r: seq<(K, nat)>)
    ensures IsTally(r, xs)
    ensures NonIncreasing(r)
    ensures Total(r) == |xs|
    ensures |r| == |Keys(xs)|
  {
    var c := Counter(xs);
    SortedTally(c, xs);
    SortByCount(c)
  }

  /** The first n entries of a ranking (`most_common(n)`, `value_counts().head(n)`) are the
      n largest counts: any element left out occurs no more often than any element kept. */
  lemma {:induction false} TopIsTop<K(!new)>(xs: seq<K>, n: nat, x: K)
    requires x in xs && x !in KeysOf(Ranked(xs)[..if n <= |Ranked(xs)| then n else |Ranked(xs)|])
    ensures forall i :: 0 <= i < n && i < |Ranked(xs)| ==> Ranked(xs)[i].1 >= Occ(xs, x)
  {
    var r := Ranked(xs);
    var m := if n <= |r| then n else |r|;
    var j :| 0 <= j < |r| && r[j].0 == x;
    assert forall i :: 0 <= i < m ==> KeysOf(r[..m])[i] == r[i].0;
  }

  /** A prefix of a tally keeps its keys distinct and its counts exact. */
  lemma PrefixOfTally<K(!new)>(ps: seq<(K, nat)>, xs: seq<K>, n: nat)
    requires IsTally(ps, xs) && n <= |ps|
    ensures Distinct(KeysOf(ps[..n]))
    ensures forall i :: 0 <= i < n ==> ps[..n][i].1 == Occ(xs, ps[..n][i].0)
    ensures forall i :: 0 <= i < n ==> ps[..n][i].0 in xs
  {
    assert forall i :: 0 <= i < n ==> KeysOf(ps[..n])[i] == KeysOf(ps)[i];
    forall i | 0 <= i < n ensures ps[..n][i].0 in xs {
      assert KeysOf(ps)[i] in KeysOf(ps);
    }
  }

  // ---------------------------------------------------------------- sorted keys

  /** lt is a strict total order on K. */
  ghost predicate StrictTotalOrder<K(!new)>(lt: (K, K) -> bool) {
    && (forall a :: !lt(a, a))
    && (forall a, b, c :: lt(a, b) && lt(b, c) ==> lt(a, c))
    && (forall a, b :: a == b || lt(a, b) || lt(b, a))
  }

  predicate Increasing<K(!new)>(ks: seq<K>, lt: (K, K) -> bool) {
    forall i, j :: 0 <= i < j < |ks| ==> lt(ks[i], ks[j])
  }

  /** Inserts k into the increasing ks unless it is already there. */
  function InsertKey<K(==,!new)>(k: K, ks: seq<K>, lt: (K, K) -> bool): (r: seq<K>)
    requires StrictTotalOrder(lt) && Increasing(ks, lt)
    ensures Increasing(r, lt)
    ensures forall x :: x in r <==> x == k || x in ks
  {
    if ks == [] then [k]
    else if k == ks[0] then ks
    else if lt(k, ks[0]) then [k] + ks
    else
      var t := InsertKey(k, ks[1..], lt);
      assert forall x :: x in ks <==> x == ks[0] || x in ks[1..];
      var r := [ks[0]] + t;
      assert Increasing(r, lt) by {
        forall i, j | 0 <= i < j < |r| ensures lt(r[i], r[j]) {
          if i == 0 {
            assert r[j] in t;
          }
        }
      }
      r
  }

  /** The distinct elements of xs in increasing order: the group keys of
      `groupby(...)` (which sorts its keys). */
  function SortedKeys<K(==,!new)>(xs: seq<K>, lt: (K, K) -> bool): (ks: seq<K>)
    requires StrictTotalOrder(lt)
    ensures Increasing(ks, lt)
    ensures forall x :: x in ks <==> x in xs
  {
    if xs == [] then []
    else
      var init := xs[..|xs| - 1];
      assert xs == init + [xs[|xs| - 1]];
      InsertKey(xs[|xs| - 1], SortedKeys(init, lt), lt)
  }

  lemma IncreasingDistinct<K(!new)>(ks: seq<K>, lt: (K, K) -> bool)
    requires StrictTotalOrder(lt) && Increasing(ks, lt)
    ensures Distinct(ks)
  {
    forall i, j | 0 <= i < j < |ks| ensures ks[i] != ks[j] {
      assert lt(ks[i], ks[j]);
    }
  }

  /** `groupby(key).count()`: one row per distinct key, in increasing key order, with the
      size of its group; the sizes add up to |xs|. */
  function GroupCount<K(==,!new)>(xs: seq<K>, lt: (K, K) -> bool): (ps: seq<(K, nat)>)
    requires StrictTotalOrder(lt)
    ensures IsTally(ps, xs)
    ensures Increasing(KeysOf(ps), lt)
    ensures Total(ps) == |xs|
  {
    var ks := SortedKeys(xs, lt);
    IncreasingDistinct(ks, lt);
    var ps := CountEach(ks, xs);
    assert KeysOf(ps) == ks;
    CountEachTotal(ks, xs);
    ps
  }
}

/** Sequence facts shared by the slug generator and the search loops. The
    source deduplicates three times, always keeping the first element seen
    for each key: slugs through `[...new Set(xs)]`, artists through a `Map`
    keyed by name, regional results through a `find` on the title.
    `FirstPerKey` is that one operation. */
module Seqs {

  predicate NoDups<T(==)>(s: seq<T>) {
    forall i, j :: 0 <= i < j < |s| ==> s[i] != s[j]
  }

  predicate Increasing(idx: seq<nat>) {
    forall i, j :: 0 <= i < j < |idx| ==> idx[i] < idx[j]
  }

  /** Index of the first occurrence of `x` in `s`. */
  function FirstIndex<T(==)>(s: seq<T>, x: T): (k: nat)
    requires x in s
    ensures k < |s| && s[k] == x
    ensures forall j :: 0 <= j < k ==> s[j] != x
  {
    if s[0] == x then 0 else 1 + FirstIndex(s[1..], x)
  }

  /** Some element of `s` has key `k`. */
  predicate HasKey<T, K(==)>(s: seq<T>, key: T -> K, k: K) {
    exists i :: 0 <= i < |s| && key(s[i]) == k
  }

  /** The first element of `s` for each key, in the order first seen. */
  function FirstPerKey<T, K(==)>(s: seq<T>, key: T -> K): (r: seq<T>)
    ensures |r| <= |s|
    ensures forall i, j :: 0 <= i < j < |r| ==> key(r[i]) != key(r[j])
    ensures forall x :: x in s ==> HasKey(r, key, key(x))
    ensures forall x :: x in r ==> x in s
  {
    if s == [] then []
    else
      var init, last := s[..|s| - 1], s[|s| - 1];
      var d := FirstPerKey(init, key);
      assert s == init + [last];
      if HasKey(d, key, key(last)) then d
      else
        var r := d + [last];
        assert forall x :: x in s ==> HasKey(r, key, key(x)) by {
          forall x | x in s ensures HasKey(r, key, key(x)) {
            if x in init {
              var k :| 0 <= k < |d| && key(d[k]) == key(x);
              assert r[k] == d[k];
            } else {
              assert key(r[|d|]) == key(x);
            }
          }
        }
        r
  }

  /** Where each kept element came from: `FirstPerKey(s, key)[k]` is
      `s[idx[k]]`, the indices increase (the input's order is kept), and no
      earlier element of `s` had the same key (the first one wins). */
  predicate PickedAt<T(==), K(==)>(s: seq<T>, key: T -> K, r: seq<T>, idx: seq<nat>) {
    && |idx| == |r|
    && Increasing(idx)
    && (forall k :: 0 <= k < |idx| ==> idx[k] < |s| && s[idx[k]] == r[k])
    && (forall k, a :: 0 <= k < |idx| && 0 <= a < idx[k] ==> key(s[a]) != key(r[k]))
  }

  lemma {:induction false} FirstPerKeyOrigins<T, K>(s: seq<T>, key: T -> K)
    ensures exists idx :: PickedAt(s, key, FirstPerKey(s, key), idx)
  {
    if s == [] {
      var none: seq<nat> := [];
      assert PickedAt(s, key, FirstPerKey(s, key), none);
    } else {
      var d := FirstPerKey(s[..|s| - 1], key);
      FirstPerKeyOrigins(s[..|s| - 1], key);
      var idx: seq<nat> :| PickedAt(s[..|s| - 1], key, d, idx);
      if HasKey(d, key, key(s[|s| - 1])) {
        PickedExtends(s, key, d, idx);
        assert FirstPerKey(s, key) == d;
      } else {
        NewKeyNotBefore(s, key, d);
        PickedAppends(s, key, d, idx);
        assert FirstPerKey(s, key) == d + [s[|s| - 1]];
      }
    }
  }

  /** A kept element stays kept, from the same place, when the input grows. */
  lemma PickedExtends<T, K>(s: seq<T>, key: T -> K, d: seq<T>, idx: seq<nat>)
    requires s != [] && PickedAt(s[..|s| - 1], key, d, idx)
    ensures PickedAt(s, key, d, idx)
  {
    var init := s[..|s| - 1];
    forall k, a | 0 <= k < |idx| && 0 <= a < idx[k] ensures key(s[a]) != key(d[k]) {
      assert s[a] == init[a];
    }
    forall k | 0 <= k < |idx| ensures idx[k] < |s| && s[idx[k]] == d[k] {
      assert s[idx[k]] == init[idx[k]];
    }
  }

  /** A key the kept elements lack is the key of no earlier element. */
  lemma NewKeyNotBefore<T, K>(s: seq<T>, key: T -> K, d: seq<T>)
    requires s != [] && d == FirstPerKey(s[..|s| - 1], key)
    requires !HasKey(d, key, key(s[|s| - 1]))
    ensures forall a :: 0 <= a < |s| - 1 ==> key(s[a]) != key(s[|s| - 1])
  {
    var init := s[..|s| - 1];
    forall a | 0 <= a < |init| ensures key(s[a]) != key(s[|s| - 1]) {
      assert s[a] == init[a];
      assert HasKey(d, key, key(init[a]));
      var k :| 0 <= k < |d| && key(d[k]) == key(init[a]);
    }
  }

  /** An element with a new key is kept, from the last position. */
  lemma PickedAppends<T, K>(s: seq<T>, key: T -> K, d: seq<T>, idx: seq<nat>)
    requires s != [] && PickedAt(s[..|s| - 1], key, d, idx)
    requires forall a :: 0 <= a < |s| - 1 ==> key(s[a]) != key(s[|s| - 1])
    ensures PickedAt(s, key, d + [s[|s| - 1]], idx + [|s| - 1])
  {
    var init, last := s[..|s| - 1], s[|s| - 1];
    var r, idx' := d + [last], idx + [|init|];
    forall k, a | 0 <= k < |idx'| && 0 <= a < idx'[k] ensures key(s[a]) != key(r[k]) {
      assert s[a] == init[a];
      if k < |idx| {
        assert r[k] == d[k];
      }
    }
    forall k | 0 <= k < |idx'| ensures idx'[k] < |s| && s[idx'[k]] == r[k] {
      if k < |idx| {
        assert s[idx[k]] == init[idx[k]];
      }
    }
  }

  /** Deduplicating a longer sequence extends the deduplication of its prefix. */
  lemma {:induction false} FirstPerKeyPrefix<T, K>(a: seq<T>, b: seq<T>, key: T -> K)
    ensures |FirstPerKey(a, key)| <= |FirstPerKey(a + b, key)|
    ensures FirstPerKey(a + b, key)[..|FirstPerKey(a, key)|] == FirstPerKey(a, key)
    decreases |b|
  {
    if b == [] {
      assert a + b == a;
    } else {
      var b' := b[..|b| - 1];
      FirstPerKeyPrefix(a, b', key);
      assert (a + b)[..|a + b| - 1] == a + b';
    }
  }

  /** A sequence whose keys are all different is kept whole. */
  lemma {:induction false} FirstPerKeyOfDistinct<T, K>(s: seq<T>, key: T -> K)
    requires forall i, j :: 0 <= i < j < |s| ==> key(s[i]) != key(s[j])
    ensures FirstPerKey(s, key) == s
  {
    if s != [] {
      var init := s[..|s| - 1];
      FirstPerKeyOfDistinct(init, key);
      assert !HasKey(init, key, key(s[|s| - 1]));
      assert s == init + [s[|s| - 1]];
    }
  }

  /** `[...new Set(s)]`. */
  function Dedup<T(==)>(s: seq<T>): (r: seq<T>)
    ensures NoDups(r)
    ensures forall i :: 0 <= i < |s| ==> s[i] in r
    ensures forall i :: 0 <= i < |r| ==> r[i] in s
    ensures |r| <= |s|
  {
    var r := FirstPerKey(s, x => x);
    assert forall i :: 0 <= i < |s| ==> s[i] in r by {
      forall i | 0 <= i < |s| ensures s[i] in r {
        assert s[i] in s;
        var k :| 0 <= k < |r| && r[k] == s[i];
      }
    }
    r
  }

  /** The elements of `s` appear in the order of their first occurrence in `src`. */
  predicate InFirstSeenOrder<T(==)>(s: seq<T>, src: seq<T>)
    requires forall i :: 0 <= i < |s| ==> s[i] in src
  {
    forall i, j :: 0 <= i < j < |s| ==> FirstIndex(src, s[i]) < FirstIndex(src, s[j])
  }

  /** Each element of the deduplicated sequence sits where it was first seen,
      so the first-seen order is kept. */
  lemma DedupFirstSeen<T>(s: seq<T>)
    ensures InFirstSeenOrder(Dedup(s), s)
  {
    var r := Dedup(s);
    FirstPerKeyOrigins(s, x => x);
    var idx: seq<nat> :| PickedAt(s, x => x, r, idx);
    forall k | 0 <= k < |r| ensures FirstIndex(s, r[k]) == idx[k] {
      var f := FirstIndex(s, r[k]);
      assert f >= idx[k];
    }
  }

  lemma DedupOfDistinct<T>(s: seq<T>)
    requires NoDups(s)
    ensures Dedup(s) == s
  {
    FirstPerKeyOfDistinct(s, x => x);
  }

  /** A distinct prefix survives deduplication in place. */
  lemma DedupDistinctPrefix<T>(a: seq<T>, b: seq<T>)
    requires NoDups(a)
    ensures |Dedup(a + b)| >= |a| && Dedup(a + b)[..|a|] == a
  {
    DedupOfDistinct(a);
    DedupPrefix(a, b);
  }

  lemma DedupPrefix<T>(a: seq<T>, b: seq<T>)
    ensures |Dedup(a)| <= |Dedup(a + b)| && Dedup(a + b)[..|Dedup(a)|] == Dedup(a)
  {
    FirstPerKeyPrefix(a, b, x => x);
  }

  /** `r` is the subsequence of `s` at the increasing positions `idx`. */
  predicate SubseqAt<T(==)>(s: seq<T>, r: seq<T>, idx: seq<nat>) {
    && |idx| == |r|
    && Increasing(idx)
    && (forall k :: 0 <= k < |idx| ==> idx[k] < |s| && s[idx[k]] == r[k])
  }

  /** Every position moved one to the right. */
  function Shift(idx: seq<nat>): (r: seq<nat>)
    ensures |r| == |idx| && forall k :: 0 <= k < |idx| ==> r[k] == idx[k] + 1
  {
    seq(|idx|, k requires 0 <= k < |idx| => idx[k] + 1)
  }

  /** A subsequence of the tail is a subsequence of the whole. */
  lemma SubseqOfTail<T>(s: seq<T>, r: seq<T>, idx: seq<nat>)
    requires s != [] && SubseqAt(s[1..], r, idx)
    ensures SubseqAt(s, r, Shift(idx))
  {
    var sh := Shift(idx);
    forall k | 0 <= k < |sh| ensures sh[k] < |s| && s[sh[k]] == r[k] {
      assert s[idx[k] + 1] == s[1..][idx[k]];
    }
  }

  /** ... and so is that subsequence with the head in front. */
  lemma SubseqCons<T>(s: seq<T>, r: seq<T>, idx: seq<nat>)
    requires s != [] && SubseqAt(s, r, idx) && forall k :: 0 <= k < |idx| ==> idx[k] > 0
    ensures SubseqAt(s, [s[0]] + r, [0] + idx)
  {
    var r', idx' := [s[0]] + r, [0] + idx;
    forall k | 0 <= k < |idx'| ensures idx'[k] < |s| && s[idx'[k]] == r'[k] {
      if k > 0 {
        assert idx'[k] == idx[k - 1] && r'[k] == r[k - 1];
      }
    }
    forall i, j | 0 <= i < j < |idx'| ensures idx'[i] < idx'[j] {
      assert idx'[j] == idx[j - 1];
      if i > 0 {
        assert idx'[i] == idx[i - 1];
      }
    }
  }

  /** A subsequence keeps distinctness and first-seen order. */
  lemma SubseqKeepsOrder<T>(s: seq<T>, r: seq<T>, idx: seq<nat>, src: seq<T>)
    requires forall i :: 0 <= i < |s| ==> s[i] in src
    requires NoDups(s) && InFirstSeenOrder(s, src)
    requires SubseqAt(s, r, idx)
    ensures forall i :: 0 <= i < |r| ==> r[i] in src
    ensures NoDups(r) && InFirstSeenOrder(r, src)
  {
    forall i | 0 <= i < |r| ensures r[i] in src {
      assert r[i] == s[idx[i]];
    }
    forall i, j | 0 <= i < j < |r|
      ensures r[i] != r[j] && FirstIndex(src, r[i]) < FirstIndex(src, r[j])
    {
      assert r[i] == s[idx[i]] && r[j] == s[idx[j]] && idx[i] < idx[j];
    }
  }

  /** One element more of a prefix. */
  lemma PrefixStep<T>(s: seq<T>, i: nat)
    requires i < |s|
    ensures s[..i + 1] == s[..i] + [s[i]]
  {
  }

  /** Adding an element at the end keeps it exactly when its key is new. */
  lemma FirstPerKeyPush<T, K>(s: seq<T>, x: T, key: T -> K)
    ensures FirstPerKey(s + [x], key)
      == if HasKey(FirstPerKey(s, key), key, key(x)) then FirstPerKey(s, key) else FirstPerKey(s, key) + [x]
  {
    assert (s + [x])[..|s|] == s;
  }

  /** `s.slice(0, n)`. */
  function Take<T>(s: seq<T>, n: nat): (r: seq<T>)
    ensures |r| == if |s| <= n then |s| else n
    ensures r == s[..|r|]
  {
    if |s| <= n then s else s[..n]
  }

  /** A prefix of a subsequence is a subsequence, at the prefix of the
      positions. */
  lemma TakeSubseq<T>(s: seq<T>, r: seq<T>, idx: seq<nat>, n: nat)
    requires SubseqAt(s, r, idx)
    ensures SubseqAt(s, Take(r, n), idx[..|Take(r, n)|])
  {
  }

  /** A sequence without repeated elements holds each value at most once. */
  lemma {:induction false} NoDupsCount<T>(s: seq<T>, x: T)
    requires NoDups(s)
    ensures multiset(s)[x] <= 1
  {
    if s != [] {
      assert s == [s[0]] + s[1..];
      NoDupsCount(s[1..], x);
      if s[0] == x {
        assert x !in s[1..];
      }
    }
  }

  /** Two equal elements at different positions count twice. */
  lemma TwoCopies<T>(s: seq<T>, i: nat, j: nat)
    requires i < j < |s| && s[i] == s[j]
    ensures multiset(s)[s[i]] >= 2
  {
    assert s == s[..j] + s[j..];
    assert s[i] in s[..j];
    assert s[j] in s[j..];
  }

  /** Rearranging a sequence without repeats gives one without repeats. */
  lemma NoDupsPermutation<T>(a: seq<T>, b: seq<T>)
    requires NoDups(a) && multiset(a) == multiset(b)
    ensures NoDups(b)
  {
    forall i, j | 0 <= i < j < |b| ensures b[i] != b[j] {
      if b[i] == b[j] {
        TwoCopies(b, i, j);
        NoDupsCount(a, b[i]);
      }
    }
  }

  /** The pieces `f` gives for the elements, one after the other. */
  function FlatMap<T, U>(s: seq<T>, f: T -> seq<U>): seq<U> {
    if s == [] then [] else f(s[0]) + FlatMap(s[1..], f)
  }

  lemma {:induction false} FlatMapConcat<T, U>(a: seq<T>, b: seq<T>, f: T -> seq<U>)
    ensures FlatMap(a + b, f) == FlatMap(a, f) + FlatMap(b, f)
  {
    if a == [] {
      assert a + b == b;
    } else {
      FlatMapConcat(a[1..], b, f);
      assert (a + b)[0] == a[0] && (a + b)[1..] == a[1..] + b;
      var e, x, y := f(a[0]), FlatMap(a[1..], f), FlatMap(b, f);
      assert e + (x + y) == (e + x) + y;
    }
  }
}

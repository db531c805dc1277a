/** Generic facts about sequences: order-preserving sub-sequences, distinctness under a
    key, filtering, and first-occurrence de-duplication. The recommendation pipeline is
    built out of these list passes. */
module Seqs {

  /** `a` is obtained from `b` by deleting elements; the kept ones stay in order. */
  predicate Subseq<T(==)>(a: seq<T>, b: seq<T>)
    decreases |b|
  {
    if a == [] then true
    else if b == [] then false
    else (a[0] == b[0] && Subseq(a[1..], b[1..])) || Subseq(a, b[1..])
  }

  /** No two positions of `s` carry the same key. */
  predicate DistinctBy<T, K(==)>(s: seq<T>, key: T -> K) {
    forall i, j :: 0 <= i < j < |s| ==> key(s[i]) != key(s[j])
  }

  /** The set of keys that occur in `s`. */
  function KeysOf<T, K>(s: seq<T>, key: T -> K): set<K> {
    set i | 0 <= i < |s| :: key(s[i])
  }

  /** Position `i` holds the first element of `s` with its key. */
  predicate FirstOfKey<T, K(==)>(s: seq<T>, key: T -> K, i: int)
    requires 0 <= i < |s|
  {
    forall j :: 0 <= j < i ==> key(s[j]) != key(s[i])
  }

  /** Position of the first element of `s` whose key is `k`. */
  function FirstIndex<T, K(==)>(s: seq<T>, key: T -> K, k: K): (n: nat)
    requires k in KeysOf(s, key)
    ensures n < |s| && key(s[n]) == k
    ensures FirstOfKey(s, key, n)
    decreases |s|
  {
    if key(s[0]) == k then 0
    else
      assert k in KeysOf(s[1..], key) by {
        var j :| 0 <= j < |s| && key(s[j]) == k;
        assert s[1..][j - 1] == s[j];
      }
      var n := 1 + FirstIndex(s[1..], key, k);
      assert forall j :: 1 <= j < n ==> s[j] == s[1..][j - 1];
      n
  }

  /** Past a head of another key, the first position of `k` is one further on. */
  lemma FirstIndexShift<T, K>(s: seq<T>, key: T -> K, k: K)
    requires s != [] && k in KeysOf(s[1..], key) && k != key(s[0])
    ensures k in KeysOf(s, key)
    ensures FirstIndex(s, key, k) == 1 + FirstIndex(s[1..], key, k)
    ensures s[FirstIndex(s, key, k)] == s[1..][FirstIndex(s[1..], key, k)]
  {
    var j :| 0 <= j < |s[1..]| && key(s[1..][j]) == k;
    assert s[j + 1] == s[1..][j];
  }

  /** Every element of `r` is the first element of `s` with its key, and `r` lists them in
      the order in which their keys first occur in `s`. */
  predicate InFirstOrder<T(==), K(==)>(r: seq<T>, s: seq<T>, key: T -> K) {
    && (forall i :: 0 <= i < |r| ==> key(r[i]) in KeysOf(s, key) && r[i] == s[FirstIndex(s, key, key(r[i]))])
    && (forall i, j :: 0 <= i < j < |r| ==>
          key(r[i]) in KeysOf(s, key) && key(r[j]) in KeysOf(s, key) &&
          FirstIndex(s, key, key(r[i])) < FirstIndex(s, key, key(r[j])))
  }

  /** The lists of `ss` joined end to end, in order. */
  function Concat<T>(ss: seq<seq<T>>): seq<T>
    decreases |ss|
  {
    if ss == [] then [] else ss[0] + Concat(ss[1..])
  }

  /** A list comprehension `[x for x in s if p(x)]`. */
  function Filter<T(==,!new)>(s: seq<T>, p: T -> bool): (r: seq<T>)
    ensures forall i :: 0 <= i < |r| ==> p(r[i])
    ensures Subseq(r, s)
    ensures forall x :: multiset(r)[x] == (if p(x) then multiset(s)[x] else 0)
    decreases |s|
  {
    if s == [] then []
    else
      var rest := Filter(s[1..], p);
      assert s == [s[0]] + s[1..];
      if p(s[0]) then [s[0]] + rest else rest
  }

  /** The de-duplication loop `for a in s: if key(a) not in seen: keep a; seen.add(key(a))`,
      started with the keys in `seen` already taken. */
  function DedupeFrom<T(==), K(==)>(s: seq<T>, key: T -> K, seen: set<K>): (r: seq<T>)
    ensures DistinctBy(r, key)
    ensures forall i :: 0 <= i < |r| ==> key(r[i]) !in seen
    ensures Subseq(r, s)
    decreases |s|
  {
    if s == [] then []
    else if key(s[0]) in seen then
      DedupeFrom(s[1..], key, seen)
    else
      var rest := DedupeFrom(s[1..], key, seen + {key(s[0])});
      var r := [s[0]] + rest;
      assert r[1..] == rest;
      assert forall i :: 0 < i < |r| ==> r[i] == rest[i - 1];
      r
  }

  /** The loop keeps the first element of every key it has not seen yet. */
  lemma {:induction false} DedupeFromKeepsFirst<T, K>(s: seq<T>, key: T -> K, seen: set<K>, i: nat)
    requires i < |s| && key(s[i]) !in seen && FirstOfKey(s, key, i)
    ensures s[i] in DedupeFrom(s, key, seen)
    decreases |s|
  {
    if i > 0 {
      var seen' := if key(s[0]) in seen then seen else seen + {key(s[0])};
      assert key(s[0]) != key(s[i]);
      assert s[1..][i - 1] == s[i];
      assert FirstOfKey(s[1..], key, i - 1) by {
        forall j | 0 <= j < i - 1
          ensures key(s[1..][j]) != key(s[1..][i - 1])
        {
          assert s[1..][j] == s[j + 1];
        }
      }
      DedupeFromKeepsFirst(s[1..], key, seen', i - 1);
    }
  }

  /** The loop keeps only first occurrences, in the order of their first positions. */
  lemma {:induction false} DedupeFromOrder<T, K>(s: seq<T>, key: T -> K, seen: set<K>)
    ensures InFirstOrder(DedupeFrom(s, key, seen), s, key)
    decreases |s|
  {
    if s != [] {
      var seen' := if key(s[0]) in seen then seen else seen + {key(s[0])};
      var rest := DedupeFrom(s[1..], key, seen');
      DedupeFromOrder(s[1..], key, seen');
      assert forall i :: 0 <= i < |rest| ==> key(rest[i]) != key(s[0]);
      InFirstOrderShift(rest, s, key);
      if key(s[0]) !in seen {
        InFirstOrderCons(rest, s, key);
      }
    }
  }

  /** A list in first order for `s[1..]` that avoids the key of `s[0]` is in first order for `s`. */
  lemma InFirstOrderShift<T, K>(rest: seq<T>, s: seq<T>, key: T -> K)
    requires s != [] && InFirstOrder(rest, s[1..], key)
    requires forall i :: 0 <= i < |rest| ==> key(rest[i]) != key(s[0])
    ensures InFirstOrder(rest, s, key)
    ensures forall i :: 0 <= i < |rest| ==> FirstIndex(s, key, key(rest[i])) > 0
  {
    forall i | 0 <= i < |rest|
      ensures key(rest[i]) in KeysOf(s, key) && rest[i] == s[FirstIndex(s, key, key(rest[i]))]
      ensures FirstIndex(s, key, key(rest[i])) == 1 + FirstIndex(s[1..], key, key(rest[i]))
    {
      FirstIndexShift(s, key, key(rest[i]));
    }
  }

  /** Putting `s[0]` in front of such a list keeps it in first order for `s`. */
  lemma InFirstOrderCons<T, K>(rest: seq<T>, s: seq<T>, key: T -> K)
    requires s != [] && InFirstOrder(rest, s, key)
    requires forall i :: 0 <= i < |rest| ==> FirstIndex(s, key, key(rest[i])) > 0
    ensures InFirstOrder([s[0]] + rest, s, key)
  {
    var r := [s[0]] + rest;
    assert key(s[0]) in KeysOf(s, key);
    assert FirstIndex(s, key, key(s[0])) == 0;
    assert forall i :: 0 < i < |r| ==> r[i] == rest[i - 1];
  }

  /** The loop loses no key: every key of `s` was seen before or is the key of a kept element. */
  lemma {:induction false} DedupeFromKeys<T, K>(s: seq<T>, key: T -> K, seen: set<K>)
    ensures KeysOf(s, key) <= seen + KeysOf(DedupeFrom(s, key, seen), key)
    decreases |s|
  {
    if s != [] {
      var seen' := if key(s[0]) in seen then seen else seen + {key(s[0])};
      var rest := DedupeFrom(s[1..], key, seen');
      var r := DedupeFrom(s, key, seen);
      DedupeFromKeys(s[1..], key, seen');
      assert KeysOf(rest, key) <= KeysOf(r, key) by {
        if key(s[0]) !in seen {
          assert r == [s[0]] + rest;
          forall k | k in KeysOf(rest, key)
            ensures k in KeysOf(r, key)
          {
            var j :| 0 <= j < |rest| && key(rest[j]) == k;
            assert r[j + 1] == rest[j];
          }
        }
      }
      forall k | k in KeysOf(s, key)
        ensures k in seen + KeysOf(r, key)
      {
        var j :| 0 <= j < |s| && key(s[j]) == k;
        if j > 0 {
          assert s[1..][j - 1] == s[j];
          assert k in KeysOf(s[1..], key);
        } else if key(s[0]) !in seen {
          assert r[0] == s[0];
        }
      }
    }
  }

  /** First-occurrence de-duplication by `key`: the result has pairwise distinct keys, keeps
      its elements in input order, keeps the first element of every key, and loses no key. */
  function DedupeBy<T(==), K(==)>(s: seq<T>, key: T -> K): (r: seq<T>)
    ensures DistinctBy(r, key)
    ensures Subseq(r, s)
    ensures forall i :: 0 <= i < |s| && FirstOfKey(s, key, i) ==> s[i] in r
    ensures KeysOf(r, key) == KeysOf(s, key)
    ensures InFirstOrder(r, s, key)
  {
    var r := DedupeFrom(s, key, {});
    DedupeFromKeys(s, key, {});
    DedupeFromOrder(s, key, {});
    SubseqKeys(r, s, key);
    assert forall i :: 0 <= i < |s| && FirstOfKey(s, key, i) ==> s[i] in r by {
      forall i | 0 <= i < |s| && FirstOfKey(s, key, i)
        ensures s[i] in r
      {
        DedupeFromKeepsFirst(s, key, {}, i);
      }
    }
    r
  }

  /** A repeated element is kept once, at its first position: `[x, y, x]` gives `[x, y]`. */
  lemma DedupeByRepeat<T, K>(x: T, y: T, key: T -> K)
    requires key(x) != key(y)
    ensures DedupeBy([x, y, x], key) == [x, y]
  {
    var s := [x, y, x];
    assert s[1..] == [y, x] && [y, x][1..] == [x] && [x][1..] == [];
    var seen1: set<K> := {} + {key(x)};
    var seen2 := seen1 + {key(y)};
    assert DedupeFrom([x], key, seen2) == [];
    assert DedupeFrom([y, x], key, seen1) == [y] + [];
    assert DedupeFrom(s, key, {}) == [x] + [y];
  }

  lemma {:induction false} SubseqMultiset<T>(a: seq<T>, b: seq<T>)
    requires Subseq(a, b)
    ensures multiset(a) <= multiset(b)
    decreases |b|
  {
    if a == [] {
    } else if a[0] == b[0] && Subseq(a[1..], b[1..]) {
      SubseqMultiset(a[1..], b[1..]);
      assert a == [a[0]] + a[1..];
      assert b == [b[0]] + b[1..];
    } else {
      SubseqMultiset(a, b[1..]);
      assert b == [b[0]] + b[1..];
    }
  }

  lemma SubseqKeys<T, K>(a: seq<T>, b: seq<T>, key: T -> K)
    requires Subseq(a, b)
    ensures KeysOf(a, key) <= KeysOf(b, key)
  {
    SubseqMultiset(a, b);
    forall k | k in KeysOf(a, key)
      ensures k in KeysOf(b, key)
    {
      var i :| 0 <= i < |a| && key(a[i]) == k;
      assert a[i] in multiset(a);
      assert a[i] in b;
      var j :| 0 <= j < |b| && b[j] == a[i];
    }
  }

  /** Every element of an order-preserving sub-sequence comes from the source, so a property
      all elements of the source have, the sub-sequence's elements have too. */
  lemma SubseqKeeps<T>(a: seq<T>, b: seq<T>, p: T -> bool)
    requires Subseq(a, b)
    requires forall i :: 0 <= i < |b| ==> p(b[i])
    ensures forall i :: 0 <= i < |a| ==> p(a[i])
  {
    SubseqMultiset(a, b);
    forall i | 0 <= i < |a|
      ensures p(a[i])
    {
      assert a[i] in multiset(a);
      var j :| 0 <= j < |b| && b[j] == a[i];
    }
  }

  lemma {:induction false} SubseqReflexive<T>(s: seq<T>)
    ensures Subseq(s, s)
    decreases |s|
  {
    if s != [] {
      SubseqReflexive(s[1..]);
    }
  }

  lemma {:induction false} SubseqTransitive<T>(a: seq<T>, b: seq<T>, c: seq<T>)
    requires Subseq(a, b) && Subseq(b, c)
    ensures Subseq(a, c)
    decreases |c|
  {
    if a == [] {
    } else if c == [] {
    } else if b[0] == c[0] && Subseq(b[1..], c[1..]) {
      if a[0] == b[0] && Subseq(a[1..], b[1..]) {
        SubseqTransitive(a[1..], b[1..], c[1..]);
      } else {
        SubseqTransitive(a, b[1..], c[1..]);
      }
    } else {
      SubseqTransitive(a, b, c[1..]);
    }
  }

  /** A sequence with distinct keys holds every element at most once. */
  lemma {:induction false} DistinctByOnce<T, K>(s: seq<T>, key: T -> K, x: T)
    requires DistinctBy(s, key)
    ensures multiset(s)[x] <= 1
    decreases |s|
  {
    if s != [] {
      assert s == [s[0]] + s[1..];
      assert DistinctBy(s[1..], key);
      DistinctByOnce(s[1..], key, x);
      if x == s[0] {
        assert forall i :: 0 <= i < |s[1..]| ==> s[1..][i] == s[i + 1];
        assert x !in s[1..];
      }
    }
  }

  /** Keeping a sub-multiset of a list with distinct keys keeps the keys distinct; this covers
      both order-preserving sub-sequences and permutations. */
  lemma DistinctBySubMultiset<T, K>(a: seq<T>, b: seq<T>, key: T -> K)
    requires multiset(a) <= multiset(b)
    requires DistinctBy(b, key)
    ensures DistinctBy(a, key)
  {
    forall i, j | 0 <= i < j < |a|
      ensures key(a[i]) != key(a[j])
    {
      assert a[i] in multiset(a) && a[j] in multiset(a);
      assert a[i] in b && a[j] in b;
      if a[i] == a[j] {
        assert a == a[..i] + [a[i]] + a[i + 1..j] + [a[j]] + a[j + 1..];
        assert multiset(a)[a[i]] >= 2;
        DistinctByOnce(b, key, a[i]);
      } else {
        var p :| 0 <= p < |b| && b[p] == a[i];
        var q :| 0 <= q < |b| && b[q] == a[j];
        assert p != q;
      }
    }
  }
}

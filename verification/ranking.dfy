/** The ranking tail shared by `recommend_anime` and `get_default_recs`:
    `sorted(candidates, key=lambda a: a.get("score") or 0, reverse=True)[:10]`. Python's sort
    is stable, also with `reverse=True`: records with equal keys keep their relative order. */
module Ranking {
  import opened Catalog

  /** Non-increasing by ranking key. */
  predicate SortedByScore(s: seq<Anime>) {
    forall i, j :: 0 <= i < j < |s| ==> ScoreKey(s[i]) >= ScoreKey(s[j])
  }

  /** The records of `s` whose ranking key is `k`, in their order in `s`. */
  function WithKey(s: seq<Anime>, k: real): seq<Anime>
    decreases |s|
  {
    if s == [] then []
    else (if ScoreKey(s[0]) == k then [s[0]] else []) + WithKey(s[1..], k)
  }

  lemma SortedTail(s: seq<Anime>)
    requires SortedByScore(s) && s != []
    ensures SortedByScore(s[1..])
    ensures forall i :: 0 <= i < |s| ==> ScoreKey(s[i]) <= ScoreKey(s[0])
  {
    var u := s[1..];
    forall i, j | 0 <= i < j < |u|
      ensures ScoreKey(u[i]) >= ScoreKey(u[j])
    {
      assert u[i] == s[i + 1] && u[j] == s[j + 1];
    }
  }

  /** A record that ranks at least as high as the head of a sorted list can lead it. */
  lemma ConsSorted(y: Anime, s: seq<Anime>)
    requires SortedByScore(s)
    requires s != [] ==> ScoreKey(s[0]) <= ScoreKey(y)
    ensures SortedByScore([y] + s)
  {
    var r := [y] + s;
    forall i, j | 0 <= i < j < |r|
      ensures ScoreKey(r[i]) >= ScoreKey(r[j])
    {
      assert r[j] == s[j - 1];
      if i == 0 {
        assert ScoreKey(s[0]) >= ScoreKey(s[j - 1]);
      } else {
        assert r[i] == s[i - 1];
      }
    }
  }

  /** Insert `x` into a sorted list ahead of every record whose key does not exceed its own. */
  function Insert(x: Anime, t: seq<Anime>): (r: seq<Anime>)
    requires SortedByScore(t)
    ensures SortedByScore(r)
    ensures multiset(r) == multiset(t) + multiset{x}
    ensures r[0] == x || (t != [] && r[0] == t[0])
    decreases |t|
  {
    if t == [] || ScoreKey(x) >= ScoreKey(t[0]) then
      ConsSorted(x, t);
      [x] + t
    else
      SortedTail(t);
      var rest := Insert(x, t[1..]);
      assert rest[0] == x || rest[0] == t[1];
      ConsSorted(t[0], rest);
      assert t == [t[0]] + t[1..];
      [t[0]] + rest
  }

  lemma WithKeyCons(y: Anime, s: seq<Anime>, k: real)
    ensures WithKey([y] + s, k) == (if ScoreKey(y) == k then [y] else []) + WithKey(s, k)
  {
    assert ([y] + s)[1..] == s;
  }

  /** `x` goes ahead of every record of its own key already in the list. */
  lemma {:induction false} InsertStable(x: Anime, t: seq<Anime>, k: real)
    requires SortedByScore(t)
    ensures WithKey(Insert(x, t), k) == (if ScoreKey(x) == k then [x] else []) + WithKey(t, k)
    decreases |t|
  {
    if t == [] || ScoreKey(x) >= ScoreKey(t[0]) {
      assert Insert(x, t) == [x] + t;
      WithKeyCons(x, t, k);
    } else {
      SortedTail(t);
      var rest := Insert(x, t[1..]);
      assert Insert(x, t) == [t[0]] + rest;
      InsertStable(x, t[1..], k);
      WithKeyCons(t[0], rest, k);
      WithKeyCons(t[0], t[1..], k);
      assert t == [t[0]] + t[1..];
    }
  }

  /** The descending sort: a sorted permutation of `s`. */
  function SortByScore(s: seq<Anime>): (r: seq<Anime>)
    ensures SortedByScore(r)
    ensures multiset(r) == multiset(s)
    decreases |s|
  {
    if s == [] then []
    else
      assert s == [s[0]] + s[1..];
      Insert(s[0], SortByScore(s[1..]))
  }

  /** The sort is stable: records of equal key keep their order in `s`. */
  lemma {:induction false} SortByScoreStable(s: seq<Anime>, k: real)
    ensures WithKey(SortByScore(s), k) == WithKey(s, k)
    decreases |s|
  {
    if s != [] {
      SortByScoreStable(s[1..], k);
      InsertStable(s[0], SortByScore(s[1..]), k);
      WithKeyCons(s[0], s[1..], k);
      assert s == [s[0]] + s[1..];
    }
  }

  lemma {:induction false} WithKeyMembers(s: seq<Anime>, k: real)
    ensures forall i :: 0 <= i < |s| && ScoreKey(s[i]) == k ==> s[i] in WithKey(s, k)
    ensures forall x :: x in WithKey(s, k) ==> ScoreKey(x) == k && x in s
    decreases |s|
  {
    if s != [] {
      WithKeyMembers(s[1..], k);
      assert forall i :: 1 <= i < |s| ==> s[i] == s[1..][i - 1];
    }
  }

  lemma WithKeyOfHead(s: seq<Anime>)
    requires s != []
    ensures WithKey(s, ScoreKey(s[0])) != []
  {
  }

  /** Sortedness and per-key order pin the result down: any two sorted lists that agree with
      `s` key by key are equal, so `SortByScore` is exactly Python's stable reverse sort. */
  lemma {:induction false} StableSortUnique(a: seq<Anime>, b: seq<Anime>)
    requires SortedByScore(a) && SortedByScore(b)
    requires forall k :: WithKey(a, k) == WithKey(b, k)
    ensures a == b
    decreases |a|
  {
    if a == [] {
      if b != [] {
        WithKeyOfHead(b);
      }
    } else if b == [] {
      WithKeyOfHead(a);
    } else {
      HeadsAgree(a, b);
      TailsAgree(a, b);
      SortedTail(a);
      SortedTail(b);
      StableSortUnique(a[1..], b[1..]);
      assert a == [a[0]] + a[1..];
      assert b == [b[0]] + b[1..];
    }
  }

  /** Two sorted lists with the same records per key start with the same record. */
  lemma HeadsAgree(a: seq<Anime>, b: seq<Anime>)
    requires SortedByScore(a) && SortedByScore(b) && a != [] && b != []
    requires forall k :: WithKey(a, k) == WithKey(b, k)
    ensures a[0] == b[0]
  {
    var ka, kb := ScoreKey(a[0]), ScoreKey(b[0]);
    WithKeyMembers(a, kb);
    WithKeyMembers(b, ka);
    assert b[0] in WithKey(b, kb);
    assert a[0] in WithKey(a, ka);
    assert ka == kb;
    WithKeyCons(a[0], a[1..], ka);
    WithKeyCons(b[0], b[1..], ka);
    assert a == [a[0]] + a[1..];
    assert b == [b[0]] + b[1..];
  }

  /** Dropping a common head keeps the lists in agreement key by key. */
  lemma TailsAgree(a: seq<Anime>, b: seq<Anime>)
    requires a != [] && b != [] && a[0] == b[0]
    requires forall k :: WithKey(a, k) == WithKey(b, k)
    ensures forall k :: WithKey(a[1..], k) == WithKey(b[1..], k)
  {
    forall k
      ensures WithKey(a[1..], k) == WithKey(b[1..], k)
    {
      WithKeyCons(a[0], a[1..], k);
      WithKeyCons(b[0], b[1..], k);
      assert a == [a[0]] + a[1..];
      assert b == [b[0]] + b[1..];
      var p := if ScoreKey(a[0]) == k then [a[0]] else [];
      assert WithKey(a[1..], k) == (p + WithKey(a[1..], k))[|p|..];
      assert WithKey(b[1..], k) == (p + WithKey(b[1..], k))[|p|..];
    }
  }

  /** `[:10]` of the stable descending sort: the best `TopN` records, best first; every record
      left out ranks no higher than every record kept. */
  function Rank(shuffled: seq<Anime>): (r: seq<Anime>)
    ensures |r| == if |shuffled| < TopN then |shuffled| else TopN
    ensures SortedByScore(r)
    ensures multiset(r) <= multiset(shuffled)
    ensures forall i, x :: 0 <= i < |r| && x in multiset(shuffled) - multiset(r) ==> ScoreKey(x) <= ScoreKey(r[i])
    ensures forall k :: WithKey(r, k) <= WithKey(shuffled, k)
  {
    var sorted := SortByScore(shuffled);
    assert |sorted| == |multiset(sorted)| == |shuffled|;
    var n := if |sorted| < TopN then |sorted| else TopN;
    TopOfSorted(sorted, n);
    TopKeepsTies(shuffled, sorted, n);
    sorted[..n]
  }

  /** Cutting the stable sort keeps, for each key, the records of that key that come first in
      the input. */
  lemma TopKeepsTies(shuffled: seq<Anime>, sorted: seq<Anime>, n: nat)
    requires sorted == SortByScore(shuffled) && n <= |sorted|
    ensures forall k :: WithKey(sorted[..n], k) <= WithKey(shuffled, k)
  {
    forall k
      ensures WithKey(sorted[..n], k) <= WithKey(shuffled, k)
    {
      SortByScoreStable(shuffled, k);
      assert sorted == sorted[..n] + sorted[n..];
      WithKeyAppend(sorted[..n], sorted[n..], k);
    }
  }

  lemma {:induction false} WithKeyAppend(a: seq<Anime>, b: seq<Anime>, k: real)
    ensures WithKey(a + b, k) == WithKey(a, k) + WithKey(b, k)
    decreases |a|
  {
    if a == [] {
      assert a + b == b;
    } else {
      WithKeyAppend(a[1..], b, k);
      WithKeyCons(a[0], a[1..] + b, k);
      WithKeyCons(a[0], a[1..], k);
      assert a + b == [a[0]] + (a[1..] + b);
      assert a == [a[0]] + a[1..];
    }
  }

  lemma TopOfSorted(sorted: seq<Anime>, n: nat)
    requires SortedByScore(sorted) && n <= |sorted|
    ensures SortedByScore(sorted[..n])
    ensures multiset(sorted[..n]) <= multiset(sorted)
    ensures forall i, x :: 0 <= i < n && x in multiset(sorted) - multiset(sorted[..n]) ==>
      ScoreKey(x) <= ScoreKey(sorted[..n][i])
  {
    assert sorted == sorted[..n] + sorted[n..];
    assert multiset(sorted) == multiset(sorted[..n]) + multiset(sorted[n..]);
    forall i, x | 0 <= i < n && x in multiset(sorted) - multiset(sorted[..n])
      ensures ScoreKey(x) <= ScoreKey(sorted[i])
    {
      assert x in multiset(sorted[n..]);
      var j :| 0 <= j < |sorted[n..]| && sorted[n..][j] == x;
      assert sorted[n + j] == x;
    }
  }
}

/** `random.shuffle`, CPython's Fisher–Yates pass: for i from n-1 down to 1, draw j in
    [0, i] and swap positions i and j. The random draws are a parameter supplied by the
    caller; a draw outside [0, i] is reduced modulo i + 1, and once the draws run out every
    later step keeps its element in place. */
module Shuffling {

  function Swap<T>(s: seq<T>, i: nat, j: nat): (r: seq<T>)
    requires i < |s| && j < |s|
    ensures |r| == |s| && multiset(r) == multiset(s)
    ensures r[i] == s[j] && r[j] == s[i]
    ensures forall k :: 0 <= k < |s| && k != i && k != j ==> r[k] == s[k]
  {
    s[i := s[j]][j := s[i]]
  }

  /** The steps i, i-1, …, 1 of the pass. */
  function ShuffleDown<T>(s: seq<T>, i: nat, draws: seq<nat>): (r: seq<T>)
    requires i < |s|
    ensures |r| == |s| && multiset(r) == multiset(s)
    decreases i
  {
    if i == 0 then s
    else
      var j := if draws == [] then i else draws[0] % (i + 1);
      ShuffleDown(Swap(s, i, j), i - 1, if draws == [] then [] else draws[1..])
  }

  /** Every outcome of the shuffle, whatever the draws, is a permutation of its input. */
  function Shuffle<T>(s: seq<T>, draws: seq<nat>): (r: seq<T>)
    ensures |r| == |s| && multiset(r) == multiset(s)
  {
    if |s| <= 1 then s else ShuffleDown(s, |s| - 1, draws)
  }

  /** Without draws nothing moves. */
  lemma {:induction false} ShuffleDownNoDraws<T>(s: seq<T>, i: nat)
    requires i < |s|
    ensures ShuffleDown(s, i, []) == s
    decreases i
  {
    if i > 0 {
      assert Swap(s, i, i) == s;
      ShuffleDownNoDraws(s, i - 1);
    }
  }
}

/** The deck shuffle. The random engine is not modelled: its output is an
    arbitrary sequence of draws, and the shuffle is the Fisher-Yates walk that
    swaps position i-1 with a drawn position below i, for i from the length
    down to 2. Whatever the draws, the result is a permutation of the input. */
module Shuffling {

  /** The k-th draw of the random engine; missing draws read as 0. */
  function Draw(draws: seq<nat>, k: nat): nat {
    if k < |draws| then draws[k] else 0
  }

  /** Exchanges the elements at positions i and j. */
  function Swap<T>(s: seq<T>, i: nat, j: nat): (r: seq<T>)
    requires i < |s| && j < |s|
    ensures |r| == |s|
    ensures r[i] == s[j] && r[j] == s[i]
    ensures forall k :: 0 <= k < |s| && k != i && k != j ==> r[k] == s[k]
  {
    s[i := s[j]][j := s[i]]
  }

  lemma SwapPermutes<T>(s: seq<T>, i: nat, j: nat)
    requires i < |s| && j < |s|
    ensures multiset(Swap(s, i, j)) == multiset(s)
  {
    var t := s[i := s[j]];
    assert multiset(t) == multiset(s) - multiset{s[i]} + multiset{s[j]};
    assert t[j] == (if i == j then s[j] else s[j]);
  }

  /** Fisher-Yates from position i-1 down to position 1. */
  function ShuffleDown<T>(s: seq<T>, i: nat, draws: seq<nat>): seq<T>
    requires i <= |s|
    decreases i
  {
    if i <= 1 then s
    else ShuffleDown(Swap(s, i - 1, Draw(draws, |s| - i) % i), i - 1, draws)
  }

  function Shuffle<T>(s: seq<T>, draws: seq<nat>): seq<T> {
    ShuffleDown(s, |s|, draws)
  }

  lemma {:induction false} ShuffleDownPermutes<T>(s: seq<T>, i: nat, draws: seq<nat>)
    requires i <= |s|
    ensures |ShuffleDown(s, i, draws)| == |s|
    ensures multiset(ShuffleDown(s, i, draws)) == multiset(s)
    decreases i
  {
    if i > 1 {
      var j := Draw(draws, |s| - i) % i;
      SwapPermutes(s, i - 1, j);
      ShuffleDownPermutes(Swap(s, i - 1, j), i - 1, draws);
    }
  }

  /** Whatever the random engine yields, the shuffle keeps the length and the
      multiset of elements. */
  lemma ShufflePermutes<T>(s: seq<T>, draws: seq<nat>)
    ensures |Shuffle(s, draws)| == |s|
    ensures multiset(Shuffle(s, draws)) == multiset(s)
  {
    ShuffleDownPermutes(s, |s|, draws);
  }

  /** No two positions hold the same element. */
  predicate Distinct<T(==)>(s: seq<T>) {
    forall i, j :: 0 <= i < j < |s| ==> s[i] != s[j]
  }

  lemma SwapKeepsDistinct<T>(s: seq<T>, i: nat, j: nat)
    requires i < |s| && j < |s|
    requires Distinct(s)
    ensures Distinct(Swap(s, i, j))
  {
    var r := Swap(s, i, j);
    forall a, b | 0 <= a < b < |r|
      ensures r[a] != r[b]
    {
      var a' := if a == i then j else if a == j then i else a;
      var b' := if b == i then j else if b == j then i else b;
      assert r[a] == s[a'] && r[b] == s[b'];
      assert a' != b';
    }
  }

  lemma {:induction false} ShuffleDownKeepsDistinct<T>(s: seq<T>, i: nat, draws: seq<nat>)
    requires i <= |s|
    requires Distinct(s)
    ensures Distinct(ShuffleDown(s, i, draws))
    decreases i
  {
    if i > 1 {
      var j := Draw(draws, |s| - i) % i;
      SwapKeepsDistinct(s, i - 1, j);
      ShuffleDownKeepsDistinct(Swap(s, i - 1, j), i - 1, draws);
    }
  }

  /** A shuffle of distinct elements has distinct elements. */
  lemma ShuffleKeepsDistinct<T>(s: seq<T>, draws: seq<nat>)
    requires Distinct(s)
    ensures Distinct(Shuffle(s, draws))
  {
    ShuffleDownKeepsDistinct(s, |s|, draws);
  }
}

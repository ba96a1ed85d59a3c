/** `random.shuffle` and `random.sample` as the algorithms CPython runs, with
    the random numbers supplied by the caller: `draws[i]` is the `i`-th raw
    number the generator hands out. Nothing is assumed about the numbers, so
    every fact proved here holds whatever the generator produces. */
module Randomness {

  /** The `i`-th random choice of an index below `bound` (`_randbelow`);
      a missing draw counts as 0. */
  function Below(draws: seq<nat>, i: nat, bound: nat): (j: nat)
    requires bound > 0
    ensures j < bound
  {
    if i < |draws| then draws[i] % bound else 0
  }

  /** Exchanging two entries keeps the multiset of a list. */
  lemma SwapKeepsMultiset<T>(s: seq<T>, i: nat, j: nat)
    requires i < |s| && j < |s|
    ensures multiset(s[i := s[j]][j := s[i]]) == multiset(s)
  {
    var t := s[i := s[j]];
    assert multiset(t) == multiset(s) - multiset{s[i]} + multiset{s[j]};
    assert multiset(t[j := s[i]]) == multiset(t) - multiset{t[j]} + multiset{s[i]};
  }

  /** `random.shuffle(x)`: for `i` from the last index down to 1, swap
      `x[i]` with `x[j]` for a random `j <= i`. The result is a permutation
      of the input. */
  method Shuffle<T>(s: seq<T>, draws: seq<nat>) returns (r: seq<T>)
    ensures |r| == |s|
    ensures multiset(r) == multiset(s)
  {
    r := s;
    var i := |s|;
    while i > 1
      invariant 0 <= i <= |s|
      invariant |r| == |s|
      invariant multiset(r) == multiset(s)
    {
      i := i - 1;
      var j := Below(draws, |s| - 1 - i, i + 1);
      SwapKeepsMultiset(r, i, j);
      r := r[i := r[j]][j := r[i]];
    }
  }

  /** Overwriting the picked entry `j` of the active pool `s[..m]` with the
      pool's last entry takes exactly the picked entry out of the pool. */
  lemma ReplaceByLast<T>(s: seq<T>, m: nat, j: nat)
    requires j < m <= |s|
    ensures multiset(s[j := s[m - 1]][..m - 1]) + multiset{s[j]} == multiset(s[..m])
  {
    var t := s[j := s[m - 1]];
    if j == m - 1 {
      assert s[..m] == t[..m - 1] + [s[j]];
    } else {
      assert s[..m] == s[..j] + [s[j]] + s[j + 1..m - 1] + [s[m - 1]];
      assert t[..m - 1] == s[..j] + [s[m - 1]] + s[j + 1..m - 1];
    }
  }

  /** `random.sample(population, k)`: `k` picks without replacement from a
      pool whose first `n - i` entries are the ones not yet picked; a picked
      slot is refilled with the last such entry. The result has `k` entries,
      taken from distinct positions of the population. */
  method Sample<T>(population: seq<T>, k: nat, draws: seq<nat>) returns (r: seq<T>)
    requires k <= |population|
    ensures |r| == k
    ensures multiset(r) <= multiset(population)
  {
    var n := |population|;
    r := [];
    var pool := population;
    var i := 0;
    assert pool[..n] == population;
    while i < k
      invariant 0 <= i <= k
      invariant |r| == i && |pool| == n
      invariant multiset(r) + multiset(pool[..n - i]) == multiset(population)
    {
      var j := Below(draws, i, n - i);
      ReplaceByLast(pool, n - i, j);
      r := r + [pool[j]];
      pool := pool[j := pool[n - i - 1]];
      i := i + 1;
    }
  }
}

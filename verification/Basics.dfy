// What several parts of the model share: the larger and the smaller of two numbers, and facts about maps and multiples.

module Basics {
  function Max(a: int, b: int): int { if a < b then b else a }

  function Min(a: int, b: int): int { if a < b then a else b }

  /** Taking one pair at a time from one map to another keeps their union. */
  lemma MoveOver<K, V>(done: map<K, V>, left: map<K, V>, f: K)
    requires f in left && done.Keys !! left.Keys
    ensures done[f := left[f]] + (left - {f}) == done + left
    ensures done[f := left[f]].Keys !! (left - {f}).Keys
    ensures |left - {f}| < |left|
    ensures done[f := left[f]] != map[]
  {
    assert left == (left - {f})[f := left[f]];
    assert f in done[f := left[f]];
  }

  lemma AtLeastOne(p: int, q: int, n: nat)
    requires p > q
    ensures p * n >= q * n + n
  {
    assert (p - q - 1) * n >= 0;
    assert (p - q - 1) * n == p * n - q * n - n;
  }
}

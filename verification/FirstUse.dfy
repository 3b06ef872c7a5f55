/** Keeping the first element of every key, in order: what a loop over an array with a Set of seen keys computes. */
module FirstUse {

  ghost predicate IsFirst<T, K>(xs: seq<T>, key: T -> K, i: int)
    requires 0 <= i < |xs|
  {
    forall j | 0 <= j < i :: key(xs[j]) != key(xs[i])
  }

  ghost function FirstPer<T, K>(xs: seq<T>, key: T -> K): seq<T> {
    if xs == [] then []
    else
      var n := |xs| - 1;
      FirstPer(xs[..n], key) + if IsFirst(xs, key, n) then [xs[n]] else []
  }

  ghost function Keys<T, K>(xs: seq<T>, key: T -> K): set<K> {
    set x <- xs :: key(x)
  }

  ghost predicate DistinctKeys<T, K>(xs: seq<T>, key: T -> K) {
    forall i, j | 0 <= i < j < |xs| :: key(xs[i]) != key(xs[j])
  }

  lemma KeysStep<T, K>(xs: seq<T>, key: T -> K)
    requires xs != []
    ensures var n := |xs| - 1; Keys(xs, key) == Keys(xs[..n], key) + {key(xs[n])}
    ensures var n := |xs| - 1; IsFirst(xs, key, n) <==> key(xs[n]) !in Keys(xs[..n], key)
  {
  }

  /** Every key is kept, and kept once. */
  lemma {:induction false} FirstPerKeepsEachKeyOnce<T, K>(xs: seq<T>, key: T -> K)
    ensures Keys(FirstPer(xs, key), key) == Keys(xs, key)
    ensures DistinctKeys(FirstPer(xs, key), key)
    ensures |FirstPer(xs, key)| == |Keys(xs, key)|
  {
    if xs != [] {
      var n := |xs| - 1;
      FirstPerKeepsEachKeyOnce(xs[..n], key);
      KeysStep(xs, key);
      assert !IsFirst(xs, key, n) ==> Keys(xs, key) == Keys(xs[..n], key);
      var before := FirstPer(xs[..n], key);
      if IsFirst(xs, key, n) {
        KeysStep(before + [xs[n]], key);
        assert (before + [xs[n]])[..|before|] == before;
        forall i | 0 <= i < |before| ensures key(before[i]) != key(xs[n]) {
          assert key(before[i]) in Keys(before, key);
        }
      }
    }
  }

  /** Nothing is dropped when the keys already differ; */
  lemma {:induction false} FirstPerOfDistinct<T, K>(xs: seq<T>, key: T -> K)
    requires DistinctKeys(xs, key)
    ensures FirstPer(xs, key) == xs
  {
    if xs != [] {
      FirstPerOfDistinct(xs[..|xs| - 1], key);
      assert xs == xs[..|xs| - 1] + [xs[|xs| - 1]];
    }
  }

  /** so keeping the first twice is keeping it once. */
  lemma FirstPerIsIdempotent<T, K>(xs: seq<T>, key: T -> K)
    ensures FirstPer(FirstPer(xs, key), key) == FirstPer(xs, key)
  {
    FirstPerKeepsEachKeyOnce(xs, key);
    FirstPerOfDistinct(FirstPer(xs, key), key);
  }

  /** The positions below n whose key no earlier position has. */
  ghost function FirstPositions<T, K>(xs: seq<T>, key: T -> K, n: nat): (p: seq<int>)
    requires n <= |xs|
    ensures forall i :: i in p <==> 0 <= i < n && IsFirst(xs, key, i)
    ensures forall k, l | 0 <= k < l < |p| :: p[k] < p[l]
  {
    hide IsFirst;
    if n == 0 then [] else
      var before := FirstPositions(xs, key, n - 1);
      assert forall k | 0 <= k < |before| :: before[k] in before;
      before + if IsFirst(xs, key, n - 1) then [n - 1] else []
  }

  /** The kept elements are those at the first positions, in their order. */
  lemma {:induction false} FirstPerIsInOrder<T, K>(xs: seq<T>, key: T -> K, n: nat)
    requires n <= |xs|
    ensures var p := FirstPositions(xs, key, n);
            && |FirstPer(xs[..n], key)| == |p|
            && (forall k | 0 <= k < |p| :: p[k] in p)
            && forall k | 0 <= k < |p| :: FirstPer(xs[..n], key)[k] == xs[p[k]]
  {
    if n > 0 {
      FirstPerIsInOrder(xs, key, n - 1);
      assert xs[..n][..n - 1] == xs[..n - 1];
      assert IsFirst(xs[..n], key, n - 1) <==> IsFirst(xs, key, n - 1);
      hide IsFirst;
    }
  }

  /** What holds of a kept element is what holds at a first position. */
  lemma FirstPerAny<T, K>(xs: seq<T>, key: T -> K, p: T -> bool)
    ensures (exists x <- FirstPer(xs, key) :: p(x)) <==> exists i | 0 <= i < |xs| :: IsFirst(xs, key, i) && p(xs[i])
  {
    FirstPerIsInOrder(xs, key, |xs|);
    assert xs[..|xs|] == xs;
    var kept, at := FirstPer(xs, key), FirstPositions(xs, key, |xs|);
    hide FirstPer, FirstPositions, IsFirst;
    if x :| x in kept && p(x) {
      var l :| 0 <= l < |at| && kept[l] == x;
      assert IsFirst(xs, key, at[l]) && p(xs[at[l]]);
    }
    if i :| 0 <= i < |xs| && IsFirst(xs, key, i) && p(xs[i]) {
      assert i in at;
      var k :| 0 <= k < |at| && at[k] == i;
      assert kept[k] in kept;
    }
  }
}

/** The arithmetic of NBisect: how many children it makes and how many steps each
    one gets. */
module Slicing {
  import opened GoInts

  function Sum(s: seq<int>): (total: int)
  {
    if s == [] then 0 else Sum(s[..|s| - 1]) + s[|s| - 1]
  }

  ghost predicate NonIncreasing(s: seq<int>)
  {
    forall i, j :: 0 <= i <= j < |s| ==> s[j] <= s[i]
  }

  /** A split of n into `count` parts, in non-increasing order, where no two parts differ
      by more than one: the split both disputing parties must agree on. */
  ghost predicate BalancedSplit(s: seq<int>, n: int, count: int)
  {
    |s| == count && Sum(s) == n && NonIncreasing(s) && (|s| > 0 ==> s[0] <= s[|s| - 1] + 1)
  }

  /** The number of children: the requested slice count, lowered to the step count when
      there are fewer steps than slices. */
  function ClampSlices(nsteps: uint32, slices: uint32): (r: uint32)
    ensures r <= nsteps && r <= slices
    ensures r == nsteps || r == slices
  {
    if nsteps < slices then nsteps else slices
  }

  lemma SliceFits(nsteps: uint32, slices: uint32)
    requires slices >= 1
    ensures nsteps % slices > 0 ==> nsteps / slices + 1 <= nsteps
  {
    var q: int, rem: int := nsteps / slices, nsteps % slices;
    assert nsteps == slices * q + rem;
    MulAtLeast(slices, q);
  }

  lemma {:induction false} MulAtLeast(a: int, b: nat)
    requires a >= 1
    ensures a * b >= b
    decreases a
  {
    if a > 1 {
      MulAtLeast(a - 1, b);
      assert a * b == (a - 1) * b + b;
    }
  }

  /** `count` parts, the first `extra` of them `base + 1` and the rest `base`: the general
      shape of a balanced split, which the converse proof below needs for any base. */
  function TwoLevel(count: nat, base: int, extra: nat): (r: seq<int>)
    ensures |r| == count
  {
    seq(count, i => if i < extra then base + 1 else base)
  }

  lemma {:induction false} TwoLevelPrefixSum(count: nat, base: int, extra: nat, j: nat)
    requires j <= count
    ensures Sum(TwoLevel(count, base, extra)[..j]) == j * base + (if j < extra then j else extra)
  {
    if j > 0 {
      var s := TwoLevel(count, base, extra);
      TwoLevelPrefixSum(count, base, extra, j - 1);
      assert s[..j][..j - 1] == s[..j - 1];
      assert j * base == (j - 1) * base + base;
    }
  }

  /** The step count of every child, in order: the quotient, plus one for each of the
      first `nsteps % slices` children. The counts add up to exactly the parent's. */
  function SliceSizes(nsteps: uint32, slices: uint32): (r: seq<uint32>)
    requires slices >= 1
    ensures |r| == slices
    ensures Sum(r) == nsteps
  {
    QuotientSplit(nsteps, slices);
    TwoLevel(slices, nsteps / slices, nsteps % slices)
  }

  /** The quotient-and-remainder split of nsteps has parts no larger than nsteps and adds
      up to nsteps. */
  lemma QuotientSplit(nsteps: uint32, slices: uint32)
    requires slices >= 1
    ensures var t := TwoLevel(slices, nsteps / slices, nsteps % slices);
      (forall i :: 0 <= i < |t| ==> 0 <= t[i] <= nsteps) && Sum(t) == nsteps
  {
    var q: int, rem: int := nsteps / slices, nsteps % slices;
    var t := TwoLevel(slices, q, rem);
    assert nsteps == slices * q + rem;
    MulAtLeast(slices, q);
    TwoLevelPrefixSum(slices, q, rem, slices);
    assert t[..slices] == t;
  }

  /** The shape of the split: sizes never grow along the sequence, differ by at most one,
      the larger size goes to exactly the first `nsteps % slices` children, and once the
      slice count is clamped to the step count every child has at least one step. */
  lemma SliceSizesShape(nsteps: uint32, slices: uint32)
    requires slices >= 1
    ensures var r := SliceSizes(nsteps, slices);
      NonIncreasing(r) &&
      (forall i, j :: 0 <= i < |r| && 0 <= j < |r| ==> r[i] as int <= r[j] as int + 1) &&
      (forall i :: 0 <= i < |r| ==> (r[i] > nsteps / slices <==> i < nsteps % slices)) &&
      (slices <= nsteps ==> forall i :: 0 <= i < |r| ==> r[i] >= 1)
  {
    var q: int, rem: int := nsteps / slices, nsteps % slices;
    var r := SliceSizes(nsteps, slices);
    assert r == TwoLevel(slices, q, rem);
    forall i | 0 <= i < |r|
      ensures r[i] == if i < rem then q + 1 else q
    {
    }
    if slices <= nsteps {
      assert q >= 1 by {
        assert nsteps == slices * q + rem;
      }
    }
  }

  /** The number of leading elements of s that are above m. */
  function LeadingAbove(s: seq<int>, m: int): (k: nat)
    ensures k <= |s|
    ensures forall i :: 0 <= i < k ==> s[i] > m
    ensures k < |s| ==> s[k] <= m
  {
    if s == [] || s[0] <= m then 0 else 1 + LeadingAbove(s[1..], m)
  }

  /** Euclidean division has a unique quotient and remainder. */
  lemma DivModUnique(n: int, d: int, q: int, rem: int)
    requires d > 0 && 0 <= rem < d && n == d * q + rem
    ensures q == n / d && rem == n % d
  {
    var q', rem' := n / d, n % d;
    assert n == d * q' + rem';
    assert d * (q - q') == rem' - rem;
    if q > q' {
      MulAtLeast(q - q', d);
    } else if q < q' {
      MulAtLeast(q' - q, d);
    }
  }

  /** Any balanced split is the one NBisect computes. */
  lemma BalancedIsSliceSizes(r: seq<int>, nsteps: uint32, slices: uint32)
    requires slices >= 1 && BalancedSplit(r, nsteps, slices)
    ensures r == SliceSizes(nsteps, slices)
  {
    var m := r[slices - 1];
    var k := LeadingAbove(r, m);
    assert k < slices;
    assert r == TwoLevel(slices, m, k) by {
      forall i | 0 <= i < slices
        ensures r[i] == TwoLevel(slices, m, k)[i]
      {
        if i < k {
          assert r[i] <= r[0];
        } else {
          assert r[i] <= r[k];
        }
      }
    }
    TwoLevelPrefixSum(slices, m, k, slices);
    assert r[..slices] == r;
    DivModUnique(nsteps, slices, m, k);
  }

  /** SliceSizes is characterised, in both directions, as THE balanced split. */
  lemma SliceSizesCharacterised(r: seq<int>, nsteps: uint32, slices: uint32)
    requires slices >= 1
    ensures BalancedSplit(r, nsteps, slices) <==> r == SliceSizes(nsteps, slices)
  {
    if BalancedSplit(r, nsteps, slices) {
      BalancedIsSliceSizes(r, nsteps, slices);
    }
    if r == SliceSizes(nsteps, slices) {
      SliceSizesShape(nsteps, slices);
    }
  }

  /** Ten steps in three slices, and three steps asked for in ten slices. */
  lemma SliceSizesExamples()
    ensures SliceSizes(10, ClampSlices(10, 3)) == [4, 3, 3]
    ensures SliceSizes(3, ClampSlices(3, 10)) == [1, 1, 1]
  {
    assert SliceSizes(10, 3)[0] == 4;
  }
}

/**
 * Perlin.h: the lattice noise of the marble texture. The constructor fills a table of 256
 * random numbers and three permutations of 0..255 shuffled by Fisher–Yates; `noise` picks
 * the table entry at the XOR of the three permuted lattice coordinates. The random draws are
 * supplied as inputs.
 */
module Noise {
  import opened Vectors
  import opened Textures

  /** `point_count`: the period of the noise. */
  const PointCount := 256

  /** The identity arrangement `0, 1, ..., n - 1`. */
  function Range(n: nat): (r: seq<int>)
    ensures |r| == n && forall i :: 0 <= i < n ==> r[i] == i
  {
    seq(n, i => i)
  }

  /** A permutation of `0..n-1` holds exactly the values below `n`, each at one place. */
  lemma PermutationValues(s: seq<int>, n: nat)
    requires multiset(s) == multiset(Range(n))
    ensures |s| == n
    ensures forall i :: 0 <= i < |s| ==> 0 <= s[i] < n
    ensures forall v :: 0 <= v < n ==> v in s
  {
    assert |s| == |multiset(s)| == |multiset(Range(n))| == |Range(n)|;
    forall i | 0 <= i < |s|
      ensures 0 <= s[i] < n
    {
      assert s[i] in multiset(Range(n));
      var k :| 0 <= k < n && Range(n)[k] == s[i];
    }
    forall v | 0 <= v < n
      ensures v in s
    {
      assert Range(n)[v] == v;
      assert v in multiset(Range(n));
    }
  }

  /** The draws of `sample_int(0, i)` for the steps `i = n - 1` down to `1`, each in `[0, i]`. */
  ghost predicate Targets(targets: seq<int>, n: int) {
    |targets| == n && forall i :: 1 <= i < n ==> 0 <= targets[i] <= i
  }

  /** The exchange of positions `i` and `j`. */
  function Swap(s: seq<int>, i: int, j: int): (r: seq<int>)
    requires 0 <= i < |s| && 0 <= j < |s|
    ensures |r| == |s| && r[i] == s[j] && r[j] == s[i]
    ensures forall k :: 0 <= k < |s| && k != i && k != j ==> r[k] == s[k]
  {
    s[i := s[j]][j := s[i]]
  }

  /** An exchange is a permutation. */
  lemma SwapPermutes(s: seq<int>, i: int, j: int)
    requires 0 <= i < |s| && 0 <= j < |s|
    ensures multiset(Swap(s, i, j)) == multiset(s)
  {
  }

  /** The shuffle's remaining steps `i` down to `1`, applied to `s`. */
  function Shuffled(s: seq<int>, targets: seq<int>, i: int): (r: seq<int>)
    requires 0 <= i < |s| && Targets(targets, |s|)
    ensures |r| == |s|
    decreases i
  {
    if i == 0 then s else Shuffled(Swap(s, i, targets[i]), targets, i - 1)
  }

  /** The shuffle only exchanges entries: the result is a permutation of its start. */
  lemma {:induction false} ShuffledPermutes(s: seq<int>, targets: seq<int>, i: int)
    requires 0 <= i < |s| && Targets(targets, |s|)
    ensures multiset(Shuffled(s, targets, i)) == multiset(s)
    decreases i
  {
    if i > 0 {
      var t := Swap(s, i, targets[i]);
      assert Shuffled(s, targets, i) == Shuffled(t, targets, i - 1);
      ShuffledPermutes(t, targets, i - 1);
      SwapPermutes(s, i, targets[i]);
    }
  }

  /** Steps `i` and below never touch a position above `i`. */
  lemma {:induction false} ShuffledKeepsAbove(s: seq<int>, targets: seq<int>, i: int, k: int)
    requires 0 <= i < k < |s| && Targets(targets, |s|)
    ensures Shuffled(s, targets, i)[k] == s[k]
    decreases i
  {
    if i > 0 {
      ShuffledKeepsAbove(Swap(s, i, targets[i]), targets, i - 1, k);
    }
  }

  /**
   * `permute(arr, n)`: Fisher–Yates, exchanging `arr[i]` with `arr[target]` for `i` from
   * `n - 1` down to `1`, `target` being the supplied draw in `[0, i]`.
   */
  method Permute(arr: array<int>, targets: seq<int>)
    requires Targets(targets, arr.Length)
    modifies arr
    ensures arr.Length > 0 ==> arr[..] == Shuffled(old(arr[..]), targets, arr.Length - 1)
    ensures multiset(arr[..]) == multiset(old(arr[..]))
  {
    if arr.Length == 0 {
      return;
    }
    ghost var start := arr[..];
    var i := arr.Length - 1;
    while i > 0
      invariant 0 <= i < arr.Length
      invariant Shuffled(arr[..], targets, i) == Shuffled(start, targets, arr.Length - 1)
      decreases i
    {
      var target := targets[i];
      ghost var s := arr[..];
      var temp := arr[i];
      arr[i] := arr[target];
      arr[target] := temp;
      assert arr[..] == Swap(s, i, target);
      i := i - 1;
    }
    ShuffledPermutes(start, targets, arr.Length - 1);
  }

  /** `perlin_generate_perm(arr)`: the identity, shuffled; a permutation of `0..255`. */
  method GeneratePerm(arr: array<int>, targets: seq<int>)
    requires arr.Length == PointCount && Targets(targets, PointCount)
    modifies arr
    ensures arr[..] == Shuffled(Range(PointCount), targets, PointCount - 1)
    ensures multiset(arr[..]) == multiset(Range(PointCount))
  {
    for i := 0 to PointCount
      invariant forall k :: 0 <= k < i ==> arr[k] == k
    {
      arr[i] := i;
    }
    assert arr[..] == Range(PointCount);
    Permute(arr, targets);
  }

  /** `int(x) & 255`: the two's-complement low byte, which is the remainder modulo 256. */
  function Mask(n: int): (m: int)
    ensures 0 <= m < PointCount
    ensures (n - m) % PointCount == 0
  {
    n % PointCount
  }

  /** `perm_x[i] ^ perm_y[j] ^ perm_z[k]` on values below 256, which stays below 256. */
  function Xor3(a: int, b: int, c: int): (r: int)
    requires 0 <= a < PointCount && 0 <= b < PointCount && 0 <= c < PointCount
    ensures 0 <= r < PointCount
  {
    ((a as bv8) ^ (b as bv8) ^ (c as bv8)) as int
  }

  /** `Perlin`: the random table and the three permutations. */
  class Perlin {
    const randomDouble: array<real>
    const permX: array<int>
    const permY: array<int>
    const permZ: array<int>

    /** The tables have 256 entries and each permutation table is a permutation of `0..255`. */
    ghost predicate Valid()
      reads this, randomDouble, permX, permY, permZ
    {
      randomDouble.Length == PointCount &&
      permX.Length == PointCount && permY.Length == PointCount && permZ.Length == PointCount &&
      multiset(permX[..]) == multiset(Range(PointCount)) &&
      multiset(permY[..]) == multiset(Range(PointCount)) &&
      multiset(permZ[..]) == multiset(Range(PointCount))
    }

    /**
     * `Perlin()`: `samples` are the 256 draws of `sample_double()`, and `tx`, `ty`, `tz` the
     * draws of the three shuffles.
     */
    constructor (samples: seq<real>, tx: seq<int>, ty: seq<int>, tz: seq<int>)
      requires |samples| == PointCount
      requires Targets(tx, PointCount) && Targets(ty, PointCount) && Targets(tz, PointCount)
      ensures Valid() && fresh(randomDouble) && fresh(permX) && fresh(permY) && fresh(permZ)
      ensures randomDouble[..] == samples
      ensures permX[..] == Shuffled(Range(PointCount), tx, PointCount - 1)
      ensures permY[..] == Shuffled(Range(PointCount), ty, PointCount - 1)
      ensures permZ[..] == Shuffled(Range(PointCount), tz, PointCount - 1)
    {
      var rd := new real[PointCount];
      var px := new int[PointCount];
      var py := new int[PointCount];
      var pz := new int[PointCount];
      randomDouble, permX, permY, permZ := rd, px, py, pz;
      new;
      for i := 0 to PointCount
        invariant forall k :: 0 <= k < i ==> rd[k] == samples[k]
      {
        rd[i] := samples[i];
      }
      GeneratePerm(px, tx);
      GeneratePerm(py, ty);
      GeneratePerm(pz, tz);
    }

    /** The table index `noise(p)` reads. */
    function NoiseIndex(p: Vec3): (n: int)
      reads this, randomDouble, permX, permY, permZ
      requires Valid()
      ensures 0 <= n < PointCount
    {
      PermutationValues(permX[..], PointCount);
      PermutationValues(permY[..], PointCount);
      PermutationValues(permZ[..], PointCount);
      var i := Mask(Trunc(4.0 * p.x));
      var j := Mask(Trunc(4.0 * p.y));
      var k := Mask(Trunc(4.0 * p.z));
      Xor3(permX[i], permY[j], permZ[k])
    }

    /** `noise(p)`: one of the stored random numbers. */
    function Noise(p: Vec3): (r: real)
      reads this, randomDouble, permX, permY, permZ
      requires Valid()
      ensures exists n :: 0 <= n < PointCount && r == randomDouble[n]
      ensures (forall n :: 0 <= n < PointCount ==> 0.0 <= randomDouble[n] < 1.0) ==> 0.0 <= r < 1.0
    {
      randomDouble[NoiseIndex(p)]
    }
  }
}

/** Eight-lane vectors of reals and the AVX2 operations the kernels use: each
    intrinsic is a function on sequences of eight values, lane by lane as the
    instruction moves them, so that a shuffle in the wrong order would show. The fused
    and the unfused form of a multiply-add agree, reals being exact. */
module Lanes {

  type Vec = v: seq<real> | |v| == 8 witness [0.0, 0.0, 0.0, 0.0, 0.0, 0.0, 0.0, 0.0]

  function Map2(f: (real, real) -> real, a: Vec, b: Vec): (r: Vec)
    ensures forall i {:trigger r[i]} :: 0 <= i < 8 ==> r[i] == f(a[i], b[i])
  {
    seq(8, i requires 0 <= i < 8 => f(a[i], b[i]))
  }

  function VAdd(a: Vec, b: Vec): (r: Vec)
    ensures forall i {:trigger r[i]} :: 0 <= i < 8 ==> r[i] == a[i] + b[i]
  {
    Map2((x: real, y: real) => x + y, a, b)
  }

  function VSub(a: Vec, b: Vec): (r: Vec)
    ensures forall i {:trigger r[i]} :: 0 <= i < 8 ==> r[i] == a[i] - b[i]
  {
    Map2((x: real, y: real) => x - y, a, b)
  }

  function VMul(a: Vec, b: Vec): (r: Vec)
    ensures forall i {:trigger r[i]} :: 0 <= i < 8 ==> r[i] == a[i] * b[i]
  {
    Map2((x: real, y: real) => x * y, a, b)
  }

  function Set1(x: real): (r: Vec)
    ensures forall i {:trigger r[i]} :: 0 <= i < 8 ==> r[i] == x
  {
    seq(8, i => x)
  }

  /** a * b + c, a * b - c and c - a * b: the three fused forms, over exact reals. */
  function MulAdd(a: Vec, b: Vec, c: Vec): Vec {
    VAdd(VMul(a, b), c)
  }

  function MulSub(a: Vec, b: Vec, c: Vec): Vec {
    VSub(VMul(a, b), c)
  }

  function NMulAdd(a: Vec, b: Vec, c: Vec): Vec {
    VSub(c, VMul(a, b))
  }

  /** _mm256_permutevar8x32_ps */
  function PermuteVar(v: Vec, idx: seq<nat>): (r: Vec)
    requires |idx| == 8 && forall i :: 0 <= i < 8 ==> idx[i] < 8
  {
    seq(8, i requires 0 <= i < 8 => v[idx[i]])
  }

  /** _mm256_shuffle_ps with the selector (z, y, x, w): inside each half, two lanes
      of a and then two lanes of b. */
  function Shuffle(a: Vec, b: Vec, z: nat, y: nat, x: nat, w: nat): Vec
    requires z < 4 && y < 4 && x < 4 && w < 4
  {
    [a[w], a[x], b[y], b[z], a[4 + w], a[4 + x], b[4 + y], b[4 + z]]
  }

  function UnpackLow(a: Vec, b: Vec): Vec {
    [a[0], b[0], a[1], b[1], a[4], b[4], a[5], b[5]]
  }

  function UnpackHigh(a: Vec, b: Vec): Vec {
    [a[2], b[2], a[3], b[3], a[6], b[6], a[7], b[7]]
  }

  /** _mm256_permute2f128_ps with selector 0x20: the low halves. */
  function LowHalves(a: Vec, b: Vec): Vec {
    a[..4] + b[..4]
  }

  /** _mm256_permute2f128_ps with selector 0x31: the high halves. */
  function HighHalves(a: Vec, b: Vec): Vec {
    a[4..] + b[4..]
  }

  /** [a0..a7] -> [a7..a0] */
  function Reverse8(v: Vec): (r: Vec)
    ensures forall i {:trigger r[i]} :: 0 <= i < 8 ==> r[i] == v[7 - i]
  {
    PermuteVar(v, [7, 6, 5, 4, 3, 2, 1, 0])
  }

  const ORDER: seq<nat> := [0, 1, 4, 5, 2, 3, 6, 7]

  /** The even and the odd lanes of sixteen interleaved values. */
  function DeinterleaveEven(v0: Vec, v1: Vec): (r: Vec)
    ensures forall i {:trigger r[i]} :: 0 <= i < 8 ==> r[i] == (v0 + v1)[2 * i]
  {
    PermuteVar(Shuffle(v0, v1, 2, 0, 2, 0), ORDER)
  }

  function DeinterleaveOdd(v0: Vec, v1: Vec): (r: Vec)
    ensures forall i {:trigger r[i]} :: 0 <= i < 8 ==> r[i] == (v0 + v1)[2 * i + 1]
  {
    PermuteVar(Shuffle(v0, v1, 3, 1, 3, 1), ORDER)
  }

  /** Sixteen values alternating between two vectors: what the two stores of the
      interleaving write. */
  function Interleave(even: Vec, odd: Vec): (r: seq<real>)
    ensures |r| == 16
    ensures forall i {:trigger r[i]} :: 0 <= i < 16 ==> r[i] == if i % 2 == 0 then even[i / 2] else odd[i / 2]
  {
    var lo, hi := UnpackLow(even, odd), UnpackHigh(even, odd);
    var both := LowHalves(lo, hi) + HighHalves(lo, hi);
    assert both == [even[0], odd[0], even[1], odd[1], even[2], odd[2], even[3], odd[3],
                    even[4], odd[4], even[5], odd[5], even[6], odd[6], even[7], odd[7]];
    both
  }

  /** Interleaving undoes the deinterleaving. */
  lemma InterleaveInverse(v0: Vec, v1: Vec)
    ensures Interleave(DeinterleaveEven(v0, v1), DeinterleaveOdd(v0, v1)) == v0 + v1
  {
    var r := Interleave(DeinterleaveEven(v0, v1), DeinterleaveOdd(v0, v1));
    forall i | 0 <= i < 16
      ensures r[i] == (v0 + v1)[i]
    {
      assert i == 2 * (i / 2) + i % 2;
    }
  }
}

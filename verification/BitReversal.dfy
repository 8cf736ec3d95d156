/** The bit-reversal permutation. */
module BitReversal {
  import opened Dft

  function Pow2(e: nat): (r: nat)
    ensures r > 0
    ensures e > 0 ==> r % 2 == 0
  {
    if e == 0 then 1 else 2 * Pow2(e - 1)
  }

  lemma {:induction false} Pow2Product(a: nat, b: nat)
    ensures Pow2(a + b) == Pow2(a) * Pow2(b)
    decreases b
  {
    if b > 0 {
      Pow2Product(a, b - 1);
      assert Pow2(a + b) == 2 * Pow2(a + b - 1);
    }
  }

  /** i >> b */
  function ShiftRight(i: nat, b: nat): nat {
    if b == 0 then i else ShiftRight(i / 2, b - 1)
  }

  /** (i >> b) & 1 */
  function Bit(i: nat, b: nat): (r: nat)
    ensures r < 2
  {
    ShiftRight(i, b) % 2
  }

  /** The low b bits of i in reverse order, by the recurrence of the shift loop
      r = (r << 1) | bit. */
  function Reverse(i: nat, b: nat): (r: nat)
    ensures r < Pow2(b)
  {
    if b == 0 then 0 else 2 * Reverse(i, b - 1) + Bit(i, b - 1)
  }

  /** The same permutation read from the other end. */
  lemma {:induction false} ReverseFromLow(i: nat, b: nat)
    requires b > 0
    ensures Reverse(i, b) == Reverse(i / 2, b - 1) + (if i % 2 == 1 then Pow2(b - 1) else 0)
    decreases b
  {
    if b == 1 {
      assert Reverse(i, 1) == 2 * Reverse(i, 0) + Bit(i, 0);
    } else {
      ReverseFromLow(i, b - 1);
      assert Bit(i, b - 1) == Bit(i / 2, b - 2);
    }
  }

  /** A number below 2^b has bit b clear; adding 2^b sets it and keeps the others. */
  lemma {:induction false} TopBit(i: nat, b: nat, j: nat)
    requires i < Pow2(b) && j <= b
    ensures j < b ==> Bit(i + Pow2(b), j) == Bit(i, j)
    ensures Bit(i, b) == 0 && Bit(i + Pow2(b), b) == 1
    decreases b
  {
    if b > 0 {
      assert (i + Pow2(b)) / 2 == i / 2 + Pow2(b - 1);
      TopBit(i / 2, b - 1, if j == 0 then 0 else j - 1);
    }
  }

  lemma {:induction false} ReverseIgnoresTop(i: nat, b: nat, k: nat)
    requires i < Pow2(b) && k <= b
    ensures Reverse(i + Pow2(b), k) == Reverse(i, k)
    decreases k
  {
    if k > 0 {
      ReverseIgnoresTop(i, b, k - 1);
      TopBit(i, b, k - 1);
    }
  }

  /** The reversal of a (b+1)-bit number, by its top bit. */
  lemma ReverseTop(i: nat, b: nat)
    requires i < Pow2(b)
    ensures Reverse(i, b + 1) == 2 * Reverse(i, b)
    ensures Reverse(i + Pow2(b), b + 1) == 2 * Reverse(i, b) + 1
  {
    TopBit(i, b, b);
    ReverseIgnoresTop(i, b, b);
  }

  /** Reversing twice is the identity on b-bit numbers. */
  lemma {:induction false} ReverseInvolution(i: nat, b: nat)
    requires i < Pow2(b)
    ensures Reverse(Reverse(i, b), b) == i
    decreases b
  {
    if b > 0 {
      var low := if i < Pow2(b - 1) then i else i - Pow2(b - 1);
      ReverseTop(low, b - 1);
      var reversed := Reverse(i, b);
      ReverseFromLow(reversed, b);
      ReverseInvolution(low, b - 1);
      hide Reverse, Pow2;
      assert reversed == 2 * Reverse(low, b - 1) + if i == low then 0 else 1;
      assert reversed / 2 == Reverse(low, b - 1);
    }
  }

  /** x rearranged so that position i holds the entry at the reversed index. */
  function Permuted<T>(x: seq<T>, b: nat): (y: seq<T>)
    requires |x| == Pow2(b)
    ensures |y| == |x|
    ensures forall i :: 0 <= i < |x| ==> y[i] == x[Reverse(i, b)]
  {
    seq(|x|, i requires 0 <= i < |x| => x[Reverse(i, b)])
  }

  /** Bit reversal is the even entries, reversed, then the odd ones, reversed. */
  lemma PermutedEntries<T>(x: seq<T>, b: nat, i: nat)
    requires b > 0 && |x| == Pow2(b) && i < Pow2(b - 1)
    ensures Permuted(x, b)[i] == Permuted(Evens(x), b - 1)[i]
    ensures Permuted(x, b)[i + Pow2(b - 1)] == Permuted(Odds(x), b - 1)[i]
  {
    ReverseTop(i, b - 1);
    hide Reverse;
  }

  lemma PermutedSplits<T>(x: seq<T>, b: nat)
    requires b > 0 && |x| == Pow2(b)
    ensures Permuted(x, b) == Permuted(Evens(x), b - 1) + Permuted(Odds(x), b - 1)
  {
    var h := Pow2(b - 1);
    var y := Permuted(Evens(x), b - 1) + Permuted(Odds(x), b - 1);
    forall i | 0 <= i < |x|
      ensures Permuted(x, b)[i] == y[i]
    {
      PermutedEntries(x, b, if i < h then i else i - h);
      hide Permuted, Evens, Odds, Reverse;
    }
  }
}

/** Small facts about products, quotients and remainders of variables. The solver is
    slow on such terms among others, so each fact is proved here alone, with nothing
    else in sight, and used by name where it is needed: in the ring of the overlap-add,
    in the packed tables of a plan, and in aligned file offsets. */
module Arith {

  lemma MulAtLeast(k: int, d: int)
    requires 1 <= k && 0 <= d
    ensures d <= k * d
  {}

  lemma EuclidUnique(d: int, q: int, r: int, q': int, r': int)
    requires 0 <= r < d && 0 <= r' < d
    requires q * d + r == q' * d + r'
    ensures q == q' && r == r'
  {
    if q > q' {
      assert (q - q') * d == q * d - q' * d;
      MulAtLeast(q - q', d);
    } else if q < q' {
      assert (q' - q) * d == q' * d - q * d;
      MulAtLeast(q' - q, d);
    }
  }

  lemma DivModDef(x: int, d: int)
    requires 0 < d
    ensures x == (x / d) * d + x % d
    ensures 0 <= x % d < d
  {}

  /** The only quotient and remainder. */
  lemma DivUnique(x: int, d: int, q: int, r: int)
    requires 0 <= r < d
    requires x == q * d + r
    ensures x / d == q && x % d == r
  {
    DivModDef(x, d);
    EuclidUnique(d, q, r, x / d, x % d);
  }

  lemma MulMono(a: nat, b: nat, d: nat)
    requires a <= b
    ensures a * d <= b * d
  {}

  lemma SliceOfPrefix<T>(a: seq<T>, b: seq<T>, lo: nat, hi: nat)
    requires lo <= hi <= |a|
    ensures (a + b)[lo..hi] == a[lo..hi]
  {}

  lemma SliceOfSuffix<T>(a: seq<T>, b: seq<T>)
    ensures (a + b)[|a|..|a| + |b|] == b
  {}
}

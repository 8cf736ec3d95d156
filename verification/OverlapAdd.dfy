/** Overlap-add, and the ring that computes it. */
module OverlapAdd {
  import opened Arith
  import Scalar = IstftKernels
  import Avx2 = IstftAvx2

  /** What the first k contributions, contribution f starting at hop * f, add up to
      at padded position p. */
  function Overlap(contrib: seq<seq<real>>, hop: nat, p: nat, k: nat): real
    requires k <= |contrib|
  {
    if k == 0 then 0.0
    else Overlap(contrib, hop, p, k - 1) + Sample(contrib[k - 1], hop * (k - 1), p)
  }

  /** The value at p of a block placed at `base`, zero outside it. */
  function Sample(block: seq<real>, base: int, p: int): real {
    if base <= p < base + |block| then block[p - base] else 0.0
  }

  ghost predicate AllOfLength(contrib: seq<seq<real>>, n: nat) {
    forall f {:trigger contrib[f]} :: 0 <= f < |contrib| ==> |contrib[f]| == n
  }

  lemma {:induction false} OverlapBeyond(contrib: seq<seq<real>>, hop: nat, n: nat, p: nat, k: nat)
    requires AllOfLength(contrib, n) && k <= |contrib|
    requires k > 0 ==> hop * (k - 1) + n <= p
    ensures Overlap(contrib, hop, p, k) == 0.0
  {
    if k > 0 {
      if k > 1 { assert hop * (k - 2) <= hop * (k - 1); }
      OverlapBeyond(contrib, hop, n, p, k - 1);
    }
  }

  /** Frames that start after p do not change the sum at p. */
  lemma {:induction false} OverlapSettled(contrib: seq<seq<real>>, hop: nat, p: nat, k: nat, more: nat)
    requires k <= more <= |contrib|
    requires k == more || p < hop * k
    ensures Overlap(contrib, hop, p, more) == Overlap(contrib, hop, p, k)
    decreases more
  {
    if k < more {
      OverlapSettled(contrib, hop, p, k, more - 1);
      MulMono(k, more - 1, hop);
      assert hop * k <= hop * (more - 1);
    }
  }

  // ----- The ring ---------------------------------------------------------------

  /** The one position in [emitted, emitted + n) that slot s stands for. */
  function Position(n: nat, emitted: nat, s: nat): nat
    requires 0 < n
  {
    var slot := emitted % n;
    var lap := emitted - slot;
    if s < slot then lap + n + s else lap + s
  }

  /** Every slot holds the sum so far at its position. */
  ghost predicate Ring(ring: seq<real>, contrib: seq<seq<real>>, hop: nat, n: nat, emitted: nat, k: nat)
    requires 0 < n && k <= |contrib|
  {
    && |ring| == n
    && forall s {:trigger ring[s]} :: 0 <= s < n ==>
         ring[s] == Overlap(contrib, hop, Position(n, emitted, s), k)
  }

  lemma EmptyRing(ring: seq<real>, contrib: seq<seq<real>>, hop: nat, n: nat)
    requires 0 < n == |ring|
    requires forall s {:trigger ring[s]} :: 0 <= s < n ==> ring[s] == 0.0
    ensures Ring(ring, contrib, hop, n, 0, 0)
  {}

  /** Advancing by a run that ends no later than the ring's end. */
  lemma AdvanceSlot(n: nat, emitted: nat, run: nat)
    requires 0 < n && 0 < run <= n - emitted % n
    ensures (emitted + run) % n == if emitted % n + run < n then emitted % n + run else 0
  {
    DivModDef(emitted, n);
    var q, slot := emitted / n, emitted % n;
    if slot + run < n {
      DivUnique(emitted + run, n, q, slot + run);
    } else {
      assert (q + 1) * n == q * n + n;
      DivUnique(emitted + run, n, q + 1, 0);
    }
  }

  /** Clearing the slots of an emitted run leaves a ring for the later positions. */
  lemma RingAdvance(ring: seq<real>, next: seq<real>, contrib: seq<seq<real>>, hop: nat, n: nat,
                    emitted: nat, run: nat, k: nat)
    requires 0 < n && k <= |contrib| && AllOfLength(contrib, n)
    requires 0 < run <= n - emitted % n
    requires k > 0 ==> hop * (k - 1) <= emitted
    requires Ring(ring, contrib, hop, n, emitted, k)
    requires |next| == n
    requires forall s {:trigger next[s]} :: 0 <= s < n ==>
               next[s] == if emitted % n <= s < emitted % n + run then 0.0 else ring[s]
    ensures Ring(next, contrib, hop, n, emitted + run, k)
  {
    AdvanceSlot(n, emitted, run);
    var slot := emitted % n;
    forall s | 0 <= s < n
      ensures next[s] == Overlap(contrib, hop, Position(n, emitted + run, s), k)
    {
      if slot <= s < slot + run {
        OverlapBeyond(contrib, hop, n, Position(n, emitted + run, s), k);
      } else {
        assert next[s] == ring[s];
        assert Position(n, emitted + run, s) == Position(n, emitted, s);
      }
    }
  }

  /** Adding a frame that starts at the first live position. */
  lemma RingAdd(ring: seq<real>, next: seq<real>, contrib: seq<seq<real>>, hop: nat, n: nat, k: nat)
    requires 0 < n && k < |contrib| && AllOfLength(contrib, n)
    requires Ring(ring, contrib, hop, n, hop * k, k)
    requires |next| == n
    requires var start := (hop * k) % n;
             forall s {:trigger next[s]} :: 0 <= s < n ==>
               next[s] == ring[s] + contrib[k][if s < start then n - start + s else s - start]
    ensures Ring(next, contrib, hop, n, hop * k, k + 1)
  {
    hide Overlap;
    var base, start := hop * k, (hop * k) % n;
    forall s | 0 <= s < n
      ensures next[s] == Overlap(contrib, hop, Position(n, base, s), k + 1)
    {
      var p := Position(n, base, s);
      assert p - base == if s < start then n - start + s else s - start;
      OverlapNext(contrib, hop, p, k);
    }
  }

  lemma OverlapNext(contrib: seq<seq<real>>, hop: nat, p: nat, k: nat)
    requires k < |contrib|
    ensures Overlap(contrib, hop, p, k + 1) == Overlap(contrib, hop, p, k) + Sample(contrib[k], hop * k, p)
  {}

  /** Adds a frame to the ring in at most two contiguous pieces. */
  method AddToRing(ring: array<real>, block: seq<real>, start: nat, simd: bool)
    requires |block| == ring.Length && start < ring.Length
    modifies ring
    ensures forall s {:trigger ring[s]} :: 0 <= s < ring.Length ==>
              ring[s] == old(ring[s]) + block[if s < start then ring.Length - start + s else s - start]
  {
    var first := ring.Length - start;
    if simd {
      Avx2.AddInplace(ring, start, block[..first]);
    } else {
      Scalar.AddInplace(ring, start, block[..first]);
    }
    if start != 0 {
      if simd {
        Avx2.AddInplace(ring, 0, block[first..]);
      } else {
        Scalar.AddInplace(ring, 0, block[first..]);
      }
    }
  }
}

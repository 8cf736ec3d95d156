/** Little-endian numbers in byte sequences. */
module ByteCodec {

  newtype byte = x: int | 0 <= x < 256

  type Bytes = seq<byte>

  /** A 32-bit float as it lies in memory. */
  datatype Float32 = Float32(b0: byte, b1: byte, b2: byte, b3: byte)

  /** The same byte as text. */
  function AsChar(b: byte): char {
    b as int as char
  }

  function AsText(b: Bytes): (s: string)
    ensures |s| == |b| && forall i {:trigger s[i]} :: 0 <= i < |b| ==> s[i] == AsChar(b[i])
  {
    seq(|b|, i requires 0 <= i < |b| => AsChar(b[i]))
  }

  /** The bytes of the floats as they lie in memory. */
  function RawBytes(samples: seq<Float32>): Bytes {
    if samples == [] then []
    else [samples[0].b0, samples[0].b1, samples[0].b2, samples[0].b3] + RawBytes(samples[1..])
  }

  /** These are the bytes of the floats, each in its own order. */
  ghost predicate AreBytesOf(b: Bytes, samples: seq<Float32>) {
    && |b| == 4 * |samples|
    && forall k {:trigger samples[k]} :: 0 <= k < |samples| ==>
         b[4 * k..4 * k + 4] == [samples[k].b0, samples[k].b1, samples[k].b2, samples[k].b3]
  }

  /** And this is their text. */
  ghost predicate AreCharsOf(text: string, samples: seq<Float32>) {
    && |text| == 4 * |samples|
    && forall k {:trigger samples[k]} :: 0 <= k < |samples| ==>
         && text[4 * k] as int == samples[k].b0 as int && text[4 * k + 1] as int == samples[k].b1 as int
         && text[4 * k + 2] as int == samples[k].b2 as int && text[4 * k + 3] as int == samples[k].b3 as int
  }

  lemma {:induction false} RawBytesExactly(samples: seq<Float32>)
    ensures AreBytesOf(RawBytes(samples), samples)
  {
    if samples != [] {
      var b, rest := RawBytes(samples), samples[1..];
      var first := [samples[0].b0, samples[0].b1, samples[0].b2, samples[0].b3];
      RawBytesExactly(rest);
      assert b == first + RawBytes(rest);
      forall k {:trigger samples[k]} | 0 <= k < |samples|
        ensures b[4 * k..4 * k + 4] == [samples[k].b0, samples[k].b1, samples[k].b2, samples[k].b3]
      {
        if k > 0 {
          assert rest[k - 1] == samples[k];
          assert b[4 * k..4 * k + 4] == RawBytes(rest)[4 * (k - 1)..4 * (k - 1) + 4];
        }
      }
    }
  }

  lemma CharsExactly(b: Bytes, samples: seq<Float32>)
    requires AreBytesOf(b, samples)
    ensures AreCharsOf(AsText(b), samples)
  {
    forall k {:trigger samples[k]} | 0 <= k < |samples|
      ensures b[4 * k] == samples[k].b0 && b[4 * k + 1] == samples[k].b1
           && b[4 * k + 2] == samples[k].b2 && b[4 * k + 3] == samples[k].b3
    {
      var four := b[4 * k..4 * k + 4];
      assert four[0] == b[4 * k] && four[1] == b[4 * k + 1] && four[2] == b[4 * k + 2] && four[3] == b[4 * k + 3];
    }
  }

  lemma {:induction false} RawBytesConcat(a: seq<Float32>, b: seq<Float32>)
    ensures RawBytes(a + b) == RawBytes(a) + RawBytes(b)
  {
    if a == [] {
      assert a + b == b;
    } else {
      assert (a + b)[1..] == a[1..] + b;
      RawBytesConcat(a[1..], b);
    }
  }

  function Pow256(k: nat): (p: nat)
    ensures p > 0
  {
    if k == 0 then 1 else 256 * Pow256(k - 1)
  }

  /** The k low bytes of n, lowest first. */
  function LittleEndian(n: nat, k: nat): (b: Bytes)
    ensures |b| == k
    decreases k
  {
    if k == 0 then [] else [(n % 256) as byte] + LittleEndian(n / 256, k - 1)
  }

  function FromLittleEndian(b: Bytes): (n: nat)
    ensures n < Pow256(|b|)
  {
    if b == [] then 0 else b[0] as nat + 256 * FromLittleEndian(b[1..])
  }

  lemma {:induction false} LittleEndianRoundTrip(n: nat, k: nat)
    requires n < Pow256(k)
    ensures FromLittleEndian(LittleEndian(n, k)) == n
    decreases k
  {
    if k > 0 {
      LittleEndianRoundTrip(n / 256, k - 1);
      assert LittleEndian(n, k)[1..] == LittleEndian(n / 256, k - 1);
    }
  }

  /** Two's complement of k bytes. */
  function Unsigned(n: int, k: nat): int {
    if n < 0 then n + Pow256(k) else n
  }

  function Signed(u: nat, k: nat): int {
    if 2 * u >= Pow256(k) then u - Pow256(k) else u
  }

  /** data holds these bytes at pos. */
  predicate Holds(data: Bytes, pos: nat, bytes: Bytes) {
    pos + |bytes| <= |data| && data[pos..pos + |bytes|] == bytes
  }

  lemma HoldsParts(data: Bytes, pos: nat, a: Bytes, b: Bytes)
    requires Holds(data, pos, a + b)
    ensures Holds(data, pos, a) && Holds(data, pos + |a|, b)
  {
    assert data[pos..pos + |a|] == data[pos..pos + |a + b|][..|a|];
    assert data[pos + |a|..pos + |a| + |b|] == data[pos..pos + |a + b|][|a|..];
  }

  lemma HoldsSlice(data: Bytes, pos: nat, bytes: Bytes, i: nat, j: nat)
    requires Holds(data, pos, bytes) && i <= j <= |bytes|
    ensures data[pos + i..pos + j] == bytes[i..j]
  {
    var part := data[pos..pos + |bytes|];
    forall k | 0 <= k < j - i
      ensures data[pos + i..pos + j][k] == bytes[i..j][k]
    {
      assert part[i + k] == data[pos + i + k];
    }
  }

  /** The number those bytes stand for. */
  lemma NumberAt(data: Bytes, pos: nat, n: nat, size: nat)
    requires n < Pow256(size) && Holds(data, pos, LittleEndian(n, size))
    ensures FromLittleEndian(data[pos..pos + size]) == n
  {
    LittleEndianRoundTrip(n, size);
  }
}

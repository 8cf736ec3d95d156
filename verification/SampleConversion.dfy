/** Samples as 16-bit integers; None is not a finite one. */
module SampleConversion {
  import opened Wrappers

  /** The nearest integer, the even one of two. */
  function RoundEven(x: real): (n: int)
    ensures -0.5 <= n as real - x <= 0.5
  {
    var fraction := x - x.Floor as real;
    if fraction < 0.5 || (fraction == 0.5 && x.Floor % 2 == 0) then x.Floor else x.Floor + 1
  }

  function Min(a: real, b: real): real {
    if b < a then b else a
  }

  function Max(a: real, b: real): real {
    if b > a then b else a
  }

  /** One sample: what is not finite becomes zero, the rest is cut off at full scale. */
  function ToS16(sample: Option<real>): int {
    var x := if sample.Some? then sample.value else 0.0;
    RoundEven(Max(-1.0, Min(1.0, x)) * 32767.0)
  }

  /** One lane of the eight-wide conversion, which clamps in the other order and packs
      with saturation. */
  function LaneToS16(sample: Option<real>): int {
    var masked := if sample.Some? then sample.value else 0.0;
    var n := RoundEven(Min(Max(masked, -1.0), 1.0) * 32767.0);
    if n < -0x8000 then -0x8000 else if n > 0x7FFF then 0x7FFF else n
  }

  /** Both conversions give the same number, which never needs the saturation. */
  lemma LaneIsScalar(sample: Option<real>)
    ensures LaneToS16(sample) == ToS16(sample)
    ensures -0x7FFF <= ToS16(sample) <= 0x7FFF
  {
    var x := if sample.Some? then sample.value else 0.0;
    var clamped := Max(-1.0, Min(1.0, x));
    assert clamped == Min(Max(x, -1.0), 1.0);
    Whole(clamped * 32767.0, 32767);
    hide RoundEven;
  }

  /** Rounding stays within whole bounds. */
  lemma Whole(x: real, bound: int)
    requires -(bound as real) <= x <= bound as real
    ensures -bound <= RoundEven(x) <= bound
  {}

  /** Rounding is symmetric about zero. */
  lemma RoundNegated(x: real)
    ensures RoundEven(-x) == -RoundEven(x)
  {
    var f := x.Floor;
    var fraction := x - f as real;
    assert fraction == 0.0 ==> (-x).Floor == -f;
    assert fraction > 0.0 ==> (-x).Floor == -f - 1;
  }

  lemma RoundWhole(n: int)
    ensures RoundEven(n as real) == n
  {}

  lemma RoundGrows(x: real, y: real)
    requires x <= y
    ensures RoundEven(x) <= RoundEven(y)
  {}

  /** Every finite sample within full scale is off by at most half a step, louder ones
      become full scale, and the conversion keeps signs and order. */
  lemma ConversionFaithful(x: real, y: real)
    ensures -1.0 <= x <= 1.0 ==> -0.5 <= ToS16(Some(x)) as real - x * 32767.0 <= 0.5
    ensures x >= 1.0 ==> ToS16(Some(x)) == 32767
    ensures ToS16(Some(-x)) == -ToS16(Some(x))
    ensures x <= y ==> ToS16(Some(x)) <= ToS16(Some(y))
  {
    var cx, cy := Max(-1.0, Min(1.0, x)), Max(-1.0, Min(1.0, y));
    assert Max(-1.0, Min(1.0, -x)) == -cx;
    RoundNegated(cx * 32767.0);
    if x <= y { RoundGrows(cx * 32767.0, cy * 32767.0); }
    if x >= 1.0 { RoundWhole(32767); }
    hide RoundEven;
  }
}

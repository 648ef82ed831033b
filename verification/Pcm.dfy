/** Rounding and clipping of samples to PCM integers, over exact reals. */
module Pcm {

  datatype IntType = Int8 | Int16 | Int32 | UInt8 | UInt16 | UInt32

  predicate Signed(t: IntType) {
    t.Int8? || t.Int16? || t.Int32?
  }

  function Lowest(t: IntType): int {
    match t
    case Int8 => -0x80
    case Int16 => -0x8000
    case Int32 => -0x8000_0000
    case _ => 0
  }

  function Max(t: IntType): int {
    match t
    case Int8 => 0x7F
    case Int16 => 0x7FFF
    case Int32 => 0x7FFF_FFFF
    case UInt8 => 0xFF
    case UInt16 => 0xFFFF
    case UInt32 => 0xFFFF_FFFF
  }

  /** The upper clamp: the largest value of the type, but for 32 bits the largest single-precision
      number below it, since the largest value itself has no single-precision representation. */
  function ClampMax(t: IntType): (m: int)
    ensures Lowest(t) < m <= Max(t)
  {
    match t
    case Int32 => 0x7FFF_FF80
    case UInt32 => 0xFFFF_FF00
    case _ => Max(t)
  }

  /** std::round: to the nearest integer, halves away from zero. */
  function Round(x: real): (r: int)
    ensures -0.5 <= r as real - x <= 0.5
  {
    if x >= 0.0 then (x + 0.5).Floor else -(0.5 - x).Floor
  }

  function RoundClip(t: IntType, x: real): (i: int)
    ensures Lowest(t) <= i <= Max(t)
  {
    if x <= Lowest(t) as real then Lowest(t)
    else if x >= -Lowest(t) as real then Max(t)
    else
      var r := Round(x);
      if r < Lowest(t) then Lowest(t) else if r > ClampMax(t) then ClampMax(t) else r
  }

  lemma RoundMonotone(x: real, y: real)
    requires x <= y
    ensures Round(x) <= Round(y)
  {
  }

  /** A larger sample never becomes a smaller integer. */
  lemma RoundClipMonotone(t: IntType, x: real, y: real)
    requires x <= y
    ensures RoundClip(t, x) <= RoundClip(t, y)
  {
    RoundMonotone(x, y);
  }

  /** For signed types the result is the rounded sample exactly if that fits under the clamps. */
  lemma RoundClipExact(t: IntType, x: real)
    requires Signed(t)
    ensures RoundClip(t, x) == Round(x) <==> Lowest(t) <= Round(x) <= ClampMax(t)
  {
    if x >= -Lowest(t) as real {
      RoundMonotone(-Lowest(t) as real, x);
    }
    if x <= Lowest(t) as real {
      RoundMonotone(x, Lowest(t) as real);
    }
  }

  /** For unsigned types both range tests compare with zero, so nothing in between gets through. */
  lemma UnsignedSaturates(t: IntType, x: real)
    requires !Signed(t)
    ensures RoundClip(t, x) == if x <= 0.0 then 0 else Max(t)
  {
  }

  /** Halves are rounded away from zero. */
  lemma RoundHalvesAway(k: nat)
    ensures Round(k as real + 0.5) == k + 1 && Round(-(k as real + 0.5)) == -(k + 1)
  {
    assert (k as real + 0.5 + 0.5).Floor == k + 1;
  }

  /** The 16-bit result: the limits of the type beyond its range, and the nearest integer in it. */
  lemma Int16Result(x: real)
    ensures x <= -32768.0 ==> RoundClip(Int16, x) == -32768
    ensures x >= 32767.5 ==> RoundClip(Int16, x) == 32767
    ensures -32768.0 < x < 32767.5 ==> RoundClip(Int16, x) == Round(x) && -32768 <= Round(x) <= 32767
  {
  }

  /** The 32-bit result: likewise, but between the largest single-precision number below the maximum
      and 2^31 it is that number. */
  lemma Int32Result(x: real)
    ensures x <= -2147483648.0 ==> RoundClip(Int32, x) == -2147483648
    ensures x >= 2147483648.0 ==> RoundClip(Int32, x) == 2147483647
    ensures 2147483520.0 <= x < 2147483648.0 ==> RoundClip(Int32, x) == 2147483520
    ensures -2147483648.0 < x < 2147483520.0 ==> RoundClip(Int32, x) == Round(x)
  {
  }

  // ---------- Sample formats ----------

  const S16_SCALE: real := 32766.0

  /** The literal 2147483646.0f is not a single-precision number; this is the value it stands for. */
  const S32_SCALE: real := 2147483648.0

  function ToS16(x: real, dither: real): int {
    RoundClip(Int16, x * S16_SCALE + dither)
  }

  function ToS32(x: real): int {
    RoundClip(Int32, x * S32_SCALE)
  }

  /** The bitwise conjunction of two bit patterns. */
  function BitAnd(a: nat, b: nat): nat {
    if a == 0 || b == 0 then 0 else a % 2 * (b % 2) + 2 * BitAnd(a / 2, b / 2)
  }

  /** The two's complement pattern of a 32-bit integer, and back. */
  function Bits(s: int): nat
    requires -0x8000_0000 <= s < 0x8000_0000
  {
    if s < 0 then s + 0x1_0000_0000 else s
  }

  function FromBits(n: nat): int {
    if n >= 0x8000_0000 then n - 0x1_0000_0000 else n
  }

  /** 24 significant bits in a 32-bit container. */
  function ToS24(x: real): int {
    FromBits(BitAnd(Bits(ToS32(x)), 0xFFFF_FF00))
  }

  /** Between -1 and 1, with dither of at most one step, 16-bit conversion never clips: the result is
      the rounded sample, and within one and a half steps of the scaled input. */
  lemma S16Headroom(x: real, dither: real)
    requires -1.0 <= x <= 1.0 && -1.0 <= dither <= 1.0
    ensures ToS16(x, dither) == Round(x * 32766.0 + dither)
    ensures -0x8000 < ToS16(x, dither) <= 0x7FFF
    ensures -1.5 <= ToS16(x, dither) as real - x * 32766.0 <= 1.5
  {
    var y := x * S16_SCALE + dither;
    assert -32766.0 <= x * S16_SCALE <= 32766.0;
    RoundMonotone(-32767.0, y);
    RoundMonotone(y, 32767.0);
  }

  /** A 32-bit sample is within half a step of 2^31 times the input, up to the upper clamp; from 1 on it
      is the largest 32-bit integer, and up to -1 the smallest. */
  lemma S32Value(x: real)
    ensures -1.0 <= x < 1.0 && x * 2147483648.0 <= 2147483520.0 ==>
              ToS32(x) == Round(x * 2147483648.0) && -0.5 <= ToS32(x) as real - x * 2147483648.0 <= 0.5
    ensures x < 1.0 && x * 2147483648.0 > 2147483520.0 ==> ToS32(x) == 0x7FFF_FF80
    ensures x >= 1.0 ==> ToS32(x) == 0x7FFF_FFFF
    ensures x <= -1.0 ==> ToS32(x) == -0x8000_0000
  {
    Int32Result(x * 2147483648.0);
  }

  /** A 24-bit sample is a multiple of 256, and the 32-bit sample is less than 256 above it. */
  lemma S24Value(x: real)
    ensures ToS24(x) % 256 == 0 && ToS24(x) <= ToS32(x) < ToS24(x) + 256
  {
    S24IsS32RoundedDown(x);
    hide ToS24;
    var q := ToS32(x) / 256;
    assert ToS24(x) == 256 * q;
  }

  /** k ones in binary. */
  function Ones(k: nat): nat {
    if k == 0 then 0 else 2 * Ones(k - 1) + 1
  }

  /** A mask of k ones keeps every pattern of k bits. */
  lemma {:induction false} OnesKeep(a: nat, k: nat)
    requires a <= Ones(k)
    ensures BitAnd(a, Ones(k)) == a
    decreases k
  {
    if k != 0 {
      OnesKeep(a / 2, k - 1);
    }
  }

  /** A mask whose last bit is clear clears the last bit. */
  lemma AndDouble(a: nat, b: nat)
    ensures BitAnd(a, 2 * b) == 2 * BitAnd(a / 2, b)
  {
    if a == 0 || b == 0 {
      assert BitAnd(a / 2, b) == 0;
    } else {
      assert 2 * b / 2 == b && 2 * b % 2 == 0;
    }
  }

  lemma AndTimes4(a: nat, b: nat)
    ensures BitAnd(a, 4 * b) == 4 * BitAnd(a / 4, b)
  {
    hide BitAnd;
    AndDouble(a, 2 * b);
    AndDouble(a / 2, b);
    assert a / 2 / 2 == a / 4;
  }

  lemma AndTimes16(a: nat, b: nat)
    ensures BitAnd(a, 16 * b) == 16 * BitAnd(a / 16, b)
  {
    hide BitAnd;
    AndTimes4(a, 4 * b);
    AndTimes4(a / 4, b);
    assert a / 4 / 4 == a / 16;
  }

  lemma TwentyFourOnes()
    ensures Ones(24) == 0xFF_FFFF
  {
    assert Ones(4) == 0xF;
    assert Ones(8) == 0xFF;
    assert Ones(12) == 0xFFF;
    assert Ones(16) == 0xFFFF;
    assert Ones(20) == 0xF_FFFF;
  }

  lemma LowByte(a: nat)
    requires a < 0x1_0000_0000
    ensures BitAnd(a, 0xFFFF_FF00) == a - a % 256
  {
    hide BitAnd, Ones;
    TwentyFourOnes();
    OnesKeep(a / 256, 24);
    AndTimes16(a, 0xFFF_FFF0);
    AndTimes16(a / 16, 0xFF_FFFF);
    assert a / 16 / 16 == a / 256;
  }

  /** The 24-bit result is the 32-bit result rounded down to a multiple of 256. */
  lemma S24IsS32RoundedDown(x: real)
    ensures ToS24(x) == ToS32(x) - ToS32(x) % 256
  {
    hide BitAnd;
    LowByte(Bits(ToS32(x)));
  }
}

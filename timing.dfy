/**
 * The timing engine: the gain clamp and byte split, the free-run exposure
 * encoding (shutter count SHS for short exposures, frame length for long
 * ones), and the 32-bit tick count used in external-trigger mode.
 *
 * All arithmetic is written in the C types the driver uses: u32 values
 * wrap modulo 2^32, the long-exposure dividend is a u64, and a shift
 * followed by a mask is a division followed by a remainder.
 */
module Timing {
  import opened Bus

  /* ---------------------------------------------------------------- gain */

  /** Gain limits, in tenths of a decibel. */
  const GAIN_MIN: int := 0
  const GAIN_MAX: int := 480
  const GAIN_DEFAULT: int := 20

  /**
   * The value `imx273_set_gain` stores: the request converted to the u32
   * field, then clamped. The lower clamp compares an unsigned field with 0
   * and can never fire, so only the upper clamp acts.
   */
  function GainFromRequest(val: int): (g: u32)
    ensures g <= GAIN_MAX
  {
    var v := val % U32_RANGE;
    if v > GAIN_MAX then GAIN_MAX else v
  }

  /** The stored gain is min(val mod 2^32, 480); in particular small negative requests become 480. */
  lemma GainClamp(val: int)
    ensures GainFromRequest(val) == if val % U32_RANGE > GAIN_MAX then GAIN_MAX else val % U32_RANGE
    ensures GAIN_MIN <= val <= GAIN_MAX ==> GainFromRequest(val) == val
    ensures GAIN_MAX < val < U32_RANGE ==> GainFromRequest(val) == GAIN_MAX
    ensures -U32_RANGE + GAIN_MAX < val < 0 ==> GainFromRequest(val) == GAIN_MAX
  {
  }

  /** Re-applying a stored gain (as stream start does) stores the same value. */
  lemma GainIdempotent(val: int)
    ensures GainFromRequest(GainFromRequest(val)) == GainFromRequest(val)
  {
  }

  /** The byte written to the GAIN_HIGH role: `(g >> 8) & 0xff`. */
  function HighByte(g: nat): u8 { (g / 256) % 256 }

  /** The byte written to the GAIN_LOW role: `g & 0xff`. */
  function LowByte(g: nat): u8 { g % 256 }

  /** The two gain bytes recombine, `(high << 8) | low`, to the stored gain. */
  lemma GainBytesRecombine(val: int)
    ensures var g := GainFromRequest(val);
      HighByte(g) * 256 + LowByte(g) == g && HighByte(g) <= 1
  {
  }

  /* ---------------------------------------------------- free-run exposure */

  /** Exposure limits of `imx273_set_exposure`, in microseconds. */
  const EXPOSURE_MIN: int := 29
  const EXPOSURE_MAX: int := 15110711
  const EXPOSURE_DEFAULT: int := 10000

  /** The value `imx273_set_exposure` stores: the request as a u32, clamped to [29, 15110711]. */
  function ExposureFromRequest(val: int): (e: u32)
    ensures EXPOSURE_MIN <= e <= EXPOSURE_MAX
    ensures EXPOSURE_MIN <= val <= EXPOSURE_MAX ==> e == val
  {
    var v := val % U32_RANGE;
    if v < EXPOSURE_MIN then EXPOSURE_MIN else if v > EXPOSURE_MAX then EXPOSURE_MAX else v
  }

  /**
   * The calibration parameters of `imx_exposure_296_297`. `nrLines` and
   * `vMax` are accepted but unused by the live code: vMax is replaced by
   * the value read back from the sensor.
   */
  datatype ExposureTiming = ExposureTiming(
    expMin0: int, expMin1: int, expMax: int, nrLines: int,
    tOffset: int, h1Period: int, vMax: int)

  /** Parameters are non-negative s32 values and the line period is not zero. */
  ghost predicate ValidTiming(p: ExposureTiming)
  {
    && 0 <= p.expMin0 < 0x8000_0000 && 0 <= p.expMin1 < 0x8000_0000
    && 0 <= p.expMax < 0x8000_0000 && 0 <= p.tOffset < 0x8000_0000
    && 0 < p.h1Period < 0x8000_0000
  }

  /** IMX296: 1H period 14.815 us, offset 14.260 us, both as 1/16384 us. */
  const IMX296: ExposureTiming := ExposureTiming(29, 16504, 15534389, 1118, 233636, 242726, 1118)
  /** IMX297 (defined, not selected by the live code). */
  const IMX297: ExposureTiming := ExposureTiming(29, 8359, 15110711, 574, 233636, 236106, 574)

  /** The frame-rate multiplier, fixed at 1000 (per mille). */
  const MULTIPLIER: int := 1000

  /** The second clamp, to [expMin0, expMax], done inside the free-run encoder. */
  function ClampToTiming(p: ExposureTiming, e: u32): (r: u32)
    requires ValidTiming(p)
    ensures p.expMin0 <= p.expMax ==> p.expMin0 <= r <= p.expMax
  {
    var a := if e < p.expMin0 then p.expMin0 else e;
    if a > p.expMax then p.expMax else a
  }

  /** After the outer clamp to [29, 15110711], the IMX296 clamp changes nothing. */
  lemma InnerClampIsIdentity(val: int)
    ensures ClampToTiming(IMX296, ExposureFromRequest(val)) == ExposureFromRequest(val)
  {
  }

  /** The short branch is taken exactly for clamped exposures below expMin1. */
  predicate IsShort(p: ExposureTiming, e: int)
  {
    e < p.expMin1
  }

  /**
   * The VMAX read-back: three register reads, high, middle, low. A read that
   * returns 0 is skipped (the accumulator is not shifted), and a negative
   * errno contributes its low byte.
   */
  function VmaxFromReads(rh: int, rm: int, rl: int): (v: nat)
    ensures v < 0x100_0000
  {
    var v1 := if rh != 0 then rh % 256 else 0;
    var v2 := if rm != 0 then v1 * 256 + rm % 256 else v1;
    if rl != 0 then v2 * 256 + rl % 256 else v2
  }

  /** With three non-zero bytes read back, VMAX is their big-endian value. */
  lemma VmaxThreeBytes(rh: u8, rm: u8, rl: u8)
    requires rh != 0 && rm != 0 && rl != 0
    ensures VmaxFromReads(rh, rm, rl) == rh * 0x1_0000 + rm * 0x100 + rl
  {
  }

  /** The quirk: a zero middle byte is dropped rather than shifted in, so VMAX is off by a factor of 256. */
  lemma VmaxZeroMiddleSkipped(rh: u8, rl: u8)
    requires rh != 0 && rl != 0
    ensures VmaxFromReads(rh, 0, rl) == rh * 0x100 + rl
    ensures VmaxFromReads(rh, 0, rl) != rh * 0x1_0000 + rl
  {
  }

  /** A failed read is not detected: its errno's low byte is taken as register content. */
  lemma VmaxFailedReadUsesErrnoByte(rm: u8, rl: u8)
    requires rm != 0 && rl != 0
    ensures VmaxFromReads(-EIO, rm, rl) == 0xFB * 0x1_0000 + rm * 0x100 + rl
  {
  }

  /** The quotient of the exposure formula in the short branch (u32 arithmetic). */
  function ShortLines(p: ExposureTiming, e: u32): u32
    requires ValidTiming(p)
  {
    ((e * 16384) % U32_RANGE - p.tOffset) % U32_RANGE / p.h1Period
  }

  /**
   * SHS of the short branch: vMax minus the exposure in lines, minus the
   * frame-rate term vMax - vMax*multiplier/1000, all in u32, raised to 14.
   */
  function ShortShutter(p: ExposureTiming, e: u32, vMax: nat): (shs: u32)
    requires ValidTiming(p)
    ensures shs >= 14
  {
    var s0 := (vMax - ShortLines(p, e)) % U32_RANGE;
    var m := (vMax * MULTIPLIER) % U32_RANGE / 1000;
    var s1 := (s0 - (vMax - m) % U32_RANGE) % U32_RANGE;
    if s1 < 14 then 14 else s1
  }

  /** The exposure in lines for the long branch (u64 dividend, do_div by the line period). */
  function LongLines(p: ExposureTiming, e: u32): nat
    requires ValidTiming(p)
  {
    ((e * 16384 - p.tOffset) % U64_RANGE) / p.h1Period
  }

  /** The frame length of the long branch: 15 + (u32)lines * multiplier / 1000 in u32. */
  function LongFrameLength(p: ExposureTiming, e: u32): (fl: u32)
    requires ValidTiming(p)
    ensures fl >= 15
  {
    15 + ((LongLines(p, e) % U32_RANGE) * MULTIPLIER) % U32_RANGE / 1000
  }

  /** The high, middle and low bytes of a 24-bit field whose high byte is masked to 3 bits. */
  function Field19High(x: nat): u8 { (x / 0x1_0000) % 8 }
  function Field19Mid(x: nat): u8 { (x / 0x100) % 256 }
  function Field19Low(x: nat): u8 { x % 256 }

  /** The three bytes written for a frame length or a shutter value carry its low 19 bits. */
  lemma Field19Recombine(x: nat)
    ensures Field19High(x) * 0x1_0000 + Field19Mid(x) * 0x100 + Field19Low(x) == x % 0x8_0000
  {
    var lo := x % 0x100;
    var mid := (x / 0x100) % 0x100;
    var hi := (x / 0x1_0000) % 8;
    assert x == (x / 0x100) * 0x100 + lo;
    assert x / 0x100 == (x / 0x1_0000) * 0x100 + mid;
    assert x / 0x1_0000 == (x / 0x8_0000) * 8 + hi;
    assert x == (x / 0x8_0000) * 0x8_0000 + (hi * 0x1_0000 + mid * 0x100 + lo);
  }

  /** For a short-branch exposure on the IMX296 the quotient is computed without u32 wrap-around and is at most 1113 lines. */
  lemma ShortLinesImx296(e: u32)
    requires IMX296.expMin0 <= e < IMX296.expMin1
    ensures ShortLines(IMX296, e) == (e * 16384 - IMX296.tOffset) / IMX296.h1Period
    ensures ShortLines(IMX296, e) <= 1113
  {
    var p := IMX296;
    assert 475136 <= e * 16384 < U32_RANGE;
    assert (e * 16384) % U32_RANGE == e * 16384;
    assert (e * 16384 - p.tOffset) % U32_RANGE == e * 16384 - p.tOffset;
    assert e * 16384 - p.tOffset < 1114 * p.h1Period;
  }

  /** The per-mille frame-rate term is the identity while vMax * 1000 fits in a u32. */
  lemma MultiplierIdentity(vMax: nat)
    requires vMax * MULTIPLIER < U32_RANGE
    ensures (vMax * MULTIPLIER) % U32_RANGE / 1000 == vMax
  {
  }

  /**
   * Short branch on the live IMX296 parameters, for a read-back vMax that
   * covers the exposure: no u32 wrap-around happens, the frame-rate term is
   * zero, and SHS = max(14, vMax - (e*16384 - tOffset) / h1Period).
   */
  lemma ShortShutterImx296(e: u32, vMax: nat)
    requires IMX296.expMin0 <= e < IMX296.expMin1
    requires vMax * MULTIPLIER < U32_RANGE
    requires (e * 16384 - IMX296.tOffset) / IMX296.h1Period <= vMax
    ensures var d := vMax - (e * 16384 - IMX296.tOffset) / IMX296.h1Period;
      ShortShutter(IMX296, e, vMax) == if d < 14 then 14 else d
  {
    ShortLinesImx296(e);
    MultiplierIdentity(vMax);
  }

  /**
   * The unguarded case of the short branch: when the read-back vMax is
   * smaller than the exposure in lines, the u32 subtraction wraps and SHS
   * becomes a value near 2^32 rather than being raised to 14.
   */
  lemma ShortShutterWrapsImx296(e: u32, vMax: nat)
    requires IMX296.expMin0 <= e < IMX296.expMin1
    requires vMax < (e * 16384 - IMX296.tOffset) / IMX296.h1Period
    ensures ShortShutter(IMX296, e, vMax)
         == U32_RANGE + vMax - (e * 16384 - IMX296.tOffset) / IMX296.h1Period
  {
    ShortLinesImx296(e);
    MultiplierIdentity(vMax);
  }

  /** The worked example: 10000 us with vMax 1118 gives SHS 444. */
  lemma ShortShutterExample()
    ensures ShortShutter(IMX296, 10000, 1118) == 444
  {
    ShortShutterImx296(10000, 1118);
  }

  /**
   * The frame-rate term is meant to vanish at multiplier 1000, but vMax*1000
   * is computed in u32: a read-back vMax of 0x500000 loses 4294968 lines.
   */
  lemma ShortShutterMultiplierWraps()
    ensures ShortShutter(IMX296, 10000, 0x50_0000) == 947238
    ensures 0x50_0000 - ShortLines(IMX296, 10000) == 5242206
  {
  }

  /**
   * Long branch on the live IMX296 parameters: no u64 wrap-around, the
   * multiplier term is the identity, and the frame length is
   * 15 + (e*16384 - tOffset) / h1Period.
   */
  lemma LongFrameLengthImx296(e: u32)
    requires IMX296.expMin1 <= e <= IMX296.expMax
    ensures LongFrameLength(IMX296, e) == 15 + (e * 16384 - IMX296.tOffset) / IMX296.h1Period
  {
    var p := IMX296;
    assert e * 16384 - p.tOffset >= 0;
    assert e * 16384 - p.tOffset < U64_RANGE;
    assert (e * 16384 - p.tOffset) % U64_RANGE == e * 16384 - p.tOffset;
    var q := (e * 16384 - p.tOffset) / p.h1Period;
    assert q < 1048576 by {
      assert e * 16384 - p.tOffset < 1048576 * p.h1Period;
    }
    assert q % U32_RANGE == q;
    assert q * MULTIPLIER < U32_RANGE;
    assert (q * MULTIPLIER) % U32_RANGE == q * MULTIPLIER;
    assert (q * MULTIPLIER) / 1000 == q;
  }

  /** Longer requested exposures never give shorter long-branch frame lengths. */
  lemma LongFrameLengthMonotonic(e1: u32, e2: u32)
    requires IMX296.expMin1 <= e1 <= e2 <= IMX296.expMax
    ensures LongFrameLength(IMX296, e1) <= LongFrameLength(IMX296, e2)
  {
    LongFrameLengthImx296(e1);
    LongFrameLengthImx296(e2);
    var p := IMX296;
    DivMonotonic(e1 * 16384 - p.tOffset, e2 * 16384 - p.tOffset, p.h1Period);
  }

  lemma DivMonotonic(a: nat, b: nat, d: nat)
    requires a <= b && d > 0
    ensures a / d <= b / d
  {
    var qa, qb := a / d, b / d;
    assert qa * d <= a;
    assert b < qb * d + d == (qb + 1) * d;
    MulCancelLess(qa, qb + 1, d);
  }

  lemma MulCancelLess(x: nat, y: nat, d: nat)
    ensures x * d < y * d ==> x < y
  {
    if x >= y {
      MulMonotonic(y, x, d);
    }
  }

  /**
   * The 19-bit truncation: the longest exposure the driver accepts needs a
   * frame length above 2^19, but only its low 19 bits reach the registers.
   */
  lemma FrameLengthTruncatedAtMax()
    ensures LongFrameLength(IMX296, EXPOSURE_MAX) >= 0x8_0000
    ensures LongFrameLength(IMX296, EXPOSURE_MAX) % 0x8_0000 != LongFrameLength(IMX296, EXPOSURE_MAX)
  {
    LongFrameLengthImx296(EXPOSURE_MAX);
  }

  /* ------------------------------------------------------ trigger mode */

  /** C integer division, which truncates toward zero. */
  function TruncDiv(a: int, b: int): int
    requires b > 0
  {
    if a >= 0 then a / b else -((-a) / b)
  }

  /** Clock ticks per microsecond: `sen_clk / 1000000`. */
  function TicksPerMicrosecond(senClk: int): int
  {
    TruncDiv(senClk, 1000000)
  }

  /** The trigger-mode shutter value: the u32 product exposure * (sen_clk / 1000000), widened to u64. */
  function TriggerTicks(e: u32, senClk: int): (t: u32)
  {
    (e * TicksPerMicrosecond(senClk)) % U32_RANGE
  }

  /** Byte k (0 = least significant) of a 32-bit value: `(x >> 8k) & 0xff`. */
  function ByteOf(x: nat, k: nat): u8
    requires k < 4
  {
    if k == 0 then x % 0x100
    else if k == 1 then (x / 0x100) % 0x100
    else if k == 2 then (x / 0x1_0000) % 0x100
    else (x / 0x100_0000) % 0x100
  }

  /** The four bytes, least significant first, recombine to the 32-bit value. */
  lemma BytesRecombine(x: u32)
    ensures ByteOf(x, 0) + 0x100 * ByteOf(x, 1) + 0x1_0000 * ByteOf(x, 2) + 0x100_0000 * ByteOf(x, 3) == x
  {
    var b0 := x % 0x100;
    var b1 := (x / 0x100) % 0x100;
    var b2 := (x / 0x1_0000) % 0x100;
    var b3 := (x / 0x100_0000) % 0x100;
    assert x == (x / 0x100) * 0x100 + b0;
    assert x / 0x100 == (x / 0x1_0000) * 0x100 + b1;
    assert x / 0x1_0000 == (x / 0x100_0000) * 0x100 + b2;
    assert x / 0x100_0000 == b3;
  }

  /** When the product fits in 32 bits, the tick count is exact. */
  lemma TriggerTicksExact(e: u32, senClk: int)
    requires senClk >= 0
    requires e * (senClk / 1000000) < U32_RANGE
    ensures TriggerTicks(e, senClk) == e * (senClk / 1000000)
  {
  }

  /** Below 285 MHz no accepted exposure makes the tick count wrap. */
  lemma TriggerTicksNoWrap(e: u32, senClk: int)
    requires EXPOSURE_MIN <= e <= EXPOSURE_MAX
    requires 0 <= senClk < 285_000_000
    ensures TriggerTicks(e, senClk) == e * (senClk / 1000000)
  {
    var c := senClk / 1000000;
    assert c <= 284;
    MulMonotonic(e, EXPOSURE_MAX, c);
    assert EXPOSURE_MAX * c <= EXPOSURE_MAX * 284;
  }

  /** The tick count grows with the exposure as long as the product stays within 32 bits. */
  lemma TriggerTicksMonotonic(e1: u32, e2: u32, senClk: int)
    requires senClk >= 0
    requires e1 <= e2
    requires e2 * (senClk / 1000000) < U32_RANGE
    ensures TriggerTicks(e1, senClk) <= TriggerTicks(e2, senClk)
  {
    var c := senClk / 1000000;
    MulMonotonic(e1, e2, c);
  }

  lemma MulMonotonic(a: nat, b: nat, c: nat)
    requires a <= b
    ensures a * c <= b * c
  {
  }

  /**
   * The bare u32 product wraps once it passes 2^32: at 54 MHz, an exposure of
   * 79536432 us gives 79536432 * 54 ticks, which is 32 more than 2^32. This is
   * about the product alone. The exposure is above EXPOSURE_MAX, so set-exposure
   * clamps it first and never computes this count (TriggerTicksNoWrap).
   */
  lemma TriggerTicksWrapExample()
    ensures TriggerTicks(79536432, 54_000_000) == 79536432 * 54 - U32_RANGE
  {
  }
}

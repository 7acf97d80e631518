/**
 * Rust's numeric conversions as the renderer uses them, written out over
 * `real`: `f32::round`, and the saturating float-to-integer casts
 * `as u8` and `as u32` (truncate toward zero, then clamp to the target range).
 */
module Casts {
  const U8_MAX: int := 255
  const U32_MAX: int := 0xFFFF_FFFF

  type u8 = x: int | 0 <= x <= 255
  type u32 = x: int | 0 <= x <= 0xFFFF_FFFF

  /** Truncation toward zero. */
  function Trunc(x: real): (r: int)
    ensures 0.0 <= x ==> 0 <= r && r as real <= x < r as real + 1.0
    ensures x < 0.0 ==> r <= 0 && x <= r as real < x + 1.0
  {
    if x >= 0.0 then x.Floor else -((-x).Floor)
  }

  function Clamp(v: int, lo: int, hi: int): (r: int)
    requires lo <= hi
    ensures lo <= r <= hi
    ensures lo <= v <= hi ==> r == v
  {
    if v < lo then lo else if v > hi then hi else v
  }

  /** `x as u8` for a finite `x`. */
  function SatU8(x: real): (r: u8)
    ensures x < 1.0 ==> r == 0
    ensures 1.0 <= x < 256.0 ==> r as real <= x < r as real + 1.0
    ensures x >= 255.0 ==> r == 255
  {
    Clamp(Trunc(x), 0, U8_MAX)
  }

  /** `x as u32` for a finite `x`. */
  function SatU32(x: real): (r: u32)
    ensures x < 1.0 ==> r == 0
    ensures 1.0 <= x < U32_MAX as real + 1.0 ==> r as real <= x < r as real + 1.0
    ensures x >= U32_MAX as real ==> r == U32_MAX
  {
    Clamp(Trunc(x), 0, U32_MAX)
  }

  /** `f32::round`: the nearest integer, halfway cases away from zero. */
  function Round(x: real): (r: int)
    ensures x - 0.5 <= r as real <= x + 0.5
    ensures r as real == x + 0.5 ==> x >= 0.0
    ensures r as real == x - 0.5 ==> x <= 0.0
  {
    if x >= 0.0 then (x + 0.5).Floor else -((0.5 - x).Floor)
  }

  /** Saturating casts preserve order: a brighter input never gives a darker channel. */
  lemma SatU8Monotone(x: real, y: real)
    requires x <= y
    ensures SatU8(x) <= SatU8(y)
  {
    assert Trunc(x) <= Trunc(y);
  }

  /** An integer at or above `m` is at or above `m` rounded; one at or below `m` is at or below it. */
  lemma RoundBrackets(m: real, k: int)
    ensures m <= k as real ==> Round(m) <= k
    ensures k as real <= m ==> k <= Round(m)
  {
  }
}

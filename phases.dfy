/** The two classifications every effect combines (main.cpp
    `christmas_lights::colors`, `get_space_state`, `get_time_state`): which
    lamp slot a light belongs to, and which phase of a cycle a time is in. */
module Phases {
  import opened CArith
  import opened ColorOps

  /** `christmas_lights::colors`: the palette, one colour per slot. With
      red in the low byte these are red, yellow, green and blue. */
  const Colors: seq<Color> := [0x0000ee, 0x00bbbb, 0x00cc00, 0xff4400]

  /** Every palette colour is lit and uses only the three channel bytes. */
  lemma PaletteIsRgb()
    ensures |Colors| == 4
    ensures forall s :: 0 <= s < 4 ==> 0 < Colors[s] < RgbLimit
  {
  }

  /** The largest light index `i` for which `i * 160` fits a 32-bit int. */
  const MaxIndex: int := IntMax / 160

  /** `get_space_state`: the strip is cut into 160 equal segments; segment
      `x` (counted modulo 8) gives slot `x / 2` when `x` is even and no slot
      (-1) when it is odd. Every caller passes `0 <= i < w`, where C++'s
      truncating division agrees with Dafny's; `i * 160` must fit an `int`. */
  function SpaceState(i: int, w: int): (s: int)
    requires 0 <= i && 0 < w && i * 160 <= IntMax
    ensures -1 <= s <= 3
    ensures s == -1 <==> (i * 160 / w) % 8 % 2 == 1
    ensures s != -1 ==> s * 2 == (i * 160 / w) % 8
  {
    var x := (i * 160 / w) % 8;
    if x % 2 == 0 then x / 2 else -1
  }

  /** On a strip whose width is a multiple of 20, the slot pattern repeats
      every `w / 20` lights (one full round of eight segments). */
  lemma {:induction false} SpaceStatePeriodic(i: int, w: int)
    requires 0 < w && w % 20 == 0 && 0 <= i && i + w / 20 <= MaxIndex
    ensures SpaceState(i + w / 20, w) == SpaceState(i, w)
  {
    var a := i * 160;
    assert (i + w / 20) * 160 == a + 8 * w;
    var q, r := a / w, a % w;
    DivUnique(a + 8 * w, w, q + 8, r);
    assert (q + 8) % 8 == q % 8;
  }

  /** Slots on the eight-light strip: one light spans 20 segments, so light
      1 starts in segment 20 (slot 2) and light 2 in segment 40 (slot 0). */
  lemma SpaceStateExamples()
    ensures SpaceState(0, 8) == 0
    ensures SpaceState(1, 8) == 2
    ensures SpaceState(2, 8) == 0
    ensures SpaceState(3, 8) == 2
  {
  }

  /** `get_time_state`: the fraction of the current `period` that has
      elapsed at time `t`, cut into `states` equal phases. */
  function TimeState(period: real, t: real, states: int): (p: int)
    requires period != 0.0 && states >= 1
    ensures 0 <= p < states
  {
    var f := Frac(t / period);
    var n := states as real;
    MulBelow(f, n);
    var scaled := f * n;
    FloorBelow(scaled, states);
    ClampInt(scaled.Floor, 0, states - 1)
  }

  /** The phase is the whole number of `1/states` fractions of the period
      that have elapsed: the clamp never changes the floored value. */
  lemma TimeStateMeaning(period: real, t: real, states: int)
    requires period != 0.0 && states >= 1
    ensures var p, f := TimeState(period, t, states), Frac(t / period);
      p as real <= f * states as real < p as real + 1.0
  {
    var f := Frac(t / period);
    var n := states as real;
    MulBelow(f, n);
    var scaled := f * n;
    FloorBelow(scaled, states);
    assert TimeState(period, t, states) == scaled.Floor;
  }

  /** Moving the time by a whole number of periods keeps the phase. */
  lemma {:induction false} TimeStatePeriodic(period: real, t: real, states: int, k: int)
    requires period != 0.0 && states >= 1
    ensures TimeState(period, t + k as real * period, states) == TimeState(period, t, states)
  {
    var c := t / period;
    assert (t + k as real * period) / period == c + k as real;
    FracShift(c, k);
  }

  /** The phases the bulb effects see at the start of a cycle and 0.41 s in. */
  lemma TimeStateExamples()
    ensures TimeState(0.8, 0.0, 4) == 0
    ensures TimeState(0.8, 0.41, 4) == 2
  {
    assert 0.41 / 0.8 == 0.5125;
    assert Frac(0.5125) == 0.5125;
  }
}

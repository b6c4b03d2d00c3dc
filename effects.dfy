/** The stateless effects of main.cpp (`mask_cycle` and its three wrappers,
    `slow_pulse_single`, `slow_pulse_all`, `flash_single`). Each writes the
    first `w` entries of the caller's array in place. The colour one light
    receives is given by a `...Light` function; the methods are proved to
    write exactly those colours and to leave the rest of the array alone.
    The source's cosine `ccos` is a parameter. */
module Effects {
  import opened CArith
  import opened ColorOps
  import opened Phases

  /** Widths for which `i * 160` fits a 32-bit int for every light `i < w`. */
  predicate ValidWidth(w: int) {
    0 <= w <= MaxIndex + 1
  }

  const MaskCyclePeriod: real := 0.8
  const SlowPulseSinglePeriod: real := 20.0
  const SlowPulseAllPeriod: real := 5.0
  const FlashSinglePeriod: real := 3.2

  /** The masks `ascending`, `alternating` and `ascending_double` pass to
      `mask_cycle` (0b0001, 0b0101, 0b0011). */
  const AscendingMask: nat := 1
  const AlternatingMask: nat := 5
  const AscendingDoubleMask: nat := 3

  /** The brightness `(1 - ccos(x)) / 2` of the pulsing effects. */
  function Pulse(ccos: real -> real, x: real): real {
    (1.0 - ccos(x)) / 2.0
  }

  lemma PulseInUnit(ccos: real -> real, x: real)
    requires -1.0 <= ccos(x) <= 1.0
    ensures 0.0 <= Pulse(ccos, x) <= 1.0
  {
  }

  // ---------------------------------------------------------------- mask_cycle

  /** The phase (of four, over 0.8 s) `mask_cycle` uses at time `t`. */
  function MaskCyclePhase(t: real): (p: int)
    ensures 0 <= p < 4
  {
    TimeState(MaskCyclePeriod, t, 4)
  }

  /** The mask test of `mask_cycle`: slot `s` is lit at `phase` when bit
      `(s + 4 - phase) % 4` of the mask is set. */
  predicate MaskLit(mask: nat, s: int, phase: int)
    requires 0 <= s < 4 && 0 <= phase < 4
  {
    Bit(mask, (s + 4 - phase) % 4)
  }

  /** `mask_cycle` for light `i`: a gap goes dark; a slot the mask lights
      takes its palette colour; any other light keeps what the array held. */
  function MaskCycleLight(prev: Color, i: int, w: int, phase: int, mask: nat): Color
    requires 0 <= i < w && ValidWidth(w) && 0 <= phase < 4
  {
    var s := SpaceState(i, w);
    if s == -1 then 0
    else if MaskLit(mask, s, phase) then Colors[s]
    else prev
  }

  method MaskCycle(t: real, a: array<Color>, w: int, mask: nat)
    requires w <= a.Length && ValidWidth(w)
    modifies a
    ensures forall i :: 0 <= i < w ==> a[i] == MaskCycleLight(old(a[i]), i, w, MaskCyclePhase(t), mask)
    ensures forall i :: w <= i < a.Length ==> a[i] == old(a[i])
  {
    var timeState := TimeState(MaskCyclePeriod, t, 4);
    assert timeState == MaskCyclePhase(t);
    for i := 0 to w
      invariant forall j :: 0 <= j < i ==> a[j] == MaskCycleLight(old(a[j]), j, w, timeState, mask)
      invariant forall j :: i <= j < a.Length ==> a[j] == old(a[j])
    {
      var spaceState := SpaceState(i, w);
      if spaceState == -1 {
        a[i] := 0;
      } else if Bit(mask, (spaceState + 4 - timeState) % 4) {
        a[i] := Colors[spaceState];
      }
    }
  }

  /** The bits of a mask at the four offsets a slot can have from the phase. */
  lemma MaskBits(mask: nat, k: nat)
    requires k < 4
    ensures Bit(mask, k) <==> (if k == 0 then mask else if k == 1 then mask / 2
                               else if k == 2 then mask / 4 else mask / 8) % 2 == 1
  {
    if k > 0 {
      assert Bit(mask, k) == Bit(mask / 2, k - 1);
      if k > 1 {
        assert Bit(mask / 2, k - 1) == Bit(mask / 4, k - 2);
        if k > 2 {
          assert Bit(mask / 4, k - 2) == Bit(mask / 8, 0);
        }
      }
    }
  }

  /** `ascending` (0b0001) lights exactly the slot equal to the phase. */
  lemma AscendingLit(s: int, phase: int)
    requires 0 <= s < 4 && 0 <= phase < 4
    ensures MaskLit(AscendingMask, s, phase) <==> s == phase
  {
    MaskBits(AscendingMask, (s + 4 - phase) % 4);
  }

  /** `alternating` (0b0101) lights the phase's slot and the one opposite. */
  lemma AlternatingLit(s: int, phase: int)
    requires 0 <= s < 4 && 0 <= phase < 4
    ensures MaskLit(AlternatingMask, s, phase) <==> (s - phase) % 2 == 0
  {
    MaskBits(AlternatingMask, (s + 4 - phase) % 4);
  }

  /** `ascending_double` (0b0011) lights the phase's slot and the next one. */
  lemma AscendingDoubleLit(s: int, phase: int)
    requires 0 <= s < 4 && 0 <= phase < 4
    ensures MaskLit(AscendingDoubleMask, s, phase) <==> s == phase || s == (phase + 1) % 4
  {
    MaskBits(AscendingDoubleMask, (s + 4 - phase) % 4);
  }

  /** Per light, `ascending`: the slot equal to the phase is lit, the other
      slots keep their old colour and the gaps go dark. */
  lemma AscendingLight(prev: Color, i: int, w: int, phase: int)
    requires 0 <= i < w && ValidWidth(w) && 0 <= phase < 4
    ensures var s := SpaceState(i, w);
      MaskCycleLight(prev, i, w, phase, AscendingMask) ==
        if s == -1 then 0 else if s == phase then Colors[s] else prev
  {
    var s := SpaceState(i, w);
    if s != -1 {
      AscendingLit(s, phase);
    }
  }

  /** Per light, `alternating`. */
  lemma AlternatingLight(prev: Color, i: int, w: int, phase: int)
    requires 0 <= i < w && ValidWidth(w) && 0 <= phase < 4
    ensures var s := SpaceState(i, w);
      MaskCycleLight(prev, i, w, phase, AlternatingMask) ==
        if s == -1 then 0 else if (s - phase) % 2 == 0 then Colors[s] else prev
  {
    var s := SpaceState(i, w);
    if s != -1 {
      AlternatingLit(s, phase);
    }
  }

  /** Per light, `ascending_double`. */
  lemma AscendingDoubleLight(prev: Color, i: int, w: int, phase: int)
    requires 0 <= i < w && ValidWidth(w) && 0 <= phase < 4
    ensures var s := SpaceState(i, w);
      MaskCycleLight(prev, i, w, phase, AscendingDoubleMask) ==
        if s == -1 then 0 else if s == phase || s == (phase + 1) % 4 then Colors[s] else prev
  {
    var s := SpaceState(i, w);
    if s != -1 {
      AscendingDoubleLit(s, phase);
    }
  }

  method Ascending(t: real, a: array<Color>, w: int)
    requires w <= a.Length && ValidWidth(w)
    modifies a
    ensures forall i :: 0 <= i < w ==> a[i] == MaskCycleLight(old(a[i]), i, w, MaskCyclePhase(t), AscendingMask)
    ensures forall i :: 0 <= i < w ==>
      var s, p := SpaceState(i, w), MaskCyclePhase(t);
      a[i] == if s == -1 then 0 else if s == p then Colors[s] else old(a[i])
    ensures forall i :: w <= i < a.Length ==> a[i] == old(a[i])
  {
    MaskCycle(t, a, w, AscendingMask);
    forall i | 0 <= i < w
      ensures var s, p := SpaceState(i, w), MaskCyclePhase(t);
        a[i] == if s == -1 then 0 else if s == p then Colors[s] else old(a[i])
    {
      AscendingLight(old(a[i]), i, w, MaskCyclePhase(t));
    }
  }

  method Alternating(t: real, a: array<Color>, w: int)
    requires w <= a.Length && ValidWidth(w)
    modifies a
    ensures forall i :: 0 <= i < w ==> a[i] == MaskCycleLight(old(a[i]), i, w, MaskCyclePhase(t), AlternatingMask)
    ensures forall i :: 0 <= i < w ==>
      var s, p := SpaceState(i, w), MaskCyclePhase(t);
      a[i] == if s == -1 then 0 else if (s - p) % 2 == 0 then Colors[s] else old(a[i])
    ensures forall i :: w <= i < a.Length ==> a[i] == old(a[i])
  {
    MaskCycle(t, a, w, AlternatingMask);
    forall i | 0 <= i < w
      ensures var s, p := SpaceState(i, w), MaskCyclePhase(t);
        a[i] == if s == -1 then 0 else if (s - p) % 2 == 0 then Colors[s] else old(a[i])
    {
      AlternatingLight(old(a[i]), i, w, MaskCyclePhase(t));
    }
  }

  method AscendingDouble(t: real, a: array<Color>, w: int)
    requires w <= a.Length && ValidWidth(w)
    modifies a
    ensures forall i :: 0 <= i < w ==> a[i] == MaskCycleLight(old(a[i]), i, w, MaskCyclePhase(t), AscendingDoubleMask)
    ensures forall i :: 0 <= i < w ==>
      var s, p := SpaceState(i, w), MaskCyclePhase(t);
      a[i] == if s == -1 then 0 else if s == p || s == (p + 1) % 4 then Colors[s] else old(a[i])
    ensures forall i :: w <= i < a.Length ==> a[i] == old(a[i])
  {
    MaskCycle(t, a, w, AscendingDoubleMask);
    forall i | 0 <= i < w
      ensures var s, p := SpaceState(i, w), MaskCyclePhase(t);
        a[i] == if s == -1 then 0 else if s == p || s == (p + 1) % 4 then Colors[s] else old(a[i])
    {
      AscendingDoubleLight(old(a[i]), i, w, MaskCyclePhase(t));
    }
  }

  // --------------------------------------------------------- slow_pulse_single

  /** The phase (of four, over 20 s) `slow_pulse_single` uses at time `t`. */
  function SlowPulseSinglePhase(t: real): (p: int)
    ensures 0 <= p < 4
  {
    TimeState(SlowPulseSinglePeriod, t, 4)
  }

  /** The brightness `slow_pulse_single` uses at time `t`: four pulses per
      period. */
  function SlowPulseSingleFactor(t: real, ccos: real -> real): real {
    Pulse(ccos, t / SlowPulseSinglePeriod * 4.0)
  }

  /** `slow_pulse_single` for light `i`, given the phase and the
      brightness: only the slot equal to the phase is lit, at that
      brightness; everything else is dark. */
  function SlowPulseSingleLight(i: int, w: int, phase: int, factor: real): Color
    requires 0 <= i < w && ValidWidth(w) && 0 <= phase < 4
  {
    if SpaceState(i, w) == phase then ScaleColor(Colors[phase], factor) else 0
  }

  /** Only the lights of the phase's slot can be lit, never brighter than
      their palette colour while the brightness stays in [0, 1]. */
  lemma SlowPulseSingleLit(i: int, w: int, phase: int, factor: real)
    requires 0 <= i < w && ValidWidth(w) && 0 <= phase < 4
    ensures SlowPulseSingleLight(i, w, phase, factor) != 0 ==> SpaceState(i, w) == phase
    ensures var c := SlowPulseSingleLight(i, w, phase, factor);
      0.0 <= factor <= 1.0 ==>
        Red(c) <= Red(Colors[phase]) && Green(c) <= Green(Colors[phase]) && Blue(c) <= Blue(Colors[phase])
  {
    if 0.0 <= factor <= 1.0 && SpaceState(i, w) == phase {
      var c := ScaleColor(Colors[phase], factor);
      ScaleColorDims(Colors[phase], factor);
      assert SlowPulseSingleLight(i, w, phase, factor) == c;
    }
  }

  /** With a cosine in [-1, 1], `slow_pulse_single` never lights a light
      brighter than its palette colour. */
  lemma SlowPulseSingleBounded(i: int, w: int, t: real, ccos: real -> real)
    requires 0 <= i < w && ValidWidth(w)
    requires -1.0 <= ccos(t / SlowPulseSinglePeriod * 4.0) <= 1.0
    ensures var p := SlowPulseSinglePhase(t);
      var c := SlowPulseSingleLight(i, w, p, SlowPulseSingleFactor(t, ccos));
      Red(c) <= Red(Colors[p]) && Green(c) <= Green(Colors[p]) && Blue(c) <= Blue(Colors[p])
  {
    var x := t / SlowPulseSinglePeriod * 4.0;
    var f := SlowPulseSingleFactor(t, ccos);
    PulseInUnit(ccos, x);
    assert 0.0 <= f <= 1.0;
    SlowPulseSingleLit(i, w, SlowPulseSinglePhase(t), f);
  }

  method SlowPulseSingle(t: real, a: array<Color>, w: int, ccos: real -> real)
    requires w <= a.Length && ValidWidth(w)
    modifies a
    ensures forall i :: 0 <= i < w ==>
      a[i] == SlowPulseSingleLight(i, w, SlowPulseSinglePhase(t), SlowPulseSingleFactor(t, ccos))
    ensures forall i :: w <= i < a.Length ==> a[i] == old(a[i])
  {
    var cycle := t / SlowPulseSinglePeriod;
    var timeState := TimeState(SlowPulseSinglePeriod, t, 4);
    var factor := Pulse(ccos, cycle * 4.0);
    assert timeState == SlowPulseSinglePhase(t);
    assert factor == SlowPulseSingleFactor(t, ccos);
    for i := 0 to w
      invariant forall j :: 0 <= j < i ==> a[j] == SlowPulseSingleLight(j, w, timeState, factor)
      invariant forall j :: i <= j < a.Length ==> a[j] == old(a[j])
    {
      var spaceState := SpaceState(i, w);
      if spaceState == timeState {
        a[i] := ScaleColor(Colors[timeState], factor);
      } else {
        a[i] := 0;
      }
      assert a[i] == SlowPulseSingleLight(i, w, timeState, factor);
    }
  }

  // ------------------------------------------------------------ slow_pulse_all

  /** The brightness `slow_pulse_all` uses at time `t`: one pulse per 5 s. */
  function SlowPulseAllFactor(t: real, ccos: real -> real): real {
    Pulse(ccos, t / SlowPulseAllPeriod)
  }

  /** `slow_pulse_all` for light `i`: every slot is lit at the one common
      brightness; gaps are dark. */
  function SlowPulseAllLight(i: int, w: int, factor: real): Color
    requires 0 <= i < w && ValidWidth(w)
  {
    var s := SpaceState(i, w);
    if s != -1 then ScaleColor(Colors[s], factor) else 0
  }

  /** Gaps are dark, and a slotted light never outshines its palette colour
      while the brightness stays in [0, 1]. */
  lemma SlowPulseAllLit(i: int, w: int, factor: real)
    requires 0 <= i < w && ValidWidth(w)
    ensures SpaceState(i, w) == -1 ==> SlowPulseAllLight(i, w, factor) == 0
    ensures var c, s := SlowPulseAllLight(i, w, factor), SpaceState(i, w);
      0.0 <= factor <= 1.0 && s != -1 ==>
        Red(c) <= Red(Colors[s]) && Green(c) <= Green(Colors[s]) && Blue(c) <= Blue(Colors[s])
  {
    var s := SpaceState(i, w);
    if 0.0 <= factor <= 1.0 && s != -1 {
      var c := ScaleColor(Colors[s], factor);
      ScaleColorDims(Colors[s], factor);
      assert SlowPulseAllLight(i, w, factor) == c;
    }
  }

  /** With a cosine in [-1, 1], `slow_pulse_all` never lights a light
      brighter than its palette colour. */
  lemma SlowPulseAllBounded(i: int, w: int, t: real, ccos: real -> real)
    requires 0 <= i < w && ValidWidth(w) && SpaceState(i, w) != -1
    requires -1.0 <= ccos(t / SlowPulseAllPeriod) <= 1.0
    ensures var s, c := SpaceState(i, w), SlowPulseAllLight(i, w, SlowPulseAllFactor(t, ccos));
      Red(c) <= Red(Colors[s]) && Green(c) <= Green(Colors[s]) && Blue(c) <= Blue(Colors[s])
  {
    var x := t / SlowPulseAllPeriod;
    var f := SlowPulseAllFactor(t, ccos);
    PulseInUnit(ccos, x);
    assert 0.0 <= f <= 1.0;
    SlowPulseAllLit(i, w, f);
  }

  method SlowPulseAll(t: real, a: array<Color>, w: int, ccos: real -> real)
    requires w <= a.Length && ValidWidth(w)
    modifies a
    ensures forall i :: 0 <= i < w ==> a[i] == SlowPulseAllLight(i, w, SlowPulseAllFactor(t, ccos))
    ensures forall i :: w <= i < a.Length ==> a[i] == old(a[i])
  {
    var cycle := t / SlowPulseAllPeriod;
    var factor := Pulse(ccos, cycle);
    assert factor == SlowPulseAllFactor(t, ccos);
    for i := 0 to w
      invariant forall j :: 0 <= j < i ==> a[j] == SlowPulseAllLight(j, w, factor)
      invariant forall j :: i <= j < a.Length ==> a[j] == old(a[j])
    {
      var spaceState := SpaceState(i, w);
      if spaceState != -1 {
        a[i] := ScaleColor(Colors[spaceState], factor);
      } else {
        a[i] := 0;
      }
      assert a[i] == SlowPulseAllLight(i, w, factor);
    }
  }

  // -------------------------------------------------------------- flash_single

  /** The phase (of 32, over 3.2 s) `flash_single` uses at time `t`. */
  function FlashSinglePhase(t: real): (p: int)
    ensures 0 <= p < 32
  {
    TimeState(FlashSinglePeriod, t, 32)
  }

  /** `flash_single` for light `i`: each even phase flashes the slot
      `phase / 8` in its palette colour. */
  function FlashSingleLight(i: int, w: int, phase: int): Color
    requires 0 <= i < w && ValidWidth(w) && 0 <= phase < 32
  {
    var s := SpaceState(i, w);
    if phase % 2 == 0 && s == phase / 8 then Colors[s] else 0
  }

  /** A light is lit exactly when the phase is even and its slot is
      `phase / 8`, and then it has that slot's palette colour. */
  lemma FlashSingleLit(i: int, w: int, phase: int)
    requires 0 <= i < w && ValidWidth(w) && 0 <= phase < 32
    ensures var c, s := FlashSingleLight(i, w, phase), SpaceState(i, w);
      (c != 0 <==> phase % 2 == 0 && s == phase / 8) && (c != 0 ==> c == Colors[phase / 8])
  {
    PaletteIsRgb();
  }

  method FlashSingle(t: real, a: array<Color>, w: int)
    requires w <= a.Length && ValidWidth(w)
    modifies a
    ensures forall i :: 0 <= i < w ==> a[i] == FlashSingleLight(i, w, FlashSinglePhase(t))
    ensures forall i :: w <= i < a.Length ==> a[i] == old(a[i])
  {
    var timeState := TimeState(FlashSinglePeriod, t, 32);
    assert timeState == FlashSinglePhase(t);
    for i := 0 to w
      invariant forall j :: 0 <= j < i ==> a[j] == FlashSingleLight(j, w, timeState)
      invariant forall j :: i <= j < a.Length ==> a[j] == old(a[j])
    {
      var spaceState := SpaceState(i, w);
      if timeState % 2 == 0 && spaceState == timeState / 8 {
        a[i] := Colors[spaceState];
      } else {
        a[i] := 0;
      }
    }
  }
}

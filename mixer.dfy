/** `christmas_lights::mix` (main.cpp) and the zeroed buffer `from_func`
    hands it: the seven effects take turns, one minute each, and every effect
    sees the time within its own minute. */
module Mixer {
  import opened CArith
  import opened ColorOps
  import opened Phases
  import opened Effects
  import opened Rhythm

  /** The entries of the dispatch table `funcs`. */
  datatype Effect =
    | SlowPulseSingleEffect
    | AscendingEffect
    | SlowPulseAllEffect
    | AlternatingEffect
    | FlashSingleEffect
    | AscendingDoubleEffect
    | MeshuggahEffect

  /** `funcs`, in table order. */
  const Funcs: seq<Effect> := [SlowPulseSingleEffect, AscendingEffect, SlowPulseAllEffect,
    AlternatingEffect, FlashSingleEffect, AscendingDoubleEffect, MeshuggahEffect]

  /** The length of one effect's turn, in seconds. */
  const Window: real := 60.0

  /** The index into `funcs` at time `t`: a phase of a cycle of
      `n * 60` seconds, with `n` the table size. */
  function MixIndex(t: real): (k: int)
    ensures 0 <= k < |Funcs|
  {
    TimeState(|Funcs| as real * Window, t, |Funcs|)
  }

  /** `cropped_t`: the time since the start of the current minute. */
  function Cropped(t: real): (c: real)
    ensures 0.0 <= c < Window
  {
    (t / Window - (t / Window).Floor as real) * Window
  }

  /** The cropped time differs from `t` by a whole number of minutes. */
  lemma CroppedShift(t: real)
    ensures t == Cropped(t) + (t / Window).Floor as real * Window
  {
  }

  /** The effect of minute `m` is entry `m % 7` of the table: with a cycle
      of 420 s and 7 phases, each effect runs for exactly one minute and the
      table repeats every seven. */
  lemma {:induction false} MixWindow(t: real)
    ensures MixIndex(t) == (t / Window).Floor % |Funcs|
  {
    var u := t / Window;
    var m := u.Floor;
    var v := t / 420.0;
    assert v == u / 7.0;
    var q := v.Floor;
    assert q as real <= u / 7.0 < q as real + 1.0;
    assert 7.0 * (q as real) <= u < 7.0 * (q as real) + 7.0;
    assert 7 * q <= m < 7 * q + 7 by {
      assert (7 * q) as real <= u;
      assert u < (7 * q + 7) as real;
    }
    var r := m - 7 * q;
    DivUnique(m, 7, q, r);
    var scaled := Frac(v) * 7.0;
    assert scaled == u - (7 * q) as real;
    assert scaled.Floor == r by {
      assert r as real <= scaled < r as real + 1.0;
    }
    TimeStateMeaning(420.0, t, 7);
    assert MixIndex(t) == TimeState(420.0, t, 7);
  }

  /** At time 0 the first effect, `slow_pulse_single`, starts; 400 s in,
      `meshuggah` is 40 s into its minute. */
  lemma MixExamples()
    ensures MixIndex(0.0) == 0 && Funcs[MixIndex(0.0)] == SlowPulseSingleEffect && Cropped(0.0) == 0.0
    ensures MixIndex(400.0) == 6 && Funcs[MixIndex(400.0)] == MeshuggahEffect && Cropped(400.0) == 40.0
  {
    MixWindow(0.0);
    MixWindow(400.0);
    assert (400.0 / Window).Floor == 6;
  }

  /** The colour effect `e` gives light `i` at time `t` (the time within the
      effect's minute) over previous colour `prev`; `primary` is the
      `meshuggah` primary slot after this frame's update. */
  function EffectLight(e: Effect, prev: Color, i: int, w: int, t: real, ccos: real -> real, primary: int): Color
    requires 0 <= i < w && ValidWidth(w) && 1 <= primary <= 3
  {
    match e
    case SlowPulseSingleEffect => SlowPulseSingleLight(i, w, SlowPulseSinglePhase(t), SlowPulseSingleFactor(t, ccos))
    case AscendingEffect => MaskCycleLight(prev, i, w, MaskCyclePhase(t), AscendingMask)
    case SlowPulseAllEffect => SlowPulseAllLight(i, w, SlowPulseAllFactor(t, ccos))
    case AlternatingEffect => MaskCycleLight(prev, i, w, MaskCyclePhase(t), AlternatingMask)
    case FlashSingleEffect => FlashSingleLight(i, w, FlashSinglePhase(t))
    case AscendingDoubleEffect => MaskCycleLight(prev, i, w, MaskCyclePhase(t), AscendingDoubleMask)
    case MeshuggahEffect => MeshuggahLight(prev, i, w, BasePhase(t), KickPhase(t), primary)
  }

  /** No effect ever sets a byte above the blue channel: over a previous
      colour without one, every light stays below 2^24. */
  lemma EffectLightRgb(e: Effect, prev: Color, i: int, w: int, t: real, ccos: real -> real, primary: int)
    requires 0 <= i < w && ValidWidth(w) && 1 <= primary <= 3 && prev < RgbLimit
    ensures EffectLight(e, prev, i, w, t, ccos, primary) < RgbLimit
  {
    PaletteIsRgb();
  }

  /** `mix(t, a, w)`, with the `meshuggah` state `m`. Only `meshuggah`'s
      minute moves that state. */
  method Mix(t: real, a: array<Color>, w: int, ccos: real -> real, m: Meshuggah)
    requires w <= a.Length && ValidWidth(w) && m.Valid()
    modifies a, m
    ensures m.Valid()
    ensures Funcs[MixIndex(t)] != MeshuggahEffect ==> m.State() == old(m.State())
    ensures Funcs[MixIndex(t)] == MeshuggahEffect ==>
      m.State() == Step(old(m.State()), KickPhase(Cropped(t)))
    ensures forall i :: 0 <= i < w ==>
      a[i] == EffectLight(Funcs[MixIndex(t)], old(a[i]), i, w, Cropped(t), ccos, m.primaryColor)
    ensures forall i :: w <= i < a.Length ==> a[i] == old(a[i])
  {
    var n := |Funcs|;
    var period := n as real * 60.0;
    var timeState := TimeState(period, t, n);
    var croppedT := (t / 60.0 - (t / 60.0).Floor as real) * 60.0;
    assert timeState == MixIndex(t) && croppedT == Cropped(t);
    match Funcs[timeState]
    case SlowPulseSingleEffect => SlowPulseSingle(croppedT, a, w, ccos);
    case AscendingEffect => Ascending(croppedT, a, w);
    case SlowPulseAllEffect => SlowPulseAll(croppedT, a, w, ccos);
    case AlternatingEffect => Alternating(croppedT, a, w);
    case FlashSingleEffect => FlashSingle(croppedT, a, w);
    case AscendingDoubleEffect => AscendingDouble(croppedT, a, w);
    case MeshuggahEffect => m.Render(croppedT, a, w);
  }

  /** The part of `from_func` that reaches the effects: a fresh
      vector of `w` zeros, filled by one call of `mix`. Every light then
      holds only the three channel bytes the pixel copy extracts. */
  method RenderFrame(t: real, w: int, ccos: real -> real, m: Meshuggah) returns (a: array<Color>)
    requires ValidWidth(w) && m.Valid()
    modifies m
    ensures fresh(a) && a.Length == w
    ensures m.Valid()
    ensures Funcs[MixIndex(t)] != MeshuggahEffect ==> m.State() == old(m.State())
    ensures Funcs[MixIndex(t)] == MeshuggahEffect ==>
      m.State() == Step(old(m.State()), KickPhase(Cropped(t)))
    ensures forall i :: 0 <= i < w ==>
      a[i] == EffectLight(Funcs[MixIndex(t)], 0, i, w, Cropped(t), ccos, m.primaryColor)
    ensures forall i :: 0 <= i < w ==> a[i] < RgbLimit
  {
    a := new Color[w](_ => 0);
    Mix(t, a, w, ccos, m);
    forall i | 0 <= i < w
      ensures a[i] < RgbLimit
    {
      EffectLightRgb(Funcs[MixIndex(t)], 0, i, w, Cropped(t), ccos, m.primaryColor);
    }
  }
}

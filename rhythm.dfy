/** The `meshuggah` effect of main.cpp: a steady base pulse on slot 0 and a
    kick pattern on the other slots, whose one lit slot (`primary_color`)
    moves on at the kicks a second pattern marks. The two `static` ints of
    the source are the fields of class `Meshuggah`; how they change is the
    pure function `Step` on a `KickState`. */
module Rhythm {
  import opened CArith
  import opened ColorOps
  import opened Phases
  import opened Effects

  /** The base cycle: 64 phases over 48/23 s. */
  const BasePeriod: real := 48.0 / 23.0
  const BaseStates: int := 64

  /** The kick cycle: 116 phases over 87/23 s; every even phase is a kick,
      so there are 58 kicks per cycle. */
  const KickPeriod: real := 87.0 / 23.0
  const KickStates: int := 116
  const KickCount: int := 58

  /** `kicks`: bit `k` set when kick `k` flashes the primary slot
      (0b0000000101011101011101011101011100000001010111010111010111). */
  const Kicks: nat := 0x575d75c0575d7

  /** `changes`: bit `k` set when kick `k` moves the primary slot on
      (0b0000001000000010000010000010000000000010000000100000100000). */
  const Changes: nat := 0x8082080080820

  /** The successor table: nibble `pc` of 0x2130 is the slot after `pc`. */
  const Successors: nat := 0x2130

  /** The base phase `meshuggah` uses at time `t`. */
  function BasePhase(t: real): (p: int)
    ensures 0 <= p < BaseStates
  {
    TimeState(BasePeriod, t, BaseStates)
  }

  /** The kick phase `meshuggah` uses at time `t`. */
  function KickPhase(t: real): (p: int)
    ensures 0 <= p < KickStates
  {
    TimeState(KickPeriod, t, KickStates)
  }

  /** `(0x2130 >> (4 * pc)) & 0xf` */
  function NextPrimary(pc: int): (n: int)
    requires 0 <= pc <= 3
    ensures 0 <= n < 16
  {
    Nibble(Successors, pc)
  }

  /** The table 0x2130 encodes: 0 to 0, 1 to 3, 2 to 1, 3 to 2. */
  lemma NextPrimaryTable()
    ensures NextPrimary(0) == 0 && NextPrimary(1) == 3
    ensures NextPrimary(2) == 1 && NextPrimary(3) == 2
  {
    assert Nibble(Successors, 3) == Nibble(0x2, 0);
  }

  /** From any of the slots 1, 2, 3 the successor is another of them, and
      three steps come back: the primary slot cycles 3, 2, 1 and never
      reaches slot 0. */
  lemma NextPrimaryRotates(pc: int)
    requires 1 <= pc <= 3
    ensures 1 <= NextPrimary(pc) <= 3 && NextPrimary(pc) != pc
    ensures NextPrimary(NextPrimary(NextPrimary(pc))) == pc
  {
    NextPrimaryTable();
  }

  /** The persistent state of `meshuggah`: the lit slot and the last kick
      seen (-1 before the first). */
  datatype KickState = KickState(primary: int, lastKick: int)

  /** The state `meshuggah` starts from. */
  const InitialKickState: KickState := KickState(3, -1)

  /** The states the effect can be in. */
  predicate ValidKickState(s: KickState) {
    1 <= s.primary <= 3 && -1 <= s.lastKick < KickCount
  }

  /** The kick at an even `kickPhase` is new and marked in `changes`. */
  predicate Fires(s: KickState, kickPhase: int)
    requires 0 <= kickPhase < KickStates
  {
    kickPhase % 2 == 0 && kickPhase / 2 != s.lastKick && Bit(Changes, kickPhase / 2)
  }

  /** The state update at the top of `meshuggah`, before any light is
      written. */
  function Step(s: KickState, kickPhase: int): (s': KickState)
    requires 0 <= kickPhase < KickStates && 0 <= s.primary <= 3
    ensures kickPhase % 2 == 1 ==> s' == s
    ensures kickPhase % 2 == 0 ==> s'.lastKick == kickPhase / 2
  {
    if kickPhase % 2 == 0 then
      var kick := kickPhase / 2;
      var primary := if kick != s.lastKick && Bit(Changes, kick) then NextPrimary(s.primary) else s.primary;
      KickState(primary, kick)
    else
      s
  }

  /** Every step keeps the state valid. */
  lemma StepValid(s: KickState, kickPhase: int)
    requires ValidKickState(s) && 0 <= kickPhase < KickStates
    ensures ValidKickState(Step(s, kickPhase))
  {
    NextPrimaryRotates(s.primary);
  }

  /** The primary slot moves exactly when the step fires; otherwise it
      stays, and only an even phase can change the state at all. */
  lemma StepFires(s: KickState, kickPhase: int)
    requires ValidKickState(s) && 0 <= kickPhase < KickStates
    ensures Step(s, kickPhase).primary != s.primary <==> Fires(s, kickPhase)
    ensures Fires(s, kickPhase) ==> Step(s, kickPhase).primary == NextPrimary(s.primary)
    ensures Step(s, kickPhase) != s ==> kickPhase % 2 == 0
  {
    NextPrimaryRotates(s.primary);
  }

  /** Seeing the same kick phase twice is the same as seeing it once: a kick
      fires at most once, however many frames fall into it. */
  lemma StepOnce(s: KickState, kickPhase: int)
    requires ValidKickState(s) && 0 <= kickPhase < KickStates
    ensures !Fires(Step(s, kickPhase), kickPhase)
    ensures Step(Step(s, kickPhase), kickPhase) == Step(s, kickPhase)
  {
  }

  /** The state after the frames at the kick phases `ks`, in order. */
  function Run(s: KickState, ks: seq<int>): (s': KickState)
    requires ValidKickState(s)
    requires forall j :: 0 <= j < |ks| ==> 0 <= ks[j] < KickStates
    ensures ValidKickState(s')
    decreases |ks|
  {
    if |ks| == 0 then s
    else
      StepValid(s, ks[0]);
      Run(Step(s, ks[0]), ks[1..])
  }

  /** How many of those frames move the primary slot on. */
  function FireCount(s: KickState, ks: seq<int>): (n: nat)
    requires ValidKickState(s)
    requires forall j :: 0 <= j < |ks| ==> 0 <= ks[j] < KickStates
    ensures n <= |ks|
    decreases |ks|
  {
    if |ks| == 0 then 0
    else
      StepValid(s, ks[0]);
      (if Fires(s, ks[0]) then 1 else 0) + FireCount(Step(s, ks[0]), ks[1..])
  }

  /** A state that a kick phase leaves alone never fires on it again. */
  lemma {:induction false} SettledNeverFires(s: KickState, k: int, n: nat)
    requires ValidKickState(s) && 0 <= k < KickStates
    requires Step(s, k) == s && !Fires(s, k)
    ensures FireCount(s, seq(n, _ => k)) == 0
    decreases n
  {
    if n > 0 {
      var ks := seq(n, _ => k);
      assert ks[0] == k && ks[1..] == seq(n - 1, _ => k);
      SettledNeverFires(s, k, n - 1);
    }
  }

  /** However many frames fall into one kick phase, it moves the primary
      slot at most once. */
  lemma {:induction false} SameKickFiresOnce(s: KickState, k: int, n: nat)
    requires ValidKickState(s) && 0 <= k < KickStates
    ensures FireCount(s, seq(n, _ => k)) <= 1
  {
    if n > 0 {
      var ks := seq(n, _ => k);
      assert ks[0] == k && ks[1..] == seq(n - 1, _ => k);
      StepValid(s, k);
      StepOnce(s, k);
      SettledNeverFires(Step(s, k), k, n - 1);
    }
  }

  /** Running two stretches of frames one after the other: the second
      starts from where the first ended, and the firings add up. */
  lemma {:induction false} RunAppend(s: KickState, ks: seq<int>, ls: seq<int>)
    requires ValidKickState(s)
    requires forall j :: 0 <= j < |ks| ==> 0 <= ks[j] < KickStates
    requires forall j :: 0 <= j < |ls| ==> 0 <= ls[j] < KickStates
    ensures Run(s, ks + ls) == Run(Run(s, ks), ls)
    ensures FireCount(s, ks + ls) == FireCount(s, ks) + FireCount(Run(s, ks), ls)
    decreases |ks|
  {
    if |ks| > 0 {
      assert (ks + ls)[0] == ks[0] && (ks + ls)[1..] == ks[1..] + ls;
      StepValid(s, ks[0]);
      RunAppend(Step(s, ks[0]), ks[1..], ls);
    } else {
      assert ks + ls == ls;
    }
  }

  /** The frames of one kick `k` fall into phase `2k` and then phase
      `2k + 1`; however many there are of each, the kick moves the primary
      slot at most once. */
  lemma {:induction false} OneKickFiresOnce(s: KickState, k: int, n: nat, m: nat)
    requires ValidKickState(s) && 0 <= k < KickCount
    ensures FireCount(s, seq(n, _ => 2 * k) + seq(m, _ => 2 * k + 1)) <= 1
  {
    var evens, odds := seq(n, _ => 2 * k), seq(m, _ => 2 * k + 1);
    RunAppend(s, evens, odds);
    SameKickFiresOnce(s, 2 * k, n);
    SettledNeverFires(Run(s, evens), 2 * k + 1, m);
  }

  /** `NextPrimary` applied `n` times. */
  function Rotate(pc: int, n: nat): (r: int)
    requires 1 <= pc <= 3
    ensures 1 <= r <= 3
    decreases n
  {
    if n == 0 then pc
    else
      NextPrimaryRotates(pc);
      Rotate(NextPrimary(pc), n - 1)
  }

  /** Rotating three more times changes nothing. */
  lemma {:induction false} RotatePeriodic(pc: int, n: nat)
    requires 1 <= pc <= 3
    ensures Rotate(pc, n + 3) == Rotate(pc, n)
    decreases n
  {
    NextPrimaryRotates(pc);
    if n > 0 {
      RotatePeriodic(NextPrimary(pc), n - 1);
    }
  }

  /** Over any run of frames the primary slot is the starting one rotated
      once per firing kick. */
  lemma {:induction false} RunPrimary(s: KickState, ks: seq<int>)
    requires ValidKickState(s)
    requires forall j :: 0 <= j < |ks| ==> 0 <= ks[j] < KickStates
    ensures Run(s, ks).primary == Rotate(s.primary, FireCount(s, ks))
    decreases |ks|
  {
    if |ks| > 0 {
      var s1 := Step(s, ks[0]);
      StepValid(s, ks[0]);
      StepFires(s, ks[0]);
      RunPrimary(s1, ks[1..]);
      NextPrimaryRotates(s.primary);
      if !Fires(s, ks[0]) {
        assert s1.primary == s.primary;
      }
    }
  }

  /** `meshuggah` for light `i`, given both phases and the primary slot as
      updated at the top of this frame. Slot 0 follows the base pulse (full
      colour in the third of four bursts, half brightness in the others);
      on an even kick phase the other lights show the kick pattern on the
      primary slot; on an odd kick phase they keep their old colour. */
  function MeshuggahLight(prev: Color, i: int, w: int, basePhase: int, kickPhase: int, primary: int): Color
    requires 0 <= i < w && ValidWidth(w)
    requires 0 <= basePhase < BaseStates && 0 <= kickPhase < KickStates && 1 <= primary <= 3
  {
    var s := SpaceState(i, w);
    if s == 0 then
      if basePhase % 16 < 2 then
        if basePhase / 16 == 2 then Colors[0] else ScaleColor(Colors[0], 0.5)
      else 0
    else if kickPhase % 2 == 0 then
      if Bit(Kicks, kickPhase / 2) && primary == s then Colors[s] else 0
    else
      prev
  }

  /** Half of slot 0's red 0xee is 0x77. */
  lemma HalfBase()
    ensures ScaleColor(Colors[0], 0.5) == 0x77
  {
    var base := Colors[0];
    assert Red(base) == 0xee && Green(base) == 0 && Blue(base) == 0;
    assert ScaledByte(0xee, 0.5) == 0x77 by {
      ScaledByteIs(0xee, 0.5);
      assert 0xee as real * 0.5 == 119.0;
    }
    assert ScaledByte(0, 0.5) == 0 by {
      ScaledByteIs(0, 0.5);
    }
    SameScaledChannels(base, 0.5, 0x77);
  }

  /** Slot 0: lit only in the first two of every 16 base phases, at
      full 0x0000ee in the third burst and at half brightness otherwise. */
  lemma MeshuggahBase(prev: Color, i: int, w: int, basePhase: int, kickPhase: int, primary: int)
    requires 0 <= i < w && ValidWidth(w)
    requires 0 <= basePhase < BaseStates && 0 <= kickPhase < KickStates && 1 <= primary <= 3
    requires SpaceState(i, w) == 0
    ensures var c := MeshuggahLight(prev, i, w, basePhase, kickPhase, primary);
      (c != 0 <==> basePhase % 16 < 2) &&
      (basePhase % 16 < 2 ==> c == if basePhase / 16 == 2 then 0x0000ee else 0x000077)
  {
    var c := MeshuggahLight(prev, i, w, basePhase, kickPhase, primary);
    if basePhase % 16 < 2 && basePhase / 16 != 2 {
      HalfBase();
      assert c == ScaleColor(Colors[0], 0.5);
    }
  }

  /** The other lights: kept on an odd kick phase; on an even one lit
      exactly when the kick is marked in `kicks` and the light's slot is the
      primary slot, and then in that slot's colour. */
  lemma MeshuggahKick(prev: Color, i: int, w: int, basePhase: int, kickPhase: int, primary: int)
    requires 0 <= i < w && ValidWidth(w)
    requires 0 <= basePhase < BaseStates && 0 <= kickPhase < KickStates && 1 <= primary <= 3
    requires SpaceState(i, w) != 0
    ensures var c, s := MeshuggahLight(prev, i, w, basePhase, kickPhase, primary), SpaceState(i, w);
      (kickPhase % 2 == 1 ==> c == prev) &&
      (kickPhase % 2 == 0 ==> (c != 0 <==> Bit(Kicks, kickPhase / 2) && s == primary)) &&
      (kickPhase % 2 == 0 && c != 0 ==> c == Colors[primary])
  {
    PaletteIsRgb();
  }

  /** The two `static` ints of `meshuggah`, which persist from frame to frame. */
  class Meshuggah {
    var primaryColor: int
    var lastKick: int

    function State(): KickState
      reads this
    {
      KickState(primaryColor, lastKick)
    }

    predicate Valid()
      reads this
    {
      ValidKickState(State())
    }

    constructor ()
      ensures Valid() && State() == InitialKickState
    {
      primaryColor := 3;
      lastKick := -1;
    }

    /** `meshuggah(t, a, w)`: one frame. */
    method Render(t: real, a: array<Color>, w: int)
      requires Valid() && w <= a.Length && ValidWidth(w)
      modifies this, a
      ensures Valid()
      ensures State() == Step(old(State()), KickPhase(t))
      ensures forall i :: 0 <= i < w ==>
        a[i] == MeshuggahLight(old(a[i]), i, w, BasePhase(t), KickPhase(t), primaryColor)
      ensures forall i :: w <= i < a.Length ==> a[i] == old(a[i])
    {
      var timeStateBase := TimeState(BasePeriod, t, BaseStates);
      var timeStateKick := TimeState(KickPeriod, t, KickStates);
      assert timeStateBase == BasePhase(t) && timeStateKick == KickPhase(t);
      StepValid(State(), timeStateKick);

      if timeStateKick % 2 == 0 {
        var kick := timeStateKick / 2;
        if kick != lastKick && Bit(Changes, kick) {
          primaryColor := NextPrimary(primaryColor);
        }
        lastKick := kick;
      }
      assert State() == Step(old(State()), timeStateKick);

      for i := 0 to w
        modifies a
        invariant forall j :: 0 <= j < i ==>
          a[j] == MeshuggahLight(old(a[j]), j, w, timeStateBase, timeStateKick, primaryColor)
        invariant forall j :: i <= j < a.Length ==> a[j] == old(a[j])
      {
        var spaceState := SpaceState(i, w);
        if spaceState == 0 {
          if timeStateBase % 16 < 2 {
            if timeStateBase / 16 == 2 {
              a[i] := Colors[spaceState];
            } else {
              a[i] := ScaleColor(Colors[spaceState], 0.5);
            }
          } else {
            a[i] := 0;
          }
        } else {
          if timeStateKick % 2 == 0 {
            var kick := timeStateKick / 2;
            if Bit(Kicks, kick) && primaryColor == spaceState {
              a[i] := Colors[spaceState];
            } else {
              a[i] := 0;
            }
          }
        }
      }
    }
  }
}

# christmas_lights: the time-to-colour engine, in Dafny

`christmas_lights` draws a strip of `w` lights. At every frame it maps the
current time `t` and the strip width to one packed colour per light. Red is
the low byte of the `uint32_t`, then green, then blue. The code lives in the
namespace `christmas_lights` of `main.cpp`.

The engine is built from these parts:

- **Slot mapping.** The strip is cut into 160 segments that repeat with
  period 8. An even segment `x` gives the light slot `x / 2`, one of four
  palette colours. An odd segment is a gap.
- **Phase computation.** The fraction of a period that has elapsed is cut
  into `states` phases.
- **Colour packing.** `from_rgb` and `scale_color` convert between the
  packed word and its channels.
- **Seven effects.** Each writes the first `w` entries of the caller's array
  in place:
  - `slow_pulse_single`, `slow_pulse_all` and `flash_single`;
  - `ascending`, `alternating` and `ascending_double`, three mask patterns
    of `mask_cycle`;
  - `meshuggah`, which keeps two `static` ints between frames.
- **The mixer.** `mix` gives each effect one minute in turn.

The model has six modules:

| module | models |
|---|---|
| `CArith` | `std::clamp`, `floor`, the bit and nibble tests |
| `ColorOps` | `from_rgb`, `scale_color` and the byte extraction of `from_func` |
| `Phases` | the palette, `get_space_state` and `get_time_state` |
| `Effects` | the six stateless effects |
| `Rhythm` | `meshuggah` |
| `Mixer` | `mix`, and the zeroed buffer `from_func` hands it |

How the model is built:

- **Effects are methods.** Each effect is a `method` over an `array<Color>`
  with `modifies a`. It is proved against a per-light function such as
  `MaskCycleLight` or `MeshuggahLight`. The proof covers entry `i < w` in
  terms of its old value, and shows that every entry from `w` on is left as
  it was.
- **Per-light lemmas.** Lemmas about the per-light functions say what the
  source promises.
- **The `meshuggah` state.** Its two `static` ints are the fields of class
  `Rhythm.Meshuggah`. Their update is the pure function `Rhythm.Step`.
  Lemmas about `Step` cover:
  - validity;
  - exactly when `Step` fires;
  - firing once per kick;
  - the 3-cycle of the primary slot over any run of frames.

Doubles are Dafny `real`s, and the `(int)` casts and `floor` are `.Floor`.
They agree here because every value cast is non-negative. In `from_rgb`
the value is clamped into [0, 255] before the cast. In `get_time_state` it
is a fraction in [0, 1) times `states`.
Cosine is a parameter `ccos: real -> real` of the effects that pulse.

Points of the code that may surprise a reader:

- **The rotation.** The nibbles of `0x2130` (main.cpp:155) send slot 3 to
  2, slot 2 to 1 and slot 1 to 3, and they fix slot 0. Starting from 3,
  `primary_color` cycles 3, 2, 1 and never reaches slot 0
  (`Rhythm.NextPrimaryTable`, `Rhythm.NextPrimaryRotates`).
- **The slot pattern.** Eight segments make one round of the four slots and
  the four gaps. On a strip whose width is a multiple of 20, the slots
  therefore repeat every `w / 20` lights (`Phases.SpaceStatePeriodic`).
- **Slots on narrow strips.** On a strip of 8 lights one light spans 20
  segments, so the slots run 0, 2, 0, 2, ... (`Phases.SpaceStateExamples`).
- **Entries left unwritten.** `mask_cycle` leaves a slotted light as it was
  when its mask bit is clear. `meshuggah` does the same, on an odd kick
  phase, to every light outside slot 0. Such entries are dark because
  `from_func` hands `mix` a fresh vector of zeros, which
  `Mixer.RenderFrame` models.
- **The mask width.** `kicks` and `changes` are 58-bit literals, one bit
  per kick of the 58 in a kick cycle.

## Model

| member | source | states |
|---|---|---|
| `ColorOps.Red` | main.cpp:29 | `base & 0xff`: the red byte, the low eight bits. |
| `ColorOps.Green` | main.cpp:30 | `(base >> 8) & 0xff`: the green byte. |
| `ColorOps.Blue` | main.cpp:31 | `(base >> 16) & 0xff`: the blue byte. |
| `ColorOps.Pack` | main.cpp:21-25 | The sum `r + (g << 8) + (b << 16)` that `from_rgb` accumulates in `z`. |
| `ColorOps.Channel` | main.cpp:22-24 | One channel of `from_rgb` is a byte, 0..255. |
| `ColorOps.ChannelMeaning` | main.cpp:22-24 | A channel saturates to 0 below 0 and to 255 above 1. In between it is the largest byte not above `x * 255`. |
| `ColorOps.UnpackBytes` | main.cpp:209-211 | `& 0xff`, `>> 8 & 0xff` and `>> 16 & 0xff` recover the three bytes of any word made of them, whatever lies above the blue byte. |
| `ColorOps.UnpackPack` | main.cpp:21-25 | A packed triple is below 2^24, and unpacking it gives its bytes back. |
| `ColorOps.PackUnpack` | main.cpp:29-31 | Every colour below 2^24 is the packing of its own three bytes. |
| `ColorOps.FromRgb` | main.cpp:20-26 | `from_rgb` yields a value below 2^24. Its red, green and blue bytes are the clamped, truncated channels of `r`, `g` and `b`. |
| `ColorOps.FromRgbExample` | main.cpp:20-26 | `from_rgb(2, -1, 0.5)` has bytes 255, 0 and 127. |
| `ColorOps.ScaleColor` | main.cpp:28-36 | `scale_color` never sets a byte above blue. |
| `ColorOps.ScaleColorChannels` | main.cpp:28-36 | Each channel of `scale_color(base, f)` is `floor(clamp(channel(base) * f, 0, 255))`. |
| `ColorOps.ScaleColorDims` | main.cpp:28-36 | A factor in [0, 1] never makes any channel brighter. |
| `ColorOps.ScaleColorUnit` | main.cpp:28-36 | Scaling by 1 keeps the colour and drops only the unused top byte. |
| `ColorOps.ScaleColorOff` | main.cpp:28-36 | Scaling by a factor of 0 or less gives black. |
| `Phases.PaletteIsRgb` | main.cpp:52 | The four palette colours are lit and below 2^24. |
| `Phases.SpaceState` | main.cpp:54-61 | The slot is -1 or 0..3. It is -1 exactly when `(i*160/w) % 8` is odd, and otherwise half of that value. |
| `Phases.SpaceStatePeriodic` | main.cpp:54-61 | When `w` is a multiple of 20, the slot pattern repeats every `w / 20` lights. |
| `Phases.SpaceStateExamples` | main.cpp:54-61 | On 8 lights, lights 0..3 get slots 0, 2, 0, 2. |
| `Phases.TimeState` | main.cpp:63-66 | The phase lies in [0, states - 1]. |
| `Phases.TimeStateMeaning` | main.cpp:63-66 | The phase is the whole number of `1/states` fractions of the period that have elapsed. The clamp never changes it. |
| `Phases.TimeStatePeriodic` | main.cpp:63-66 | Moving `t` by a whole number of periods keeps the phase. |
| `Phases.TimeStateExamples` | main.cpp:63-66 | With period 0.8 and 4 phases, time 0 is phase 0 and time 0.41 is phase 2. |
| `CArith.Bit` | main.cpp:76 | `x & (1 << k)` is non-zero: the lowest bit of `x` after `k` right shifts. It is also used at main.cpp:154 and 175. |
| `CArith.Nibble` | main.cpp:155 | `(x >> 4*k) & 0xf` is a value in 0..15: the low nibble after `k` shifts by four. |
| `Effects.Pulse` | main.cpp:102 | The brightness `(1 - ccos(x)) / 2`, also used at main.cpp:116. |
| `Effects.PulseInUnit` | main.cpp:102 | `(1 - ccos(x)) / 2` lies in [0, 1] when the cosine does. |
| `Effects.MaskCyclePhase` | main.cpp:69-70 | `mask_cycle` uses one of four phases. |
| `Effects.MaskCycleLight` | main.cpp:73-78 | One light of `mask_cycle`: a gap becomes 0, a slot whose mask bit `(s+4-phase)%4` is set becomes `colors[s]`, and otherwise the previous colour stays. |
| `Effects.MaskCycle` | main.cpp:68-80 | A gap light becomes 0, and a slotted light whose mask bit `(s+4-phase)%4` is set gets `colors[s]`. Every other light, and every entry from `w` on, keeps its value. |
| `Effects.AscendingLit` | main.cpp:76-84 | Mask 0b0001 lights exactly the slot equal to the phase. |
| `Effects.AlternatingLit` | main.cpp:76-88 | Mask 0b0101 lights exactly the slots of the phase's parity. |
| `Effects.AscendingDoubleLit` | main.cpp:76-92 | Mask 0b0011 lights exactly the phase's slot and the next one. |
| `Effects.AscendingLight` | main.cpp:68-84 | Per light, `ascending`: gaps go dark, the phase's slot shows its colour, and other lights keep theirs. |
| `Effects.AlternatingLight` | main.cpp:68-88 | Per light, `alternating`: the same, for the slots of the phase's parity. |
| `Effects.AscendingDoubleLight` | main.cpp:68-92 | Per light, `ascending_double`: the same, for the phase's slot and the next one. |
| `Effects.Ascending` | main.cpp:82-84 | Every light is written as `AscendingLight` says. Entries from `w` on are left alone. |
| `Effects.Alternating` | main.cpp:86-88 | Every light is written as `AlternatingLight` says. Entries from `w` on are left alone. |
| `Effects.AscendingDouble` | main.cpp:90-92 | Every light is written as `AscendingDoubleLight` says. Entries from `w` on are left alone. |
| `Effects.SlowPulseSinglePhase` | main.cpp:95-97 | `slow_pulse_single` uses one of four phases. |
| `Effects.SlowPulseSingleFactor` | main.cpp:96-102 | The brightness `(1 - ccos(t / 20 * 4)) / 2`. |
| `Effects.SlowPulseSingleLight` | main.cpp:100-105 | One light of `slow_pulse_single`: the palette colour of the phase scaled by the brightness when the light's slot is the phase, and 0 otherwise. |
| `Effects.SlowPulseSingleLit` | main.cpp:94-107 | Only lights whose slot equals the phase can be lit. With a brightness in [0, 1] they are never brighter than their palette colour. |
| `Effects.SlowPulseSingleBounded` | main.cpp:94-107 | With a cosine in [-1, 1], no light is brighter than the phase's palette colour in any channel. |
| `Effects.SlowPulseSingle` | main.cpp:94-107 | Every entry of `a[0..w)` is overwritten with `SlowPulseSingleLight`, and nothing beyond `w` changes. |
| `Effects.SlowPulseAllFactor` | main.cpp:111-116 | The brightness `(1 - ccos(t / 5)) / 2`. |
| `Effects.SlowPulseAllLight` | main.cpp:114-119 | One light of `slow_pulse_all`: the slot's palette colour scaled by the brightness, and 0 in a gap. |
| `Effects.SlowPulseAllLit` | main.cpp:109-121 | Gaps are dark. A slotted light is never brighter than its palette colour while the brightness is in [0, 1]. |
| `Effects.SlowPulseAllBounded` | main.cpp:109-121 | With a cosine in [-1, 1], no slotted light is brighter than its palette colour in any channel. |
| `Effects.SlowPulseAll` | main.cpp:109-121 | Every entry of `a[0..w)` is overwritten with `SlowPulseAllLight`, and nothing beyond `w` changes. |
| `Effects.FlashSinglePhase` | main.cpp:124-126 | `flash_single` uses one of 32 phases. |
| `Effects.FlashSingleLight` | main.cpp:129-135 | One light of `flash_single`: `colors[s]` when the phase is even and the slot is `phase / 8`, and 0 otherwise. |
| `Effects.FlashSingleLit` | main.cpp:123-137 | A light is non-zero exactly when the phase is even and its slot is `phase / 8`, and it then has `colors[phase / 8]`. |
| `Effects.FlashSingle` | main.cpp:123-137 | Every entry of `a[0..w)` is overwritten with `FlashSingleLight`, and nothing beyond `w` changes. |
| `Rhythm.BasePhase` | main.cpp:140-141 | The base phase is one of 64. |
| `Rhythm.KickPhase` | main.cpp:143-144 | The kick phase is one of 116. |
| `Rhythm.NextPrimary` | main.cpp:155 | `(0x2130 >> 4*pc) & 0xf` is a nibble, 0..15. |
| `Rhythm.NextPrimaryTable` | main.cpp:155 | The table sends 0 to 0, 1 to 3, 2 to 1 and 3 to 2. |
| `Rhythm.NextPrimaryRotates` | main.cpp:149-155 | From slots 1..3 the successor is a different slot in 1..3, and three steps return: slot 0 is never reached. |
| `Rhythm.Fires` | main.cpp:152-154 | The condition under which `primary_color` advances: the kick phase is even, the kick `phase / 2` differs from `last_kick`, and its bit in `changes` is set. |
| `Rhythm.Step` | main.cpp:152-158 | On an odd kick phase the state is unchanged. On an even one `last_kick` becomes `phase / 2`. |
| `Rhythm.StepValid` | main.cpp:149-158 | The update keeps `primary_color` in {1, 2, 3} and `last_kick` in [-1, 57]. |
| `Rhythm.StepFires` | main.cpp:152-158 | `primary_color` moves exactly when the phase is even, the kick is new and its `changes` bit is set, and then it moves to its successor. Only an even phase changes anything. |
| `Rhythm.StepOnce` | main.cpp:152-158 | After a kick has been seen, the same phase neither fires nor changes the state again. |
| `Rhythm.Run` | main.cpp:149-158 | The state after any sequence of frames stays valid. |
| `Rhythm.FireCount` | main.cpp:152-158 | The number of frames at which `Fires` holds, which is at most the number of frames. |
| `Rhythm.SettledNeverFires` | main.cpp:152-158 | A state that a kick phase leaves alone never fires on any number of repeats of that phase. |
| `Rhythm.SameKickFiresOnce` | main.cpp:152-158 | However many frames fall into one kick phase, `primary_color` moves at most once. |
| `Rhythm.RunAppend` | main.cpp:149-158 | Two stretches of frames run one after the other: the second starts where the first ended, and the firings add up. |
| `Rhythm.OneKickFiresOnce` | main.cpp:152-158 | The frames of one kick `k` fall into phase `2k` and then `2k + 1`. However many there are of each, `primary_color` moves at most once. |
| `Rhythm.Rotate` | main.cpp:155 | Iterating the successor stays in slots 1..3. |
| `Rhythm.RotatePeriodic` | main.cpp:155 | Three more rotations change nothing. |
| `Rhythm.RunPrimary` | main.cpp:149-158 | Over any frames, `primary_color` is its start rotated once per firing kick. |
| `Rhythm.MeshuggahLight` | main.cpp:161-181 | One light of `meshuggah`. Slot 0 follows the base phase: full colour, half colour or 0. On an even kick phase, the other lights show `colors[s]` when the kick's `kicks` bit is set and `s` is the primary slot, and 0 otherwise. On an odd kick phase they keep their colour. |
| `Rhythm.HalfBase` | main.cpp:167 | `scale_color(0x0000ee, 0.5)` is 0x000077. |
| `Rhythm.MeshuggahBase` | main.cpp:162-171 | A slot-0 light is non-zero exactly when the base phase `% 16 < 2`. It then has 0x0000ee when the base phase `/ 16 == 2`, and 0x000077 otherwise. |
| `Rhythm.MeshuggahKick` | main.cpp:172-181 | Any other light keeps its colour on an odd kick phase. On an even one it is lit exactly when bit `kick` of `kicks` is set and its slot is `primary_color`, and then it has that slot's colour. |
| `Rhythm.Meshuggah.constructor` | main.cpp:149-150 | The state starts at `primary_color = 3` and `last_kick = -1`. |
| `Rhythm.Meshuggah.Render` | main.cpp:139-183 | The fields move by `Step`, and every light is written as `MeshuggahLight` says with the updated `primary_color`. Entries from `w` on are unchanged. |
| `Mixer.MixIndex` | main.cpp:194-196 | The effect index lies in [0, 6]. |
| `Mixer.Cropped` | main.cpp:197 | The time passed to the effect lies in [0, 60). |
| `Mixer.CroppedShift` | main.cpp:197 | It differs from `t` by a whole number of minutes. |
| `Mixer.MixWindow` | main.cpp:194-196 | The effect of minute `m` is table entry `m % 7`, so each effect runs for one whole minute of the 420 s cycle. |
| `Mixer.MixExamples` | main.cpp:186-198 | At time 0 `slow_pulse_single` starts. At 400 s, `meshuggah` is 40 s into its minute. |
| `Mixer.EffectLight` | main.cpp:186-199 | The light that table entry `e` writes, with the cropped time. The entries are in the order of `funcs`. |
| `Mixer.EffectLightRgb` | main.cpp:185-200 | Over a previous colour below 2^24, every effect leaves the light below 2^24. |
| `Mixer.Mix` | main.cpp:185-200 | The chosen table entry writes every light. Only `meshuggah`'s minute moves its state, and entries from `w` on are unchanged. |
| `Mixer.RenderFrame` | main.cpp:205-206 | A fresh zeroed vector of `w` entries filled by `mix` has every light as `EffectLight` gives it over 0. Each light holds only the three channel bytes. The `meshuggah` state moves by `Step` in its minute and stays put otherwise. |

## Left out

- The display loop is not modelled: `wWinMain`, `CImgDisplay`, the
  `std::chrono` clock and the frame wait (main.cpp:217-233). These are
  window I/O and time. The time is a parameter instead.
- The CImg pixel buffer of `from_func` (main.cpp:203-215) is not modelled,
  because the buffer is a foreign library. What is kept:
  - the fresh zeroed vector and the call of `mix`, in `Mixer.RenderFrame`;
  - the byte extraction, which is `ColorOps.Red`, `Green` and `Blue`.
- `rainbow` (main.cpp:38-49) is left out: `mix` never calls it, and it is
  only trigonometry on doubles.
- `csin` and `ccos` (main.cpp:12-18) are left out. Cosine is the parameter
  `ccos`, and the pulse factors use the source's formulas over it.
- Bit-exact double arithmetic is not modelled, because reals are exact:
  - rounding at phase boundaries;
  - whether `x / 255 * 255` comes back exactly;
  - NaN and infinities.
- Phases.SpaceState: modelled for `0 <= i` and `0 < w`, with `i * 160` no
  larger than `INT_MAX`. Every caller passes `0 <= i < w`. For negative
  operands C++ truncation would differ from the Euclidean division used
  here, and signed overflow of `i * 160` is undefined in C++.
- The masks and shifts of `meshuggah` are on non-negative values only,
  which is all the source applies them to. A negative or out-of-range shift
  amount cannot occur.
- The `std::function` dispatch table `funcs` is a match on the datatype
  `Mixer.Effect` with the same seven entries in the same order.

# DcMot: a Dafny model of the TB6612FNG DC-motor driver

`DcMot` drives a brushed DC motor through a TB6612FNG-class H-bridge. It uses
one PWM channel of an STM32duino hardware timer and two direction pins, A and B.
Under the hardware calls is a small integer core. This project models that core
and proves properties of it:

- `set(val)` clamps a signed speed to `[-Resolution, Resolution]`. Its sign
  picks the bridge pattern: zero gives idle (A low, B low), a negative value
  gives reverse (A high, B low) and a positive value gives forward (A low,
  B high). The magnitude is then scaled to a compare value,
  `(ARR * |val|) / Resolution`.
- `stop()` is `set(0)`.
- `ebreak(val)` drives both pins high (short brake). It scales `val` the same
  way but does not clamp it.
- `limit(percent)` saturates the percentage at 100. It then recomputes the
  ceiling as `ARR = ((overflow + 1) * percent) / 100`, where `overflow` is read
  from the timer.
- `init(params, res)` stores the resolution (100 by default), writes compare 0
  and applies `limit(100)`.
- A default-constructed object has a null timer. On such an object, `set` and
  `stop` write nothing.

The state is `Driver = Unbound | Bound(arr, resolution)`. Each operation is a
pure function. `Set`, `Stop` and `Ebreak` return `Writes`: either `NoWrites`, or
the levels written to pins A and B and the compare value. `Limit` returns the
new state. The timer overflow is a parameter of `Limit` and `Init`. `Init`
returns the bound state and the compare value it writes. `Run` replays a
sequence of calls on a bound object. It is used to state invariants that hold
across the object's lifetime.

The C++ code computes in `uint32_t`, and the model does the same:

- `ARR * val` and `(overflow + 1) * percent` wrap modulo 2^32 (`Uint.Wrap32`),
  and the divisions truncate.
- The bounds hold whether or not a product wraps. The compare value written by
  `set`, and by `ebreak` with a value within the resolution, never exceeds
  `ARR`, and `ARR` never exceeds `overflow + 1`. `ebreak` above the resolution
  can write more than `ARR`.
- The exact scaling formulas and the monotonicity results are proved only when
  no product wraps. Each such lemma states that condition as a hypothesis.
- `LimitWrapsForLongPeriods` shows that the condition is needed. With a
  100 000 000-tick period, `limit(100)` gives a ceiling of 14 100 654.

Files:

- `uint.dfy` (module `Uint`): the integer widths, `Wrap32`, and lemmas about
  multiplication and truncating division.
- `dcmot.dfy` (module `DcMot`): the driver state and its operations.
- `dcmot_properties.dfy` (module `DcMotProperties`): the properties. The
  scaling results are stated against `FloorScaled`, a characterisation of
  rounding down that uses no division.

## Model

| member | source | states |
|---|---|---|
| DcMot.Default | dcmot.cpp:27-36 | a default-constructed object is unbound, and `set` (any speed) and `stop` on it write nothing |
| DcMot.Init | dcmot.cpp:43-60 | `init` binds the object with the given resolution, writes compare 0, and leaves a ceiling of at most overflow + 1 |
| DcMot.Clamp | dcmot.cpp:71 | `constrain` keeps the speed in [-Resolution, Resolution], leaves in-range speeds unchanged and keeps the sign (with non-zero resolution) |
| DcMot.Scale | dcmot.cpp:90 | the uint32 compare value (ARR * amount) / Resolution never exceeds ARR when the amount is within the resolution, even if the product wraps |
| DcMot.Set | dcmot.cpp:62-92 | with a null timer, `set` writes nothing; on a bound object it always writes, never selects the brake pattern, and its compare value is at most ARR |
| DcMot.Stop | dcmot.cpp:94-97 | `stop` drives A and B low and writes compare 0 on a bound object, and writes nothing on an unbound one |
| DcMot.Ebreak | dcmot.cpp:99-111 | `ebreak` drives both pins high (brake), and its compare value is guaranteed to be at most ARR when the value is within the resolution (not clamped otherwise) |
| DcMot.LimitArr | dcmot.cpp:120 | the recomputed ceiling never exceeds overflow + 1, even when the uint32 product wraps |
| DcMot.Limit | dcmot.cpp:113-121 | `limit` changes only the ceiling, keeps the resolution, and bounds the ceiling by overflow + 1 |
| DcMot.Apply | dcmot.cpp:62-121 | of the four calls on a bound object, only `limit` changes the object (ceiling only, resolution kept), and only `limit` writes nothing |
| DcMot.Run | dcmot.cpp:62-121 | a sequence of calls yields one entry per call, and an entry writes nothing exactly when its call is `limit` |
| DcMotProperties.SetClamps | dcmot.cpp:71 | every speed writes what its clamped speed writes, so a speed above Resolution acts like `set(Resolution)` and one below -Resolution like `set(-Resolution)` |
| DcMotProperties.SetDirection | dcmot/dcmot.hpp:93-96 | each pattern holds if and only if its sign does: idle exactly when the speed is zero, forward exactly when it is positive, reverse exactly when it is negative |
| DcMotProperties.SetSymmetric | dcmot.cpp:78-91 | `set(-v)` writes the same compare value as `set(v)`, with pins A and B exchanged |
| DcMotProperties.SetDutyScaled | dcmot.cpp:90 | when `ARR` times the clamped magnitude fits in 32 bits, the compare value is the clamped magnitude scaled from [0, Resolution] onto [0, ARR], rounded down (floor characterisation) |
| DcMotProperties.SetDutyMonotone | dcmot.cpp:71-91 | when `ARR` times the larger clamped magnitude fits in 32 bits, a command of larger magnitude never writes a smaller compare value |
| DcMotProperties.SetFullSpeedReachesCeiling | dcmot/dcmot.hpp:139-144 | when `ARR * Resolution` fits in 32 bits, `set(Resolution)` and `set(-Resolution)` write exactly ARR, the largest compare value |
| DcMotProperties.EbreakScalesLikeSet | dcmot.cpp:99-111 | within the resolution, `ebreak(v)` writes the compare value of `set(v)` with both pins high |
| DcMotProperties.EbreakExceedsCeiling | dcmot.cpp:101 | `ebreak` does not clamp: with ARR > 0 and `ARR * v` fitting in 32 bits, a value v of at least twice the resolution writes a compare value above ARR |
| DcMotProperties.EbreakScaled | dcmot.cpp:101 | when `ARR * v` fits in 32 bits, `ebreak(v)` writes v scaled by ARR / Resolution, rounded down (floor characterisation), for every v, within the resolution or not |
| DcMotProperties.LimitSaturates | dcmot.cpp:115-118 | `limit(p)` with p above 100 gives the same state as `limit(100)` |
| DcMotProperties.LimitScaled | dcmot.cpp:120 | without wrap-around, the ceiling is (overflow + 1) * min(p, 100) / 100, rounded down |
| DcMotProperties.LimitMonotone | dcmot.cpp:113-121 | without wrap-around, a larger percentage never gives a smaller ceiling |
| DcMotProperties.LimitOverwrites | dcmot.cpp:120 | `limit` computes the ceiling from scratch: an earlier limit has no effect on a later one |
| DcMotProperties.LimitWrapsForLongPeriods | dcmot.cpp:120 | a 100 000 000-tick period makes `(overflow + 1) * 100` wrap, and the ceiling comes out as 14 100 654 |
| DcMotProperties.InitFullScale | dcmot.cpp:59 | after `init` the ceiling is overflow + 1, and `set(±Resolution)` writes exactly overflow + 1 in the matching direction |
| DcMotProperties.RunWithinTimer | dcmot/dcmot.hpp:139-144 | ARR is the largest compare value: from a ceiling within the timer range, no sequence of `set`, `stop`, in-range `ebreak` and `limit` calls writes a compare value above overflow + 1 |
| DcMotProperties.SessionWithinTimer | dcmot.cpp:43-121 | after `init`, with the overflow fixed, every compare value written by any later sequence of calls whose `ebreak` values are within the resolution lies in [0, overflow + 1] |
| DcMotProperties.InitDefaultResolution | dcmot/dcmot.hpp:83-86 | `init` without a resolution uses 100 |
| DcMotProperties.WorkedExample | dcmot.cpp:62-121 | Resolution 100, overflow 999, limit 50: ceiling 500; set(50) gives forward at 250, set(-25) reverse at 125, ebreak(10) brake at 50 |

## Left out

- Hardware calls. `setMode`, `setCaptureCompare`, `resumeChannel`, `pinMode`,
  `digitalWrite` and `getOverflow` are not modelled. The model keeps only what
  they write: pin levels and the compare value. The timer overflow is an input.
- Pin-to-channel lookup. `pinmap_function`, `STM_PIN_CHANNEL` and
  `digitalPinToPinName` are a board pin-map lookup. The pins, channel and timer
  are opaque, so the model does not hold them.
- Order of writes. The writes are a record, not a sequence. `set` and `ebreak`
  write pin A, then pin B, then the compare value, and the model does not show
  that order.
- `init` side effects. `init` also sets PWM mode, resumes the channel and makes
  both pins outputs. `Init` records only the compare value 0 and the new state.
- The parameterised constructor only calls `init`, so it is `Init` and has no
  member of its own.
- Field and parameter names. The header and the implementation name the fields
  and parameters differently, and `limit` is not declared in the header. The
  model follows the behaviour of `dcmot.cpp`.
- Ebreak requires a bound object with a non-zero resolution. `ebreak` divides by
  `Resolution` before its null-timer check (dcmot.cpp:101 before 103). An
  unbound object has `Resolution == 0`, so `ebreak` on it divides by zero. The
  code never reaches the guard as a no-op, so unbound `ebreak` is not modelled
  as silently ignored.
- Ebreak does not clamp its value. The header comment says the value is
  limited by the resolution (dcmot/dcmot.hpp:110-113), but the code has no
  clamp. The model follows the code, and `EbreakExceedsCeiling` shows the
  consequence.
- Limit requires a bound object. `limit` reads the timer with no null check.
- Set requires a non-zero resolution on a bound object. `init` accepts
  `res == 0`, but `set` would then divide by zero.
- InitFullScale holds only when `(overflow + 1) * 100` and
  `(overflow + 1) * Resolution` fit in 32 bits. When the first product wraps,
  the ceiling is not the full range. When only the second wraps, the ceiling is
  the full range, but `set(±Resolution)` does not write it.
- SetFullSpeedReachesCeiling assumes `ARR * Resolution` fits in 32 bits.
  Otherwise the product in `set` wraps and full speed can write less than ARR.
- EbreakScaled and EbreakExceedsCeiling assume `ARR * v` fits in 32 bits.
  EbreakExceedsCeiling also assumes `ARR > 0`, since a zero ceiling makes every
  compare value 0.
- SessionWithinTimer and RunWithinTimer assume every `ebreak` value in the
  sequence is within the resolution. `ebreak` does not clamp, so a larger value
  can write above `overflow + 1`.
- SetDutyScaled and SetDutyMonotone assume that `ARR` times the clamped
  magnitude fits in 32 bits (for SetDutyMonotone, the larger magnitude).
  Otherwise the product in `set` wraps.
- LimitScaled and LimitMonotone assume `(overflow + 1) * 100` fits in 32 bits.
  Otherwise the product in `limit` can wrap, for large enough percentages.
- Run keeps the timer's overflow fixed across the calls. The live timer value
  could change between `limit` calls, which the model does not represent.
- Interrupts and concurrent access are not modelled. The code does nothing
  about them.

/**
 The DcMot driver for a brushed DC motor behind a TB6612FNG H-bridge.

 The C++ object holds a timer pointer, two direction pins, a PWM channel, the
 compare ceiling `ARR` and the user `Resolution`. Pins, channel and timer are
 opaque handles here: what matters is whether the object is bound to a timer
 and the two integers it scales with. Every operation is a pure function that
 returns what it writes to the hardware (the levels of pins A and B and the
 capture/compare value of the PWM channel) and, where it changes the object,
 the new driver state.
 */
module DcMot {
  import opened Uint

  /** Logic level driven onto a direction pin. */
  datatype Level = Low | High

  /** The four input patterns of the bridge's two direction pins. */
  datatype Bridge = Idle | Forward | Reverse | Brake

  /** Which bridge pattern the levels (A, B) select. */
  function BridgeOf(a: Level, b: Level): Bridge
  {
    match (a, b)
    case (Low, Low) => Idle
    case (Low, High) => Forward
    case (High, Low) => Reverse
    case (High, High) => Brake
  }

  /** The hardware writes of one call: none, or both direction pins then the compare value. */
  datatype Writes = NoWrites | Writes(a: Level, b: Level, compare: u32) {

    function Bridge(): Bridge
      requires Writes?
    {
      BridgeOf(a, b)
    }
  }

  /** The same writes with the roles of pins A and B exchanged. */
  function Mirror(w: Writes): (m: Writes)
    ensures m.NoWrites? <==> w.NoWrites?
    ensures w.Writes? ==> m.compare == w.compare
    ensures w.Writes? && w.Bridge() == Forward ==> m.Bridge() == Reverse
    ensures w.Writes? && w.Bridge() == Reverse ==> m.Bridge() == Forward
    ensures w.Writes? && w.Bridge() in {Idle, Brake} ==> m.Bridge() == w.Bridge()
  {
    match w
    case NoWrites => NoWrites
    case Writes(a, b, c) => Writes(b, a, c)
  }

  /**
   The driver object. A default-constructed object has a null timer pointer and
   zero ARR and Resolution: it is `Unbound`. After `init` it is `Bound` to a timer
   with the current compare ceiling `arr` and the user resolution.
   */
  datatype Driver = Unbound | Bound(arr: u32, resolution: u16)

  /** The resolution used when `init` and the parameterised constructor are given none. */
  const DefaultResolution: u16 := 100

  /** The percentage `init` passes to `limit`: the full timer range. */
  const FullScale: u8 := 100

  /** The default constructor: nothing is bound, so speed commands write nothing. */
  function Default(): (d: Driver)
    ensures d.Unbound? && Stop(d) == NoWrites
    ensures d.Unbound? && forall v: i32 :: Set(d, v) == NoWrites
  {
    Unbound
  }

  /** Arduino's `constrain(v, lo, hi)` with lo = -res and hi = res. */
  function Clamp(v: int, res: int): (c: int)
    requires 0 <= res
    ensures -res <= c <= res
    ensures -res <= v <= res ==> c == v
    ensures c < 0 <==> v < 0 && res > 0
    ensures c > 0 <==> v > 0 && res > 0
  {
    if v < -res then -res else if v > res then res else v
  }

  /**
   The compare value for `amount` units out of `res`, computed as the driver does
   in uint32_t: the product with the ceiling wraps, the division truncates.
   */
  function Scale(arr: u32, amount: nat, res: u16): (c: u32)
    requires res > 0
    ensures amount <= res ==> c <= arr
  {
    var kept := Wrap32(arr * amount);
    ScaledWithin(kept, arr, amount, res);
    kept / res
  }

  /**
   `set(val)`: on a bound object, clamp the speed to [-Resolution, Resolution],
   select idle, reverse or forward from its sign and write the scaled magnitude.
   An unbound object returns before touching the hardware.
   */
  function Set(d: Driver, v: i32): (w: Writes)
    requires d.Bound? ==> d.resolution > 0
    ensures w.NoWrites? <==> d.Unbound?
    ensures w.Writes? ==> w.compare <= d.arr && w.Bridge() != Brake
  {
    match d
    case Unbound => NoWrites
    case Bound(arr, res) =>
      var c := Clamp(v, res);
      if c == 0 then Writes(Low, Low, Scale(arr, c, res))
      else if c < 0 then Writes(High, Low, Scale(arr, -c, res))
      else Writes(Low, High, Scale(arr, c, res))
  }

  /** `stop()`: the same as `set(0)`, leaving the motor to coast. */
  function Stop(d: Driver): (w: Writes)
    requires d.Bound? ==> d.resolution > 0
    ensures d.Unbound? ==> w == NoWrites
    ensures d.Bound? ==> w == Writes(Low, Low, 0)
  {
    Set(d, 0)
  }

  /**
   `ebreak(val)`: drive both pins high (short brake) and write the scaled value.
   The value is NOT clamped to the resolution, and the division by Resolution
   comes before the timer check, so the object must be bound with a non-zero
   resolution.
   */
  function Ebreak(d: Driver, v: u32): (w: Writes)
    requires d.Bound? && d.resolution > 0
    ensures w.Writes? && w.Bridge() == Brake
    ensures v <= d.resolution ==> w.compare <= d.arr
  {
    Writes(High, High, Scale(d.arr, v, d.resolution))
  }

  /** The ceiling `limit(percent)` computes from the timer overflow, in uint32_t. */
  function LimitArr(overflow: u32, percent: u8): (arr: u32)
    ensures arr <= overflow + 1
  {
    var p := if percent > 100 then 100 else percent;
    MulDivLe(Wrap32(overflow + 1), p, 100);
    Wrap32(Wrap32(overflow + 1) * p) / 100
  }

  /**
   `limit(percent)`: recompute the ceiling from the timer's live overflow value.
   `limit` reads the timer without checking it, so the object must be bound.
   */
  function Limit(d: Driver, overflow: u32, percent: u8): (d': Driver)
    requires d.Bound?
    ensures d'.Bound? && d'.resolution == d.resolution
    ensures d'.arr <= overflow + 1
  {
    d.(arr := LimitArr(overflow, percent))
  }

  /** The outcome of `init`: the bound object and the compare value written while binding. */
  datatype Setup = Setup(driver: Driver, compare: u32)

  /**
   `init(params, res)`: bind the timer and pins, store the resolution, write
   compare 0, then apply `limit(100)`. The ARR held before `limit` is never read,
   so it is irrelevant which value the binding step leaves there.
   */
  function Init(overflow: u32, res: u16 := DefaultResolution): (s: Setup)
    ensures s.driver.Bound? && s.driver.resolution == res
    ensures s.compare == 0
    ensures s.driver.arr <= overflow + 1
  {
    Setup(Limit(Bound(0, res), overflow, FullScale), 0)
  }

  /** One call a program makes on a bound object. */
  datatype Call =
    | SetCall(speed: i32)
    | StopCall
    | EbreakCall(amount: u32)
    | LimitCall(percent: u8)

  /** The object after a call, and what the call wrote. */
  datatype Step = Step(driver: Driver, writes: Writes)

  /** One call on a bound object; only `limit` changes the object, and it writes nothing. */
  function Apply(d: Driver, overflow: u32, c: Call): (s: Step)
    requires d.Bound? && d.resolution > 0
    ensures s.driver.Bound? && s.driver.resolution == d.resolution
    ensures s.writes.NoWrites? <==> c.LimitCall?
    ensures !c.LimitCall? ==> s.driver == d
  {
    match c
    case SetCall(v) => Step(d, Set(d, v))
    case StopCall => Step(d, Stop(d))
    case EbreakCall(v) => Step(d, Ebreak(d, v))
    case LimitCall(p) => Step(Limit(d, overflow, p), NoWrites)
  }

  /**
   The writes of a sequence of calls on a bound object, one entry per call, with
   the timer's overflow value fixed throughout.
   */
  function Run(d: Driver, overflow: u32, calls: seq<Call>): (ws: seq<Writes>)
    requires d.Bound? && d.resolution > 0
    ensures |ws| == |calls|
    ensures forall i :: 0 <= i < |calls| ==> (ws[i].NoWrites? <==> calls[i].LimitCall?)
    decreases |calls|
  {
    if |calls| == 0 then []
    else
      var s := Apply(d, overflow, calls[0]);
      [s.writes] + Run(s.driver, overflow, calls[1..])
  }
}

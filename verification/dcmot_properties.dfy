/**
 Properties of the DcMot model: clamping and saturation, the sign-to-bridge
 mapping, the symmetry between forward and reverse, the duty-cycle scaling
 against an independent floor characterisation, the braking asymmetry, and the
 ceiling arithmetic of `limit` and `init`.
 */
module DcMotProperties {
  import opened Uint
  import opened DcMot

  /**
   Reference meaning of truncating linear scaling: c is the largest value with
   c * res <= top * amount, i.e. amount/res of the range [0, top], rounded down.
   */
  ghost predicate FloorScaled(c: int, top: nat, amount: nat, res: nat)
  {
    res * c <= top * amount < res * (c + 1)
  }

  function Abs(x: int): nat
  {
    if x < 0 then -x else x
  }

  /** A bound driver clamps: any speed gives the writes of its clamped speed. */
  lemma SetClamps(d: Driver, v: i32)
    requires d.Bound? && d.resolution > 0
    ensures Set(d, v) == Set(d, Clamp(v, d.resolution))
    ensures v > d.resolution ==> Set(d, v) == Set(d, d.resolution)
    ensures v < -(d.resolution as int) ==> Set(d, v) == Set(d, -(d.resolution as int))
  {
  }

  /** Zero means idle, a positive speed forward and a negative speed reverse. */
  lemma SetDirection(d: Driver, v: i32)
    requires d.Bound? && d.resolution > 0
    ensures Set(d, v).Writes?
    ensures Set(d, v).Bridge() == Idle <==> v == 0
    ensures Set(d, v).Bridge() == Forward <==> v > 0
    ensures Set(d, v).Bridge() == Reverse <==> v < 0
  {
  }

  /** Opposite speeds write the same compare value with pins A and B exchanged. */
  lemma SetSymmetric(d: Driver, v: i32)
    requires d.Bound? ==> d.resolution > 0
    requires v > -0x8000_0000
    ensures Set(d, -v) == Mirror(Set(d, v))
  {
    if d.Bound? {
      var res := d.resolution;
      assert Clamp(-v, res) == -Clamp(v, res);
    }
  }

  /**
   Without wrap-around, the compare value `set` writes is the magnitude of the
   clamped speed scaled from [0, Resolution] onto [0, ARR], rounded down.
   */
  lemma SetDutyScaled(d: Driver, v: i32)
    requires d.Bound? && d.resolution > 0
    requires d.arr * Abs(Clamp(v, d.resolution)) < U32_LIMIT
    ensures FloorScaled(Set(d, v).compare, d.arr, Abs(Clamp(v, d.resolution)), d.resolution)
    ensures Set(d, v).compare == d.arr * Abs(Clamp(v, d.resolution)) / d.resolution
  {
    var res := d.resolution;
    var m := Abs(Clamp(v, res));
    SetWritesScaledMagnitude(d, v);
    DivIsFloor(d.arr * m, res);
  }

  /** `set` writes the clamped magnitude, scaled. */
  lemma SetWritesScaledMagnitude(d: Driver, v: i32)
    requires d.Bound? && d.resolution > 0
    ensures Set(d, v).compare == Scale(d.arr, Abs(Clamp(v, d.resolution)), d.resolution)
  {
  }

  /** Without wrap-around, a faster command never writes a smaller compare value. */
  lemma SetDutyMonotone(d: Driver, v1: i32, v2: i32)
    requires d.Bound? && d.resolution > 0
    requires d.arr * Abs(Clamp(v2, d.resolution)) < U32_LIMIT
    requires Abs(v1) <= Abs(v2)
    ensures Set(d, v1).compare <= Set(d, v2).compare
  {
    var res := d.resolution;
    var m1, m2 := Abs(Clamp(v1, res)), Abs(Clamp(v2, res));
    MulLeMono(d.arr, m1, m2);
    SetDutyScaled(d, v1);
    SetDutyScaled(d, v2);
    MulLeMono(d.arr, m1, m2);
    DivLeMono(d.arr * m1, d.arr * m2, res);
  }

  /** At full speed in either direction the compare value reaches the ceiling exactly. */
  lemma SetFullSpeedReachesCeiling(d: Driver)
    requires d.Bound? && d.resolution > 0
    requires d.arr * d.resolution < U32_LIMIT
    ensures Set(d, d.resolution) == Writes(Low, High, d.arr)
    ensures Set(d, -(d.resolution as int)) == Writes(High, Low, d.arr)
  {
    MulDivCancel(d.arr, d.resolution);
  }

  /** Within the resolution, braking scales exactly as `set` does, but with both pins high. */
  lemma EbreakScalesLikeSet(d: Driver, v: u32)
    requires d.Bound? && d.resolution > 0
    requires v <= d.resolution
    ensures Ebreak(d, v).compare == Set(d, v).compare
    ensures Ebreak(d, v) == Writes(High, High, Set(d, v).compare)
  {
  }

  /**
   Without wrap-around, the compare value `ebreak` writes is the unclamped
   braking value scaled by ARR / Resolution, rounded down, at any value.
   */
  lemma EbreakScaled(d: Driver, v: u32)
    requires d.Bound? && d.resolution > 0
    requires d.arr * v < U32_LIMIT
    ensures FloorScaled(Ebreak(d, v).compare, d.arr, v, d.resolution)
  {
    DivIsFloor(d.arr * v, d.resolution);
  }

  /**
   `ebreak` does not clamp: a braking value of at least twice the resolution
   writes a compare value above the ceiling.
   */
  lemma EbreakExceedsCeiling(d: Driver, v: u32)
    requires d.Bound? && d.resolution > 0 && d.arr > 0
    requires v >= 2 * d.resolution
    requires d.arr * v < U32_LIMIT
    ensures Ebreak(d, v).compare > d.arr
  {
    var res := d.resolution;
    var c: int := Ebreak(d, v).compare;
    EbreakScaled(d, v);
    var twice: nat := 2 * (res as int);
    MulLeMono(d.arr, twice, v);
    MulLeMono(res, c + 1, d.arr + 1);
    MulLeMono(res, 1, d.arr);
  }

  /** A percentage above 100 is treated as 100. */
  lemma LimitSaturates(d: Driver, overflow: u32, percent: u8)
    requires d.Bound?
    requires percent > 100
    ensures Limit(d, overflow, percent) == Limit(d, overflow, FullScale)
  {
  }

  /**
   Without wrap-around, the ceiling is the saturated percentage of overflow + 1,
   rounded down.
   */
  lemma LimitScaled(overflow: u32, percent: u8)
    requires (overflow + 1) * 100 < U32_LIMIT
    ensures FloorScaled(LimitArr(overflow, percent), overflow + 1, if percent > 100 then 100 else percent, 100)
  {
    var p := if percent > 100 then 100 else percent;
    MulLeMono(overflow + 1, p, 100);
    DivIsFloor((overflow + 1) * p, 100);
  }

  /** Without wrap-around, a larger percentage never gives a smaller ceiling. */
  lemma LimitMonotone(overflow: u32, p: u8, q: u8)
    requires (overflow + 1) * 100 < U32_LIMIT
    requires p <= q
    ensures LimitArr(overflow, p) <= LimitArr(overflow, q)
  {
    var p' := if p > 100 then 100 else p;
    var q' := if q > 100 then 100 else q;
    MulLeMono(overflow + 1, p', 100);
    MulLeMono(overflow + 1, q', 100);
    MulLeMono(overflow + 1, p', q');
    DivLeMono((overflow + 1) * p', (overflow + 1) * q', 100);
  }

  /** `limit` recomputes the ceiling from scratch and leaves the resolution alone. */
  lemma LimitOverwrites(d: Driver, overflow: u32, p: u8, q: u8)
    requires d.Bound?
    ensures Limit(Limit(d, overflow, p), overflow, q) == Limit(d, overflow, q)
  {
  }

  /**
   For a 32-bit timer with a long period the product `(overflow + 1) * percent`
   wraps, and `limit(100)` yields far less than the full range.
   */
  lemma LimitWrapsForLongPeriods()
    ensures LimitArr(99_999_999, 100) == 14_100_654
  {
  }

  /**
   After `init` the ceiling is the full timer range, and a full-speed command in
   either direction drives the compare value to overflow + 1.
   */
  lemma InitFullScale(overflow: u32, res: u16)
    requires res > 0
    requires (overflow + 1) * 100 < U32_LIMIT
    requires (overflow + 1) * res < U32_LIMIT
    ensures Init(overflow, res).driver.arr == overflow + 1
    ensures Set(Init(overflow, res).driver, res) == Writes(Low, High, overflow + 1)
    ensures Set(Init(overflow, res).driver, -(res as int)) == Writes(High, Low, overflow + 1)
  {
    MulDivCancel(overflow + 1, 100);
    SetFullSpeedReachesCeiling(Init(overflow, res).driver);
  }

  /** Without a resolution argument, `init` uses 100. */
  lemma InitDefaultResolution(overflow: u32)
    ensures Init(overflow).driver.resolution == 100
    ensures Init(overflow) == Init(overflow, DefaultResolution)
  {
  }

  /**
   Resolution 100, timer overflow 999, limit 50: the ceiling is 500, set(50)
   runs forward at 250, set(-25) in reverse at 125 and ebreak(10) brakes at 50.
   */
  lemma WorkedExample()
    ensures Limit(Init(999).driver, 999, 50) == Bound(500, 100)
    ensures Set(Bound(500, 100), 50) == Writes(Low, High, 250)
    ensures Set(Bound(500, 100), -25) == Writes(High, Low, 125)
    ensures Ebreak(Bound(500, 100), 10) == Writes(High, High, 50)
  {
  }

  /** Every `ebreak` in the calls stays within the resolution. */
  ghost predicate BrakesWithin(calls: seq<Call>, res: int)
  {
    forall i :: 0 <= i < |calls| && calls[i].EbreakCall? ==> calls[i].amount <= res
  }

  /**
   ARR is the largest compare value: starting from a ceiling within the timer
   range, no sequence of `set`, `stop`, in-range `ebreak` and `limit` calls ever
   writes a compare value above overflow + 1.
   */
  lemma {:induction false} RunWithinTimer(d: Driver, overflow: u32, calls: seq<Call>)
    requires d.Bound? && d.resolution > 0 && d.arr <= overflow + 1
    requires BrakesWithin(calls, d.resolution)
    ensures forall i :: 0 <= i < |calls| && Run(d, overflow, calls)[i].Writes? ==>
      Run(d, overflow, calls)[i].compare <= overflow + 1
    decreases |calls|
  {
    if |calls| > 0 {
      var s := Apply(d, overflow, calls[0]);
      assert BrakesWithin(calls[1..], s.driver.resolution) by {
        forall i | 0 <= i < |calls[1..]| && calls[1..][i].EbreakCall?
          ensures calls[1..][i].amount <= s.driver.resolution
        {
          assert calls[1..][i] == calls[i + 1];
        }
      }
      RunWithinTimer(s.driver, overflow, calls[1..]);
      var ws := Run(d, overflow, calls);
      forall i | 0 <= i < |calls| && ws[i].Writes?
        ensures ws[i].compare <= overflow + 1
      {
        if i > 0 {
          assert ws[i] == Run(s.driver, overflow, calls[1..])[i - 1];
        }
      }
    }
  }

  /**
   From `init` on, with the timer's overflow fixed, every compare value written
   by any sequence of calls whose `ebreak` values are within the resolution lies
   in [0, overflow + 1].
   */
  lemma SessionWithinTimer(overflow: u32, res: u16, calls: seq<Call>)
    requires res > 0
    requires BrakesWithin(calls, res)
    ensures forall i :: 0 <= i < |calls| && Run(Init(overflow, res).driver, overflow, calls)[i].Writes? ==>
      Run(Init(overflow, res).driver, overflow, calls)[i].compare <= overflow + 1
  {
    RunWithinTimer(Init(overflow, res).driver, overflow, calls);
  }
}

/** The fixed-point arithmetic of the accelerometer's fast offset compensation (bma4.c): from an averaged reading to the
    three offset register bytes. */
module OffsetCompensation {
  import opened MachineInts
  import opened Quotients

  type int32 = x: int | -0x8000_0000 <= x < 0x8000_0000

  const MULTIPLIER: int := 1000000

  function Pow2(n: nat): (r: nat)
    ensures r > 0
  {
    if n == 0 then 1 else 2 * Pow2(n - 1)
  }

  predicate Supported(range: byte, res: byte) {
    range in {2, 4, 8, 16} && res in {12, 14, 16}
  }

  /** The weight of one offset register step (3.9 mg) relative to the last bit of the data, as a power of two. */
  function BitPosition(range: byte, res: byte): int
    requires Supported(range, res)
  {
    var log := if range == 2 then 1 else if range == 4 then 2 else if range == 8 then 3 else 4;
    res - 9 - log
  }

  lemma PowersOfTwo()
    ensures Pow2(0) == 1 && Pow2(1) == 2 && Pow2(2) == 4 && Pow2(3) == 8 && Pow2(4) == 16 && Pow2(5) == 32
    ensures Pow2(6) == 64 && Pow2(12) == 0x1000 && Pow2(14) == 0x4000 && Pow2(16) == 0x1_0000
  {
    assert Pow2(6) == 64;
    assert Pow2(9) == 512;
    assert Pow2(12) == 0x1000;
    assert Pow2(14) == 0x4000;
  }

  lemma {:induction false} PowerGrows(n: nat, m: nat)
    requires n <= m
    ensures Pow2(n) <= Pow2(m)
    decreases m
  {
    if n < m {
      PowerGrows(n, m - 1);
    }
  }

  method Power(n: nat) returns (value: int32)
    requires n <= 16
    ensures value == Pow2(n)
  {
    value := 1;
    for i := 0 to n
      invariant value == Pow2(i)
    {
      PowerGrows(i, 16);
      PowersOfTwo();
      value := value * 2;
    }
  }

  /** How often a value can be halved before it is one. */
  function Halvings(n: nat): nat
    requires n >= 1
  {
    if n == 1 then 0 else 1 + Halvings(n / 2)
  }

  method Roundoff(value: int32) returns (ret: int)
    requires value >= 0 && value < 12700
    ensures ret == (value + 50) / 100 && -0x80 <= ret < 0x80
  {
    ret := (value + 50) / 100;
  }

  /** The weight of the last data bit in micro-g, and its rounded ratio to the step or the step's to it. */
  function UgPerBit(range: byte, res: byte): int {
    2 * (range as int) * MULTIPLIER / Pow2(res)
  }

  function RatioOf(ug: int): int
    requires ug > 0
  {
    ((if ug > 3900 then ug * 100 / 3900 else 3900 * 100 / ug) + 50) / 100
  }

  lemma HalvingsOfPowers()
    ensures Halvings(1) == 0 && Halvings(2) == 1 && Halvings(4) == 2 && Halvings(8) == 3 && Halvings(16) == 4
    ensures Halvings(32) == 5 && Halvings(64) == 6
  {
    assert Halvings(8) == 3;
    assert Halvings(32) == 5;
  }

  lemma UgPerBitValues(range: byte, res: byte)
    requires Supported(range, res)
    ensures UgPerBit(range, res)
         == match res
            case 12 => (if range == 2 then 976 else if range == 4 then 1953 else if range == 8 then 3906 else 7812)
            case 14 => (if range == 2 then 244 else if range == 4 then 488 else if range == 8 then 976 else 1953)
            case _ => (if range == 2 then 61 else if range == 4 then 122 else if range == 8 then 244 else 488)
  {
    PowersOfTwo();
  }

  lemma RatioIsPowerOfTwo(range: byte, res: byte)
    requires Supported(range, res)
    ensures var ug := UgPerBit(range, res);
            && ug > 0 && 1 <= RatioOf(ug) < 0x80 && ug * 100 / 3900 < 12700 && 390000 / ug < 12700
            && BitPosition(range, res) == if ug > 3900 then -(Halvings(RatioOf(ug)) as int) else Halvings(RatioOf(ug))
  {
    UgPerBitValues(range, res);
    HalvingsOfPowers();
  }

  /** The halving loop ends and finds the bit position, for every range and resolution the driver supports. */
  method GetBitPos(range: byte, res: byte) returns (bitPos: int)
    requires Supported(range, res)
    ensures bitPos == BitPosition(range, res)
  {
    RatioIsPowerOfTwo(range, res);
    var rangeValue := 2 * (range as int) * MULTIPLIER;
    var power := Power(res);
    var ugPerBit := rangeValue / power;
    var value: int;
    if ugPerBit > 3900 {
      value := ugPerBit * 100 / 3900;
    } else {
      value := 3900 * 100 / ugPerBit;
    }
    var round := Roundoff(value);
    var bitCount := 0;
    while round != 1
      invariant round >= 1 && bitCount + Halvings(round) == Halvings(RatioOf(UgPerBit(range, res)))
    {
      round := round / 2;
      bitCount := bitCount + 1;
    }
    if ugPerBit > 3900 {
      bitPos := -bitCount;
    } else {
      bitPos := bitCount;
    }
  }

  /** The magnitude of a deviation, the offset steps it amounts to, and the byte for them, as the driver computes
      them. */
  datatype Delta = Delta(val: int16, negative: bool)

  function DeltaOf(data: int16, target: int): Delta {
    var v := I16(data - I16(target));
    if v < 0 then Delta(I16(-(v as int)), true) else Delta(v, false)
  }

  function ScaledBy(k: int, val: int16): byte {
    if k > 0 then U8(TruncDiv(val + Pow2(k - 1), Pow2(k)))
    else if k < 0 then U8(val * Pow2(-k))
    else U8(val)
  }

  function Normalised(scaled: byte, negative: bool): byte {
    U8(-((if negative then U8(-(scaled as int)) else scaled) as int))
  }

  function OffsetByte(k: int, data: int16, target: int): byte {
    var delta := DeltaOf(data, target);
    Normalised(ScaledBy(k, delta.val), delta.negative)
  }

  /** The acceleration expected at rest, in data units. */
  function Target(lsbPerG: int, g: int32): int {
    TruncDiv(lsbPerG * g, MULTIPLIER)
  }

  /** What is left of a deviation once the sensor adds the offset, read as two's complement: in data units if an offset
      step is worth several of them, and else in offset steps. */
  function Residual(k: int, deviation: int, offset: byte): int {
    if k > 0 then deviation + I8(offset) * Pow2(k) else deviation * Pow2(-k) + I8(offset)
  }

  /** As well as an offset of whole steps can do: half a step, or exactly. */
  predicate Compensated(k: int, deviation: int, offset: byte) {
    var r := Residual(k, deviation, offset);
    if k > 0 then Abs(2 * r) <= Pow2(k) else r == 0
  }

  function Abs(x: int): nat {
    if x < 0 then -x else x
  }

  /** The deviation in offset steps, rounded to the nearest. */
  function Steps(k: int, magnitude: nat): nat {
    if k > 0 then (magnitude + Pow2(k - 1)) / Pow2(k) else magnitude * Pow2(-k)
  }

  /** The steps a signed byte can take away: one more for a positive deviation than for a negative one. */
  predicate StepsFit(k: int, deviation: int) {
    Steps(k, Abs(deviation)) <= if deviation >= 0 then 128 else 127
  }

  predicate InDriver(k: int, target: int) {
    -1 <= k <= 6 && -0x4000 <= target <= 0x4000
  }

  /** The offset that results from this many steps, against a deviation of this size and direction. */
  function StepsTaken(steps: nat, up: bool): int {
    if up then (if steps <= 127 then steps else steps - 256)
    else if steps <= 128 then -(steps as int)
    else 256 - steps
  }

  lemma TakeAway(steps: nat, up: bool)
    requires steps <= 129
    ensures var o := I8(Normalised(U8(steps), up));
            o == StepsTaken(steps, up)
  {
  }

  lemma PowerInDriver(k: int)
    requires -1 <= k <= 6
    ensures k > 0 ==> Pow2(k) == 2 * Pow2(k - 1) <= 64
    ensures k <= 0 ==> 1 <= Pow2(-k) <= 2
  {
    PowersOfTwo();
  }

  lemma DeltaOfSmall(data: int16, target: int)
    requires -0x4000 <= target <= 0x4000 && Abs(data - target) < 0x8000
    ensures DeltaOf(data, target) == Delta(Abs(data - target), data < target)
  {
    assert I16(target) == target;
    assert I16(data - target) == data - target;
  }

  lemma OffsetOfSmall(k: int, data: int16, target: int)
    requires InDriver(k, target) && Abs(data - target) < 0x4000
    ensures OffsetByte(k, data, target) == Normalised(U8(Steps(k, Abs(data - target))), data < target)
  {
    PowerInDriver(k);
    DeltaOfSmall(data, target);
  }

  lemma Rounding(m: nat, h: nat)
    requires h >= 1
    ensures var s := (m + h) / (2 * h); 0 <= s && s * (2 * h) - h <= m < s * (2 * h) + h
  {
  }

  lemma AtMost(a: int, b: int, p: nat)
    requires a <= b
    ensures a * p <= b * p
  {
  }

  /** Any offset is too small for a deviation beyond 129 steps. */
  lemma LargeDeviation(k: int, deviation: int, offset: byte)
    requires -1 <= k <= 6 && Steps(k, Abs(deviation)) > 129
    ensures !Compensated(k, deviation, offset)
  {
    PowerInDriver(k);
    var o := I8(offset);
    if k > 0 {
      var p, h, m, s := Pow2(k), Pow2(k - 1), Abs(deviation), Steps(k, Abs(deviation));
      Rounding(m, h);
      AtMost(130, s, p);
      AtMost(o, 127, p);
      AtMost(-128, o, p);
    }
  }

  lemma RoundedResidue(h: nat, m: nat, s: nat, up: bool)
    requires h >= 1 && s <= 129 && s * (2 * h) - h <= m < s * (2 * h) + h
    ensures Abs(2 * ((if up then -(m as int) else m) + StepsTaken(s, up) * (2 * h))) <= 2 * h
       <==> s <= if up then 127 else 128
  {
    var p, t := 2 * h, s * (2 * h);
    assert (s - 256) * p == t - 256 * p && (256 - s) * p == 256 * p - t && (-(s as int)) * p == -t;
  }

  lemma ByResidue(k: int, deviation: int, b: byte, r: int)
    requires Residual(k, deviation, b) == r
    ensures Compensated(k, deviation, b) <==> if k > 0 then Abs(2 * r) <= Pow2(k) else r == 0
  {
  }

  /** The residue of a known number of steps, when a step is worth several data units. */
  lemma CoarseSteps(k: int, deviation: int, s: nat, b: byte)
    requires 1 <= k <= 6 && s == Steps(k, Abs(deviation)) <= 129 && I8(b) == StepsTaken(s, deviation < 0)
    ensures Compensated(k, deviation, b) <==> StepsFit(k, deviation)
  {
    PowerInDriver(k);
    var h, m := Pow2(k - 1), Abs(deviation);
    Rounding(m, h);
    RoundedResidue(h, m, s, deviation < 0);
    ByResidue(k, deviation, b, deviation + StepsTaken(s, deviation < 0) * (2 * h));
  }

  /** And when it is not. */
  lemma FineSteps(k: int, deviation: int, s: nat, b: byte)
    requires -1 <= k <= 0 && s == Steps(k, Abs(deviation)) <= 129 && I8(b) == StepsTaken(s, deviation < 0)
    ensures Compensated(k, deviation, b) <==> StepsFit(k, deviation)
  {
    PowersOfTwo();
  }

  /** Up to there the byte is known. */
  lemma SmallDeviation(k: int, data: int16, target: int)
    requires InDriver(k, target) && Steps(k, Abs(data - target)) <= 129
    ensures Compensated(k, data - target, OffsetByte(k, data, target)) <==> StepsFit(k, data - target)
  {
    var s, b := Steps(k, Abs(data - target)), OffsetByte(k, data, target);
    SmallEnough(k, Abs(data - target));
    OffsetOfSmall(k, data, target);
    TakeAway(s, data < target);
    if k > 0 {
      CoarseSteps(k, data - target, s, b);
    } else {
      FineSteps(k, data - target, s, b);
    }
  }

  lemma SmallEnough(k: int, m: nat)
    requires -1 <= k <= 6 && Steps(k, m) <= 129
    ensures m < 0x4000
  {
    PowerInDriver(k);
    if k > 0 {
      Rounding(m, Pow2(k - 1));
      AtMost(Steps(k, m), 129, Pow2(k));
    }
  }

  /** The offset found removes the deviation as well as whole steps can, exactly when the deviation in steps fits the
      signed byte. */
  lemma CompensatedIff(k: int, data: int16, target: int)
    requires InDriver(k, target)
    ensures Compensated(k, data - target, OffsetByte(k, data, target)) <==> StepsFit(k, data - target)
  {
    if Steps(k, Abs(data - target)) > 129 {
      LargeDeviation(k, data - target, OffsetByte(k, data, target));
    } else {
      SmallDeviation(k, data, target);
    }
  }

  datatype Xyz<T> = Xyz(x: T, y: T, z: T)

  /** The deviation of one axis, as a magnitude and a sign. */
  method CompAxis(lsbPerG: uint16, g: int32, data: int16) returns (delta: Delta)
    ensures delta == DeltaOf(data, Target(lsbPerG, g))
  {
    var value := lsbPerG * g;
    delta := Delta(I16(data - I16(TruncDiv(value, MULTIPLIER))), false);
    if delta.val < 0 {
      delta := Delta(I16(-(delta.val as int)), true);
    }
  }

  method CompForGravity(lsbPerG: uint16, gVal: Xyz<int32>, data: Xyz<int16>) returns (delta: Xyz<Delta>)
    ensures delta.x == DeltaOf(data.x, Target(lsbPerG, gVal.x))
    ensures delta.y == DeltaOf(data.y, Target(lsbPerG, gVal.y))
    ensures delta.z == DeltaOf(data.z, Target(lsbPerG, gVal.z))
  {
    var x := CompAxis(lsbPerG, gVal.x, data.x);
    var y := CompAxis(lsbPerG, gVal.y, data.y);
    var z := CompAxis(lsbPerG, gVal.z, data.z);
    delta := Xyz(x, y, z);
  }

  /** Scaled to offset steps. */
  method ScaleOffset(res: byte, range: byte, delta: Xyz<Delta>) returns (data: Xyz<byte>)
    requires Supported(range, res)
    ensures var k := BitPosition(range, res);
            data == Xyz(ScaledBy(k, delta.x.val), ScaledBy(k, delta.y.val), ScaledBy(k, delta.z.val))
  {
    var bitPos := GetBitPos(range, res);
    if bitPos > 0 {
      var roundOff := Power(bitPos - 1);
      var step := Power(bitPos);
      data := Xyz(U8(TruncDiv(delta.x.val + roundOff, step)), U8(TruncDiv(delta.y.val + roundOff, step)),
                  U8(TruncDiv(delta.z.val + roundOff, step)));
    } else if bitPos < 0 {
      bitPos := -bitPos;
      var step := Power(bitPos);
      data := Xyz(U8(delta.x.val * step), U8(delta.y.val * step), U8(delta.z.val * step));
    } else {
      data := Xyz(U8(delta.x.val), U8(delta.y.val), U8(delta.z.val));
    }
  }

  /** The sign turned around in two's complement, once for a negative deviation and once more in any case. */
  method NormaliseAxis(negative: bool, scaled: byte) returns (offset: byte)
    ensures offset == Normalised(scaled, negative)
  {
    offset := scaled;
    if negative {
      offset := 0xFF - offset;
      offset := U8(offset + 1);
    }
    offset := U8(offset * -1);
  }

  method NormaliseOffset(delta: Xyz<Delta>, scaled: Xyz<byte>) returns (offset: Xyz<byte>)
    ensures offset.x == Normalised(scaled.x, delta.x.negative)
    ensures offset.y == Normalised(scaled.y, delta.y.negative)
    ensures offset.z == Normalised(scaled.z, delta.z.negative)
  {
    var x := NormaliseAxis(delta.x.negative, scaled.x);
    var y := NormaliseAxis(delta.y.negative, scaled.y);
    var z := NormaliseAxis(delta.z.negative, scaled.z);
    offset := Xyz(x, y, z);
  }

  /** The expectation the driver accepts: at most one g either way on every axis, in millionths. */
  predicate GValid(g: Xyz<int32>) {
    && -MULTIPLIER <= g.x <= MULTIPLIER && -MULTIPLIER <= g.y <= MULTIPLIER && -MULTIPLIER <= g.z <= MULTIPLIER
  }

  /** Data units per g. */
  function LsbPerG(range: byte, res: byte): int
    requires Supported(range, res)
  {
    Pow2(res) / (2 * range)
  }

  lemma TargetInDriver(range: byte, res: byte, g: int32)
    requires Supported(range, res) && -MULTIPLIER <= g <= MULTIPLIER
    ensures 0 < LsbPerG(range, res) <= 0x4000
    ensures InDriver(BitPosition(range, res), Target(LsbPerG(range, res), g))
  {
    PowersOfTwo();
    var n := LsbPerG(range, res);
    assert 0 < n <= 0x4000;
    assert -n * MULTIPLIER <= n * g <= n * MULTIPLIER by {
      AtMost(g, MULTIPLIER, n);
      AtMost(-MULTIPLIER, g, n);
    }
  }

  /** The reading that stands for an acceleration of g millionths, when the range of the sensor fills half of the
      resolution. */
  function ExpectedReading(range: byte, res: byte, g: int32): int
    requires Supported(range, res)
  {
    TruncDiv(g * Pow2(res - 1), range * MULTIPLIER)
  }

  lemma CancelFactor(m: int, factor: byte)
    requires factor in {2, 4, 8, 16}
    ensures TruncDiv(m * factor, factor * MULTIPLIER) == TruncDiv(m, MULTIPLIER)
  {
  }

  lemma Rearranged(a: int, n: int, h: int, factor: int)
    requires n * factor == h
    ensures a * h == n * a * factor
  {
  }

  lemma HalfRange(n: int, range: byte, res: byte)
    requires res >= 1 && n * (2 * range) == Pow2(res)
    ensures n * range == Pow2(res - 1)
  {
    assert n * (2 * range) == 2 * (n * range);
  }

  /** The driver's target is that reading. */
  lemma TargetIsExpected(range: byte, res: byte, g: int32)
    requires Supported(range, res)
    ensures Target(LsbPerG(range, res), g) == ExpectedReading(range, res, g)
  {
    PowersOfTwo();
    var n := LsbPerG(range, res);
    HalfRange(n, range, res);
    Rearranged(g, n, Pow2(res - 1), range);
    CancelFactor(n * g, range);
  }

  /** One axis is compensated by this offset exactly when its deviation fits. */
  predicate CompensatedIfFits(range: byte, res: byte, data: int16, g: int32, offset: byte)
    requires Supported(range, res)
  {
    var k, deviation := BitPosition(range, res), data - ExpectedReading(range, res, g);
    Compensated(k, deviation, offset) <==> StepsFit(k, deviation)
  }

  lemma AxisIsCompensated(range: byte, res: byte, data: int16, g: int32)
    requires Supported(range, res) && -MULTIPLIER <= g <= MULTIPLIER
    ensures var k, target := BitPosition(range, res), Target(LsbPerG(range, res), g);
            CompensatedIfFits(range, res, data, g, OffsetByte(k, data, target))
  {
    TargetInDriver(range, res, g);
    TargetIsExpected(range, res, g);
    CompensatedIff(BitPosition(range, res), data, Target(LsbPerG(range, res), g));
  }

  /** A reading that is already as expected needs no offset, and gets none. */
  lemma PerfectReading(range: byte, res: byte, data: int16, g: int32, offset: byte)
    requires Supported(range, res) && data == ExpectedReading(range, res, g)
    requires CompensatedIfFits(range, res, data, g, offset)
    ensures offset == 0
  {
    PowersOfTwo();
    var k := BitPosition(range, res);
    assert Steps(k, 0) == 0;
    if k > 0 {
      var o, p := I8(offset), Pow2(k);
      if o >= 1 {
        MultipleAtLeast(o, p);
      } else if o <= -1 {
        MultipleAtLeast(-o, p);
      }
    }
  }

  /** From the averaged reading to the three offset bytes. */
  method PerformFoc(range: byte, res: byte, data: Xyz<int16>, g: Xyz<int32>) returns (offset: Xyz<byte>)
    requires Supported(range, res) && GValid(g)
    ensures CompensatedIfFits(range, res, data.x, g.x, offset.x)
    ensures CompensatedIfFits(range, res, data.y, g.y, offset.y)
    ensures CompensatedIfFits(range, res, data.z, g.z, offset.z)
  {
    TargetInDriver(range, res, g.x);
    var power := Power(res);
    var lsbPerG := power / (2 * range);
    var delta := CompForGravity(lsbPerG, g, data);
    var scaled := ScaleOffset(res, range, delta);
    offset := NormaliseOffset(delta, scaled);
    AxisIsCompensated(range, res, data.x, g.x);
    AxisIsCompensated(range, res, data.y, g.y);
    AxisIsCompensated(range, res, data.z, g.z);
  }
}

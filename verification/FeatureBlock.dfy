/** The 64-byte feature-configuration block of the sensor (bma456.c): where its fields live, what each setter of the
    driver does to its bytes, and the record the block stands for. Bytes are bit-vectors here, with the driver's own
    masks and shifts. */
module FeatureBlock {

  const FEATURE_SIZE: nat := 64

  type Block = b: seq<bv8> | |b| == FEATURE_SIZE witness seq(FEATURE_SIZE, _ => 0)

  const PARAMETERS: nat := 25

  type Parameters = p: seq<bv16> | |p| == PARAMETERS witness seq(PARAMETERS, _ => 0)

  const STEP_CNTR: bv8 := 0x01
  const ANY_MOTION: bv8 := 0x02
  const NO_MOTION: bv8 := 0x04
  const ACTIVITY: bv8 := 0x08
  const WRIST_TILT: bv8 := 0x10
  const WAKEUP: bv8 := 0x20

  function GetSlice(b: bv8, pos: bv3, mask: bv8): bv8 {
    (b & mask) >> pos
  }

  function SetSlice(b: bv8, pos: bv3, mask: bv8, v: bv8): bv8 {
    (b & !mask) | ((v << pos) & mask)
  }

  function Word(lsb: bv8, msb: bv8): bv16 {
    (lsb as bv16) | ((msb as bv16) << 8)
  }

  function Lsb(w: bv16): bv8 {
    (w & 0xFF) as bv8
  }

  function Msb(w: bv16): bv8 {
    ((w & 0xFF00) >> 8) as bv8
  }

  function SetLow(w: bv16, mask: bv16, v: bv16): bv16 {
    (w & !mask) | (v & mask)
  }

  datatype Remap = Remap(x: bv8, xSign: bv8, y: bv8, ySign: bv8, z: bv8, zSign: bv8)

  /** The setters of the driver, with their arguments. */
  datatype Op =
    | SetAnyMotion(threshold: bv16, nomotion: bv8, duration: bv16)
    | EnableAxes(axes: bv8)
    | SetRemap(remap: Remap)
    | SetWatermark(watermark: bv16)
    | ResetStepCounter
    | StepDetector(on: bv8)
    | SetParameters(params: Parameters)
    | SetSensitivity(sensitivity: bv8)
    | SelectTap(tap: bv8)
    | SetFeature(feature: bv8, enable: bv8)

  predicate Selects(feature: bv8, bit: bv8) {
    feature & bit > 0
  }

  predicate SelectsMotion(feature: bv8) {
    Selects(feature, ANY_MOTION) || Selects(feature, NO_MOTION)
  }

  /** When only any-motion or only no-motion is named the driver transfers a few bytes of the block. */
  predicate MotionOnly(feature: bv8) {
    feature == ANY_MOTION || feature == NO_MOTION
  }

  function FeatureLength(feature: bv8, enable: bv8): nat {
    if MotionOnly(feature) then (if enable == 0 then 4 else 2) else FEATURE_SIZE
  }

  /** The number of bytes a setter reads and writes back. */
  function TransferLength(op: Op): nat {
    if op.SetAnyMotion? || op.EnableAxes? then 4
    else if op.SetFeature? then FeatureLength(op.feature, op.enable)
    else FEATURE_SIZE
  }

  /** One bit turned on or off by an or-mask or an and-mask. */
  function SetBit(b: bv8, mask: bv8, on: bool): bv8 {
    if on then b | mask else b & !mask
  }

  function StepByte(b: bv8, feature: bv8, on: bool): bv8 {
    var c := if Selects(feature, STEP_CNTR) then SetBit(b, 0x10, on) else b;
    if Selects(feature, ACTIVITY) then SetBit(c, 0x20, on) else c
  }

  /** The any-motion and no-motion features share one selection bit. */
  function SelectionByte(b: bv8, feature: bv8, on: bool): bv8 {
    if Selects(feature, ANY_MOTION) then SetBit(b, 0x08, !on)
    else if Selects(feature, NO_MOTION) then SetBit(b, 0x08, on)
    else b
  }

  /** Disabling motion detection clears its axes, provided the byte that holds them is written back. */
  predicate ClearsAxes(feature: bv8, enable: bv8) {
    SelectsMotion(feature) && enable != 1 && FeatureLength(feature, enable) > 3
  }

  function ParameterByte(params: Parameters, k: nat): bv8
    requires k < 2 * PARAMETERS
  {
    if k % 2 == 0 then Lsb(params[k / 2]) else Msb(params[k / 2])
  }

  function WithParameters(b: Block, params: Parameters): Block {
    seq(FEATURE_SIZE, k requires 0 <= k < FEATURE_SIZE => if 4 <= k < 54 then ParameterByte(params, k - 4) else b[k])
  }

  function WithAnyMotion(b: Block, threshold: bv16, nomotion: bv8, duration: bv16): Block {
    var d := SetLow(Word(b[2], b[3]), 0x1FFF, duration);
    b[0 := Lsb(threshold)][1 := Msb(threshold) | (nomotion << 3)][2 := Lsb(d)][3 := Msb(d)]
  }

  function RemapByte(r: Remap): bv8 {
    (r.x & 0x03) | ((r.xSign << 2) & 0x04) | ((r.y << 3) & 0x18) | ((r.ySign << 5) & 0x20) | ((r.z << 6) & 0xC0)
  }

  function WithWatermark(b: Block, watermark: bv16): Block {
    var d := SetLow(Word(b[54], b[55]), 0x03FF, watermark);
    b[54 := Lsb(d)][55 := Msb(d)]
  }

  function WithFeature(b: Block, feature: bv8, enable: bv8): Block {
    var on := enable == 1;
    b[1 := SelectionByte(b[1], feature, on)]
     [3 := if ClearsAxes(feature, enable) then b[3] & !0xE0 else b[3]]
     [55 := StepByte(b[55], feature, on)]
     [56 := if Selects(feature, WAKEUP) then SetBit(b[56], 0x01, on) else b[56]]
     [58 := if Selects(feature, WRIST_TILT) then SetBit(b[58], 0x01, on) else b[58]]
  }

  /** What a setter does to the block. */
  function Apply(b: Block, op: Op): Block {
    match op
    case SetAnyMotion(threshold, nomotion, duration) => WithAnyMotion(b, threshold, nomotion, duration)
    case EnableAxes(axes) => b[3 := SetSlice(b[3], 5, 0xE0, axes)]
    case SetRemap(r) => b[62 := RemapByte(r)][63 := r.zSign & 0x01]
    case SetWatermark(watermark) => WithWatermark(b, watermark)
    case ResetStepCounter => b[55 := SetSlice(b[55], 2, 0x04, 1)]
    case StepDetector(on) => b[55 := SetSlice(b[55], 3, 0x08, on)]
    case SetParameters(params) => WithParameters(b, params)
    case SetSensitivity(sensitivity) => b[56 := SetSlice(b[56], 1, 0x0E, sensitivity)]
    case SelectTap(tap) => b[56 := SetSlice(b[56], 4, 0x10, tap)]
    case SetFeature(feature, enable) => WithFeature(b, feature, enable)
  }

  /** The record the block stands for, field by field as the driver's getters decode it. */
  datatype Motion = Motion(threshold: bv16, nomotion: bv8, duration: bv16, axes: bv8)

  datatype Steps = Steps(watermark: bv16, reset: bv8, detector: bv8, counter: bv8, activity: bv8)

  datatype Wakeup = Wakeup(on: bv8, sensitivity: bv8, tap: bv8)

  datatype Features = Features(motion: Motion, params: Parameters, steps: Steps, wakeup: Wakeup, tilt: bv8,
                               configId: bv16, remap: Remap)

  function DurationOf(b2: bv8, b3: bv8): bv16 {
    Word(b2, b3) & 0x1FFF
  }

  function MotionOf(b0: bv8, b1: bv8, b2: bv8, b3: bv8): Motion {
    Motion(Word(b0, b1) & 0x07FF, (((Word(b0, b1) >> 8) as bv8) & 0x08) >> 3, DurationOf(b2, b3),
           GetSlice(b3, 5, 0xE0))
  }

  function ParamsOf(b: Block): Parameters {
    seq(PARAMETERS, k requires 0 <= k < PARAMETERS => Word(b[4 + 2 * k], b[5 + 2 * k]))
  }

  function StepsOf(b54: bv8, b55: bv8): Steps {
    Steps(Word(b54, b55) & 0x03FF, GetSlice(b55, 2, 0x04), GetSlice(b55, 3, 0x08), GetSlice(b55, 4, 0x10),
          GetSlice(b55, 5, 0x20))
  }

  function WakeupOf(b56: bv8): Wakeup {
    Wakeup(b56 & 0x01, GetSlice(b56, 1, 0x0E), GetSlice(b56, 4, 0x10))
  }

  function RemapOf(b62: bv8, b63: bv8): Remap {
    Remap(b62 & 0x03, GetSlice(b62, 2, 0x04), GetSlice(b62, 3, 0x18), GetSlice(b62, 5, 0x20), GetSlice(b62, 6, 0xC0),
          b63 & 0x01)
  }

  function Abs(b: Block): Features {
    Features(MotionOf(b[0], b[1], b[2], b[3]), ParamsOf(b), StepsOf(b[54], b[55]), WakeupOf(b[56]), b[58] & 0x01,
             Word(b[60], b[61]), RemapOf(b[62], b[63]))
  }

  /** The arguments the fields have room for. */
  predicate InRange(op: Op) {
    match op
    case SetAnyMotion(threshold, nomotion, duration) => threshold < 0x800 && nomotion < 2 && duration < 0x2000
    case EnableAxes(axes) => axes < 8
    case SetRemap(r) => r.x < 4 && r.xSign < 2 && r.y < 4 && r.ySign < 2 && r.z < 4 && r.zSign < 2
    case SetWatermark(watermark) => watermark < 0x400
    case ResetStepCounter => true
    case StepDetector(on) => on < 2
    case SetParameters(_) => true
    case SetSensitivity(sensitivity) => sensitivity < 8
    case SelectTap(tap) => tap < 2
    case SetFeature(_, _) => true
  }

  /** What a setter means: it replaces its own fields and nothing else. */
  function Meaning(f: Features, op: Op): Features {
    match op
    case SetAnyMotion(threshold, nomotion, duration) =>
      f.(motion := Motion(threshold, nomotion, duration, f.motion.axes))
    case EnableAxes(axes) => f.(motion := f.motion.(axes := axes))
    case SetRemap(r) => f.(remap := r)
    case SetWatermark(watermark) => f.(steps := f.steps.(watermark := watermark))
    case ResetStepCounter => f.(steps := f.steps.(reset := 1))
    case StepDetector(on) => f.(steps := f.steps.(detector := on))
    case SetParameters(params) => f.(params := params)
    case SetSensitivity(sensitivity) => f.(wakeup := f.wakeup.(sensitivity := sensitivity))
    case SelectTap(tap) => f.(wakeup := f.wakeup.(tap := tap))
    case SetFeature(feature, enable) => FeatureMeaning(f, feature, enable)
  }

  function FeatureMeaning(f: Features, feature: bv8, enable: bv8): Features {
    var on: bv8 := if enable == 1 then 1 else 0;
    f.(motion := f.motion.(nomotion := if Selects(feature, ANY_MOTION) then 1 - on
                                       else if Selects(feature, NO_MOTION) then on
                                       else f.motion.nomotion,
                           axes := if ClearsAxes(feature, enable) then 0 else f.motion.axes),
       steps := f.steps.(counter := if Selects(feature, STEP_CNTR) then on else f.steps.counter,
                         activity := if Selects(feature, ACTIVITY) then on else f.steps.activity),
       wakeup := f.wakeup.(on := if Selects(feature, WAKEUP) then on else f.wakeup.on),
       tilt := if Selects(feature, WRIST_TILT) then on else f.tilt)
  }

  /** The byte-level facts behind the refinement, one per group of fields. */
  lemma AnyMotionBytes(b2: bv8, b3: bv8, threshold: bv16, nomotion: bv8, duration: bv16)
    requires threshold < 0x800 && nomotion < 2 && duration < 0x2000
    ensures var d := SetLow(Word(b2, b3), 0x1FFF, duration);
            MotionOf(Lsb(threshold), Msb(threshold) | (nomotion << 3), Lsb(d), Msb(d)) ==
              Motion(threshold, nomotion, duration, GetSlice(b3, 5, 0xE0))
  {
  }

  lemma AxesBits(b2: bv8, b3: bv8, axes: bv8)
    requires axes < 8
    ensures var b := SetSlice(b3, 5, 0xE0, axes);
            GetSlice(b, 5, 0xE0) == axes && DurationOf(b2, b) == DurationOf(b2, b3)
  {
  }

  lemma AxesByte(b0: bv8, b1: bv8, b2: bv8, b3: bv8, axes: bv8)
    requires axes < 8
    ensures MotionOf(b0, b1, b2, SetSlice(b3, 5, 0xE0, axes)) == MotionOf(b0, b1, b2, b3).(axes := axes)
  {
    AxesBits(b2, b3, axes);
  }

  lemma RemapBytes(r: Remap)
    requires InRange(SetRemap(r))
    ensures RemapOf(RemapByte(r), r.zSign & 0x01) == r
  {
  }

  lemma WatermarkBytes(b54: bv8, b55: bv8, watermark: bv16)
    requires watermark < 0x400
    ensures var d := SetLow(Word(b54, b55), 0x03FF, watermark);
            StepsOf(Lsb(d), Msb(d)) == StepsOf(b54, b55).(watermark := watermark)
  {
  }

  lemma StepBits(b54: bv8, b55: bv8, on: bv8)
    requires on < 2
    ensures StepsOf(b54, SetSlice(b55, 2, 0x04, on)) == StepsOf(b54, b55).(reset := on)
    ensures StepsOf(b54, SetSlice(b55, 3, 0x08, on)) == StepsOf(b54, b55).(detector := on)
  {
  }

  lemma WakeupBits(b: bv8, sensitivity: bv8, tap: bv8)
    ensures sensitivity < 8 ==>
              WakeupOf(SetSlice(b, 1, 0x0E, sensitivity)) == WakeupOf(b).(sensitivity := sensitivity)
    ensures tap < 2 ==> WakeupOf(SetSlice(b, 4, 0x10, tap)) == WakeupOf(b).(tap := tap)
  {
  }

  lemma ParameterBytes(b: Block, params: Parameters)
    ensures ParamsOf(WithParameters(b, params)) == params
  {
    forall k | 0 <= k < PARAMETERS
      ensures ParamsOf(WithParameters(b, params))[k] == params[k]
    {
      ParameterWord(params, k);
    }
  }

  lemma ParameterWord(params: Parameters, k: nat)
    requires k < PARAMETERS
    ensures Word(ParameterByte(params, 2 * k), ParameterByte(params, 2 * k + 1)) == params[k]
  {
  }

  lemma SelectionBit(b0: bv8, b1: bv8, b2: bv8, b3: bv8, on: bool)
    ensures MotionOf(b0, SetBit(b1, 0x08, on), b2, b3) == MotionOf(b0, b1, b2, b3).(nomotion := if on then 1 else 0)
  {
  }

  lemma ClearedAxes(b0: bv8, b1: bv8, b2: bv8, b3: bv8)
    ensures MotionOf(b0, b1, b2, b3 & !0xE0) == MotionOf(b0, b1, b2, b3).(axes := 0)
  {
  }

  lemma StepFeatureByte(b54: bv8, b55: bv8, feature: bv8, on: bool)
    ensures var s := StepsOf(b54, b55);
            StepsOf(b54, StepByte(b55, feature, on)) ==
              s.(counter := if Selects(feature, STEP_CNTR) then (if on then 1 else 0) else s.counter,
                 activity := if Selects(feature, ACTIVITY) then (if on then 1 else 0) else s.activity)
  {
  }

  lemma SwitchBit(b: bv8, on: bool)
    ensures SetBit(b, 0x01, on) & 0x01 == if on then 1 else 0
    ensures WakeupOf(SetBit(b, 0x01, on)) == WakeupOf(b).(on := if on then 1 else 0)
  {
  }

  /** The bytes of the block after a feature was switched, and the parameters it leaves alone. */
  lemma SetFeatureBytes(b: Block, feature: bv8, enable: bv8)
    ensures var r, on := WithFeature(b, feature, enable), enable == 1;
            && r[0] == b[0] && r[1] == SelectionByte(b[1], feature, on) && r[2] == b[2]
            && r[3] == (if ClearsAxes(feature, enable) then b[3] & !0xE0 else b[3])
            && r[54] == b[54] && r[55] == StepByte(b[55], feature, on)
            && r[56] == (if Selects(feature, WAKEUP) then SetBit(b[56], 0x01, on) else b[56])
            && r[58] == (if Selects(feature, WRIST_TILT) then SetBit(b[58], 0x01, on) else b[58])
            && r[60] == b[60] && r[61] == b[61] && r[62] == b[62] && r[63] == b[63]
            && ParamsOf(r) == ParamsOf(b)
  {
  }

  lemma SetFeatureRefines(b: Block, feature: bv8, enable: bv8)
    ensures Abs(WithFeature(b, feature, enable)) == FeatureMeaning(Abs(b), feature, enable)
  {
    SetFeatureBytes(b, feature, enable);
    SelectionBit(b[0], b[1], b[2], b[3], true);
    SelectionBit(b[0], b[1], b[2], b[3], false);
    ClearedAxes(b[0], SelectionByte(b[1], feature, enable == 1), b[2], b[3]);
    StepFeatureByte(b[54], b[55], feature, enable == 1);
    SwitchBit(b[56], enable == 1);
    SwitchBit(b[58], enable == 1);
  }

  /** Which bit of the mask stands for which feature, and that a feature that is not named stays as it is. */
  lemma FeatureMaskBits(b: Block, feature: bv8, enable: bv8)
    ensures var f, g := Abs(b), Abs(Apply(b, SetFeature(feature, enable)));
            var on: bv8 := if enable == 1 then 1 else 0;
            && g.steps.counter == (if feature & 0x01 > 0 then on else f.steps.counter)
            && g.steps.activity == (if feature & 0x08 > 0 then on else f.steps.activity)
            && g.tilt == (if feature & 0x10 > 0 then on else f.tilt)
            && g.wakeup.on == (if feature & 0x20 > 0 then on else f.wakeup.on)
            && g.motion.nomotion == (if feature & 0x02 > 0 then 1 - on
                                     else if feature & 0x04 > 0 then on
                                     else f.motion.nomotion)
  {
    SetFeatureRefines(b, feature, enable);
  }

  /** Switching any-motion or no-motion off clears its axes, and switching it on leaves them. A value that is neither
      clears them too, unless the mask names just one of the two: then the byte that holds them is not transferred. */
  lemma MotionSwitchAndAxes(b: Block, feature: bv8, enable: bv8)
    requires feature & 0x02 > 0 || feature & 0x04 > 0
    ensures var axes, before := Abs(Apply(b, SetFeature(feature, enable))).motion.axes, Abs(b).motion.axes;
            && (enable == 0 ==> axes == 0)
            && (enable == 1 ==> axes == before)
            && (enable > 1 ==> axes == if feature == 0x02 || feature == 0x04 then before else 0)
  {
    SetFeatureRefines(b, feature, enable);
  }

  /** The refinement: whatever a setter does to the bytes, on the record it replaces exactly its own fields. */
  lemma SetterRefines(b: Block, op: Op)
    requires InRange(op)
    ensures Abs(Apply(b, op)) == Meaning(Abs(b), op)
  {
    match op
    case SetAnyMotion(threshold, nomotion, duration) =>
      AnyMotionBytes(b[2], b[3], threshold, nomotion, duration);
      assert ParamsOf(Apply(b, op)) == ParamsOf(b);
    case EnableAxes(axes) =>
      AxesByte(b[0], b[1], b[2], b[3], axes);
      assert ParamsOf(Apply(b, op)) == ParamsOf(b);
    case SetRemap(r) =>
      RemapBytes(r);
      assert ParamsOf(Apply(b, op)) == ParamsOf(b);
    case SetWatermark(watermark) =>
      WatermarkBytes(b[54], b[55], watermark);
      assert ParamsOf(Apply(b, op)) == ParamsOf(b);
    case ResetStepCounter =>
      StepBits(b[54], b[55], 1);
      assert ParamsOf(Apply(b, op)) == ParamsOf(b);
    case StepDetector(on) =>
      StepBits(b[54], b[55], on);
      assert ParamsOf(Apply(b, op)) == ParamsOf(b);
    case SetParameters(params) => ParameterBytes(b, params);
    case SetSensitivity(sensitivity) =>
      WakeupBits(b[56], sensitivity, 0);
      assert ParamsOf(Apply(b, op)) == ParamsOf(b);
    case SelectTap(tap) =>
      WakeupBits(b[56], 0, tap);
      assert ParamsOf(Apply(b, op)) == ParamsOf(b);
    case SetFeature(feature, enable) => SetFeatureRefines(b, feature, enable);
  }

  function ApplyAll(b: Block, ops: seq<Op>): Block {
    if ops == [] then b else Apply(ApplyAll(b, ops[..|ops| - 1]), ops[|ops| - 1])
  }

  function MeaningAll(f: Features, ops: seq<Op>): Features {
    if ops == [] then f else Meaning(MeaningAll(f, ops[..|ops| - 1]), ops[|ops| - 1])
  }

  /** The same over any run of setters. */
  lemma {:induction false} RunRefines(b: Block, ops: seq<Op>)
    requires forall k :: 0 <= k < |ops| ==> InRange(ops[k])
    ensures Abs(ApplyAll(b, ops)) == MeaningAll(Abs(b), ops)
    decreases |ops|
  {
    if ops != [] {
      RunRefines(b, ops[..|ops| - 1]);
      SetterRefines(ApplyAll(b, ops[..|ops| - 1]), ops[|ops| - 1]);
    }
  }

  /** The fields of the record. The configuration identifier has no setter. */
  datatype Field =
    | FThreshold | FNomotion | FDuration | FAxes | FParameters | FWatermark | FReset | FDetector | FCounter | FActivity
    | FWakeup | FSensitivity | FTap | FTilt | FConfigId | FRemap

  datatype Value = VWord(w: bv16) | VByte(b: bv8) | VRemap(r: Remap) | VParameters(p: Parameters)

  function Get(f: Features, field: Field): Value {
    match field
    case FThreshold => VWord(f.motion.threshold)
    case FNomotion => VByte(f.motion.nomotion)
    case FDuration => VWord(f.motion.duration)
    case FAxes => VByte(f.motion.axes)
    case FParameters => VParameters(f.params)
    case FWatermark => VWord(f.steps.watermark)
    case FReset => VByte(f.steps.reset)
    case FDetector => VByte(f.steps.detector)
    case FCounter => VByte(f.steps.counter)
    case FActivity => VByte(f.steps.activity)
    case FWakeup => VByte(f.wakeup.on)
    case FSensitivity => VByte(f.wakeup.sensitivity)
    case FTap => VByte(f.wakeup.tap)
    case FTilt => VByte(f.tilt)
    case FConfigId => VWord(f.configId)
    case FRemap => VRemap(f.remap)
  }

  /** Which setters a field has, and the value each leaves in it. */
  predicate Sets(op: Op, field: Field) {
    match field
    case FThreshold => op.SetAnyMotion?
    case FNomotion => op.SetAnyMotion? || (op.SetFeature? && SelectsMotion(op.feature))
    case FDuration => op.SetAnyMotion?
    case FAxes => op.EnableAxes? || (op.SetFeature? && ClearsAxes(op.feature, op.enable))
    case FParameters => op.SetParameters?
    case FWatermark => op.SetWatermark?
    case FReset => op.ResetStepCounter?
    case FDetector => op.StepDetector?
    case FCounter => op.SetFeature? && Selects(op.feature, STEP_CNTR)
    case FActivity => op.SetFeature? && Selects(op.feature, ACTIVITY)
    case FWakeup => op.SetFeature? && Selects(op.feature, WAKEUP)
    case FSensitivity => op.SetSensitivity?
    case FTap => op.SelectTap?
    case FTilt => op.SetFeature? && Selects(op.feature, WRIST_TILT)
    case FConfigId => false
    case FRemap => op.SetRemap?
  }

  /** A feature switch turns its bit on for the enable value 1 and off for any other; the selection bit means no-motion,
      so switching any-motion inverts it. */
  function Switched(op: Op): bv8
    requires op.SetFeature?
  {
    if op.enable == 1 then 1 else 0
  }

  function Given(op: Op, field: Field): Value
    requires Sets(op, field)
  {
    match field
    case FThreshold => VWord(op.threshold)
    case FNomotion =>
      VByte(if op.SetAnyMotion? then op.nomotion
            else if Selects(op.feature, ANY_MOTION) then 1 - Switched(op)
            else Switched(op))
    case FDuration => VWord(op.duration)
    case FAxes => VByte(if op.EnableAxes? then op.axes else 0)
    case FParameters => VParameters(op.params)
    case FWatermark => VWord(op.watermark)
    case FReset => VByte(1)
    case FDetector => VByte(op.on)
    case FCounter | FActivity | FWakeup | FTilt => VByte(Switched(op))
    case FSensitivity => VByte(op.sensitivity)
    case FTap => VByte(op.tap)
    case FRemap => VRemap(op.remap)
  }

  lemma SetsItsFields(f: Features, op: Op, field: Field)
    ensures Get(Meaning(f, op), field) == if Sets(op, field) then Given(op, field) else Get(f, field)
  {
  }

  /** After any run every field reads back the value last set through one of its own setters, whatever other setters ran
      since; and what it was before the run if none of its own setters ran. */
  lemma {:induction false} LastSetWins(b: Block, ops: seq<Op>, field: Field, last: int)
    requires forall k :: 0 <= k < |ops| ==> InRange(ops[k])
    requires -1 <= last < |ops| && (last >= 0 ==> Sets(ops[last], field))
    requires forall k :: last < k < |ops| ==> !Sets(ops[k], field)
    ensures Get(Abs(ApplyAll(b, ops)), field) == if last >= 0 then Given(ops[last], field) else Get(Abs(b), field)
    decreases |ops|
  {
    if ops != [] {
      var init, op := ops[..|ops| - 1], ops[|ops| - 1];
      SetterRefines(ApplyAll(b, init), op);
      SetsItsFields(Abs(ApplyAll(b, init)), op, field);
      if last < |ops| - 1 {
        LastSetWins(b, init, field, last);
      }
    }
  }

  lemma SelectionOf(lsb: bv8, msb: bv8)
    ensures MotionOf(lsb, msb, 0, 0).nomotion == (msb & 0x08) >> 3
  {
  }

  lemma SpillsOver(threshold: bv16, nomotion: bv8)
    requires nomotion < 2
    ensures Msb(threshold) & 0x08 == 0 <==> threshold & 0x0800 == 0
    ensures ((Msb(threshold) | (nomotion << 3)) & 0x08) >> 3 == nomotion
       <==> Msb(threshold) & 0x08 == 0 || nomotion == 1
  {
  }

  /** Out of range: bit 11 of the threshold spills into the selection bit that the same setter writes, so the
      selection is stored as given if and only if that bit is clear or the selection is one anyway. */
  lemma SelectionStoredIff(b: Block, threshold: bv16, nomotion: bv8, duration: bv16)
    requires nomotion < 2
    ensures Abs(Apply(b, SetAnyMotion(threshold, nomotion, duration))).motion.nomotion == nomotion
       <==> threshold & 0x0800 == 0 || nomotion == 1
  {
    SelectionOf(Lsb(threshold), Msb(threshold) | (nomotion << 3));
    SpillsOver(threshold, nomotion);
  }

  /** A setter changes only bytes it transfers. */
  lemma OnlyTransferredBytesChange(b: Block, op: Op)
    ensures Apply(b, op)[TransferLength(op)..] == b[TransferLength(op)..]
  {
    if op.SetFeature? && MotionOnly(op.feature) {
      MotionBitsOnly(op.feature);
    }
  }

  lemma MotionBitsOnly(feature: bv8)
    requires MotionOnly(feature)
    ensures !Selects(feature, STEP_CNTR) && !Selects(feature, ACTIVITY)
    ensures !Selects(feature, WAKEUP) && !Selects(feature, WRIST_TILT)
  {
  }
}

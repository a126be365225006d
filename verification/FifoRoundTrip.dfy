/** Header-mode extraction inverts the sensor's encoding of any list of frames. */
module FifoRoundTrip {
  import opened MachineInts
  import opened FifoFrames
  import opened FifoEncoder

  /** A frame as the sensor emits it, with the two tag bits of its header. */
  datatype Frame =
    | AccelFrame(tag: byte, v: Vector)
    | MagFrame(tag: byte, raw: seq<byte>)
    | BothFrame(tag: byte, raw: seq<byte>, v: Vector)
    | TimeFrame(tag: byte, time: nat)
    | SkipFrame(tag: byte, count: byte)
    | ConfigFrame(tag: byte, config: byte)
    | DropFrame(tag: byte, code: byte, rest: seq<byte>)

  /** How many bytes follow the code of a sample-drop frame: with it, those of a sample of the sensors it names, bit 0
      the accelerometer and bit 2 the magnetometer. */
  predicate DropsThisMany(code: byte, rest: nat) {
    match code % 8
    case 1 => 1 + rest == 6
    case 3 => 1 + rest == 6
    case 4 => 1 + rest == 8
    case 6 => 1 + rest == 8
    case 5 => 1 + rest == 14
    case 7 => 1 + rest == 14
    case _ => false
  }

  predicate WellFormed(f: Frame, res: byte) {
    f.tag < 4 &&
    match f
    case AccelFrame(_, v) => Fits(v, res)
    case MagFrame(_, raw) => |raw| == FIFO_M_LENGTH
    case BothFrame(_, raw, v) => |raw| == FIFO_M_LENGTH && Fits(v, res)
    case TimeFrame(_, time) => time < 0x100_0000
    case SkipFrame(_, _) => true
    case ConfigFrame(_, _) => true
    case DropFrame(_, code, rest) => DropsThisMany(code, |rest|)
  }

  /** The two header forms: a regular frame names the sensors it has samples of, a control frame has a number. */
  function RegularHead(accel: bool, mag: bool): byte {
    0x80 + (if mag then 0x10 else 0) + (if accel then 0x04 else 0)
  }

  function ControlHead(number: nat): byte
    requires number < 8
  {
    0x40 + 4 * number
  }

  function HeadOf(f: Frame): byte {
    match f
    case AccelFrame(_, _) => RegularHead(true, false)
    case MagFrame(_, _) => RegularHead(false, true)
    case BothFrame(_, _, _) => RegularHead(true, true)
    case SkipFrame(_, _) => ControlHead(0)
    case TimeFrame(_, _) => ControlHead(1)
    case ConfigFrame(_, _) => ControlHead(2)
    case DropFrame(_, _, _) => ControlHead(4)
  }

  function Payload(f: Frame, res: byte): seq<byte>
    requires WellFormed(f, res)
  {
    match f
    case AccelFrame(_, v) => VectorBytes(v, res)
    case MagFrame(_, raw) => raw
    case BothFrame(_, raw, v) => raw + VectorBytes(v, res)
    case TimeFrame(_, time) => [time % 0x100, time / 0x100 % 0x100, time / 0x1_0000]
    case SkipFrame(_, count) => [count]
    case ConfigFrame(_, config) => [config]
    case DropFrame(_, code, rest) => [code] + rest
  }

  function Encode(f: Frame, res: byte): seq<byte>
    requires WellFormed(f, res)
  {
    [HeadOf(f) + f.tag] + Payload(f, res)
  }

  predicate AllWellFormed(fs: seq<Frame>, res: byte) {
    forall k :: 0 <= k < |fs| ==> WellFormed(fs[k], res)
  }

  function EncodeAll(fs: seq<Frame>, res: byte): seq<byte>
    requires AllWellFormed(fs, res)
  {
    if fs == [] then [] else Encode(fs[0], res) + EncodeAll(fs[1..], res)
  }

  /** What a frame means to the application, independently of its bytes. */
  function Meaning(f: Frame, s: Sensor): Option<Sample> {
    match s
    case AccelSensor(_) =>
      (match f
       case AccelFrame(_, v) => Some(Accel(v.x, v.y, v.z))
       case BothFrame(_, _, v) => Some(Accel(v.x, v.y, v.z))
       case _ => None)
    case MagSensor =>
      (match f
       case MagFrame(_, raw) => Some(Mag(raw))
       case BothFrame(_, raw, _) => Some(Mag(raw))
       case _ => None)
  }

  function Bookkeeping(f: Frame, c: Counters): Counters {
    match f
    case TimeFrame(_, time) => c.(sensorTime := time)
    case SkipFrame(_, count) => c.(skipped := count)
    case DropFrame(_, code, _) =>
      c.(accelDropped := if code % 8 in {1, 3, 5, 7} then U8(c.accelDropped + 1) else c.accelDropped,
         magDropped := if code % 8 in {4, 5, 6, 7} then U8(c.magDropped + 1) else c.magDropped)
    case _ => c
  }

  function SamplesOf(fs: seq<Frame>, s: Sensor): seq<Sample> {
    if fs == [] then []
    else
      match Meaning(fs[0], s)
      case None => SamplesOf(fs[1..], s)
      case Some(a) => [a] + SamplesOf(fs[1..], s)
  }

  function CountersOf(fs: seq<Frame>, c: Counters): Counters {
    if fs == [] then c else CountersOf(fs[1..], Bookkeeping(fs[0], c))
  }

  lemma TagIsDropped(f: Frame, res: byte)
    requires WellFormed(f, res)
    ensures FrameHead(HeadOf(f) + f.tag) == HeadOf(f)
  {
  }

  lemma TimeSurvives(time: nat)
    requires time < 0x100_0000
    ensures time % 0x100 + 0x100 * (time / 0x100 % 0x100) + 0x1_0000 * (time / 0x1_0000) == time
  {
    var q := time / 0x100;
    assert q / 0x100 == time / 0x1_0000;
  }

  /** One complete frame is decoded to its meaning and skipped exactly. */
  lemma FrameRoundTrip(d: seq<byte>, i: nat, f: Frame, s: Sensor, res: byte, c: Counters)
    requires WellFormed(f, res) && At(d, i, Encode(f, res)) && |d| <= MAX_LENGTH
    requires s.AccelSensor? ==> s.resolution == res
    ensures NextIndex(d, i) == i + |Encode(f, res)|
    ensures Counted(d, i, c) == Bookkeeping(f, c)
    ensures SampleAt(d, i, s) == Meaning(f, s)
  {
    TagIsDropped(f, res);
    var head, bytes := [HeadOf(f) + f.tag], Payload(f, res);
    AtSplits(d, i, head, bytes);
    assert d[i + 0] == head[0];
    FrameIsSkipped(d, i, f, res);
    match f
    case AccelFrame(_, v) => VectorRoundTrip(d, i + 1, v, res);
    case MagFrame(_, raw) => assert d[i + 1..i + 1 + FIFO_M_LENGTH] == raw;
    case BothFrame(_, raw, v) => BothRoundTrip(d, i + 1, raw, v, res);
    case TimeFrame(_, time) => TimeRoundTrip(d, i + 1, time, bytes);
    case SkipFrame(_, count) => assert d[i + 1 + 0] == bytes[0];
    case ConfigFrame(_, _) =>
    case DropFrame(_, code, _) => assert d[i + 1 + 0] == bytes[0];
  }

  /** The number of payload bytes that belong to a header byte other than that of a drop frame. */
  predicate PayloadFollows(head: byte, n: nat) {
    || (head == FIFO_HEAD_A && n == FIFO_A_LENGTH)
    || (head == FIFO_HEAD_M && n == FIFO_M_LENGTH)
    || (head == FIFO_HEAD_M_A && n == FIFO_MA_LENGTH)
    || (head == FIFO_HEAD_SENSOR_TIME && n == SENSOR_TIME_LENGTH)
    || ((head == FIFO_HEAD_SKIP_FRAME || head == FIFO_HEAD_INPUT_CONFIG) && n == 1)
  }

  lemma PayloadLength(f: Frame, res: byte)
    requires WellFormed(f, res) && !f.DropFrame?
    ensures PayloadFollows(HeadOf(f), |Payload(f, res)|)
  {
  }

  lemma FullPayload(d: seq<byte>, i: nat, n: nat)
    requires i < |d| <= MAX_LENGTH && PayloadFollows(FrameHead(d[i]), n) && i + 1 + n <= |d|
    ensures NextIndex(d, i) == i + 1 + n
  {
  }

  lemma FullDrop(d: seq<byte>, i: nat, code: byte, rest: nat)
    requires i + 1 < |d| <= MAX_LENGTH && FrameHead(d[i]) == ControlHead(4) && d[i + 1] == code
    requires DropsThisMany(code, rest) && i + 2 + rest <= |d|
    ensures NextIndex(d, i) == i + 2 + rest
  {
  }

  /** The index moves over exactly the frame's bytes. */
  lemma FrameIsSkipped(d: seq<byte>, i: nat, f: Frame, res: byte)
    requires WellFormed(f, res) && At(d, i, Encode(f, res)) && |d| <= MAX_LENGTH
    requires FrameHead(d[i]) == HeadOf(f)
    ensures NextIndex(d, i) == i + |Encode(f, res)|
  {
    if f.DropFrame? {
      assert d[i + 1] == Encode(f, res)[1] == f.code;
      FullDrop(d, i, f.code, |f.rest|);
    } else {
      PayloadLength(f, res);
      FullPayload(d, i, |Payload(f, res)|);
    }
  }

  lemma BothRoundTrip(d: seq<byte>, j: nat, raw: seq<byte>, v: Vector, res: byte)
    requires |raw| == FIFO_M_LENGTH && Fits(v, res) && At(d, j, raw + VectorBytes(v, res))
    ensures d[j..j + FIFO_M_LENGTH] == raw
    ensures AccelSample(d, j + FIFO_M_LENGTH, res) == Accel(v.x, v.y, v.z)
  {
    AtSplits(d, j, raw, VectorBytes(v, res));
    VectorRoundTrip(d, j + FIFO_M_LENGTH, v, res);
  }

  lemma TimeRoundTrip(d: seq<byte>, j: nat, time: nat, bytes: seq<byte>)
    requires time < 0x100_0000 && bytes == [time % 0x100, time / 0x100 % 0x100, time / 0x1_0000] && At(d, j, bytes)
    ensures (d[j] as int) + 0x100 * (d[j + 1] as int) + 0x1_0000 * (d[j + 2] as int) == time
  {
    assert d[j + 0] == bytes[0] && d[j + 1] == bytes[1] && d[j + 2] == bytes[2];
    TimeSurvives(time);
  }

  /** How the data ends after the complete frames: with the last of them, with an over-read marker, or with the first
      `kept` bytes of one more frame. */
  datatype Tail = Clean | OverRead | Cut(f: Frame, res: byte, kept: nat)

  predicate EndsAt(d: seq<byte>, i: nat, t: Tail) {
    match t
    case Clean => i == |d|
    case OverRead => i < |d| && FrameHead(d[i]) == FIFO_HEAD_OVER_READ_MSB
    case Cut(f, res, kept) =>
      && WellFormed(f, res) && 1 <= kept < |Encode(f, res)|
      && i + kept == |d| && At(d, i, Encode(f, res)[..kept])
  }

  /** A cut-off frame is discarded, with one exception: a sample-drop frame whose code is still there is counted, and
      the index moves past the end to where the frame would have ended. */
  predicate CountsCutOff(t: Tail) {
    t.Cut? && t.f.DropFrame? && t.kept >= 2
  }

  function TailCounters(t: Tail, c: Counters): Counters {
    if CountsCutOff(t) then Bookkeeping(t.f, c) else c
  }

  function TailIndex(d: seq<byte>, i: nat, t: Tail): nat
    requires EndsAt(d, i, t)
  {
    if CountsCutOff(t) then i + |Encode(t.f, t.res)| else |d|
  }

  lemma CutOffBytes(d: seq<byte>, i: nat, f: Frame, res: byte, kept: nat)
    requires EndsAt(d, i, Cut(f, res, kept))
    ensures FrameHead(d[i]) == HeadOf(f) && (f.DropFrame? && kept >= 2 ==> d[i + 1] == f.code)
  {
    var bytes := Encode(f, res);
    TagIsDropped(f, res);
    assert d[i + 0] == bytes[..kept][0] == bytes[0];
    assert f.DropFrame? && kept >= 2 ==> d[i + 1] == bytes[..kept][1] == bytes[1];
  }

  lemma ShortPayload(d: seq<byte>, i: nat, n: nat, s: Sensor, c: Counters)
    requires i < |d| <= MAX_LENGTH && PayloadFollows(FrameHead(d[i]), n) && |d| < i + 1 + n
    ensures SampleAt(d, i, s) == None && Counted(d, i, c) == c && NextIndex(d, i) == |d|
  {
  }

  /** What the walk does at the end: no sample, and the effect of a cut-off frame. */
  lemma TailStep(d: seq<byte>, i: nat, t: Tail, s: Sensor, c: Counters)
    requires i < |d| <= MAX_LENGTH && EndsAt(d, i, t)
    ensures SampleAt(d, i, s) == None && Counted(d, i, c) == TailCounters(t, c)
    ensures NextIndex(d, i) == TailIndex(d, i, t)
  {
    if t.Cut? {
      CutOffBytes(d, i, t.f, t.res, t.kept);
      if !t.f.DropFrame? {
        PayloadLength(t.f, t.res);
        ShortPayload(d, i, |Payload(t.f, t.res)|, s, c);
      }
    }
  }

  lemma NothingAfterTheEnd(d: seq<byte>, i: nat, t: Tail, n: nat, s: Sensor, c: Counters)
    requires n >= 1 && |d| <= MAX_LENGTH && EndsAt(d, i, t)
    ensures var p := Extract(d, i, n, s, c);
            p.out == [] && p.ctr == TailCounters(t, c) && p.idx == TailIndex(d, i, t)
  {
    if i < |d| {
      TailStep(d, i, t, s, c);
      Progress(d, i);
      assert Extract(d, NextIndex(d, i), n, s, Counted(d, i, c)) == Pass([], [], Counted(d, i, c), NextIndex(d, i));
    }
  }

  /** The whole data from index i on is consumed, delivering the samples and book-keeping of this list and of what
      follows it. */
  predicate Delivers(d: seq<byte>, i: nat, n: nat, s: Sensor, c: Counters, fs: seq<Frame>, end: nat, t: Tail)
    requires n >= 1 && |d| <= MAX_LENGTH && EndsAt(d, end, t)
  {
    var p := Extract(d, i, n, s, c);
    p.out == SamplesOf(fs, s) && p.ctr == TailCounters(t, CountersOf(fs, c)) && p.idx == TailIndex(d, end, t)
  }

  lemma DeliversOneMore(d: seq<byte>, i: nat, n: nat, s: Sensor, c: Counters, fs: seq<Frame>, j: nat, m: nat,
                        c1: Counters, end: nat, t: Tail)
    requires n >= 1 && i < |d| <= MAX_LENGTH && fs != [] && EndsAt(d, end, t)
    requires NextIndex(d, i) == j && c1 == Counted(d, i, c) == Bookkeeping(fs[0], c)
    requires SampleAt(d, i, s) == Meaning(fs[0], s)
    requires m >= 1 && m == if Meaning(fs[0], s).None? then n else n - 1
    requires Delivers(d, j, m, s, c1, fs[1..], end, t)
    ensures Delivers(d, i, n, s, c, fs, end, t)
  {
    Progress(d, i);
  }

  /** Extracting from an encoded list of frames delivers exactly the samples of this sensor in order and the list's
      book-keeping, and consumes all of the data, whichever way it ends. */
  lemma {:induction false} ExtractInvertsEncode(d: seq<byte>, i: nat, fs: seq<Frame>, n: nat, s: Sensor, res: byte,
                                                c: Counters, end: nat, t: Tail)
    requires |d| <= MAX_LENGTH && AllWellFormed(fs, res)
    requires s.AccelSensor? ==> s.resolution == res
    requires At(d, i, EncodeAll(fs, res)) && end == i + |EncodeAll(fs, res)| && EndsAt(d, end, t)
    requires n > |SamplesOf(fs, s)|
    ensures Delivers(d, i, n, s, c, fs, end, t)
    decreases |fs|
  {
    if fs == [] {
      NothingAfterTheEnd(d, i, t, n, s, c);
    } else {
      var f, rest := fs[0], fs[1..];
      AtSplits(d, i, Encode(f, res), EncodeAll(rest, res));
      FrameRoundTrip(d, i, f, s, res, c);
      var j, m, c1 := i + |Encode(f, res)|, if Meaning(f, s).None? then n else n - 1, Bookkeeping(f, c);
      ExtractInvertsEncode(d, j, rest, m, s, res, c1, end, t);
      DeliversOneMore(d, i, n, s, c, fs, j, m, c1, end, t);
    }
  }

  /** The book-keeping of a list in closed form: the last sensor time, the last skip count, and the numbers of dropped
      frames modulo 256. */
  function LastTime(fs: seq<Frame>, before: nat): nat {
    if fs == [] then before
    else if fs[|fs| - 1].TimeFrame? then fs[|fs| - 1].time
    else LastTime(fs[..|fs| - 1], before)
  }

  function LastSkip(fs: seq<Frame>, before: byte): byte {
    if fs == [] then before
    else if fs[|fs| - 1].SkipFrame? then fs[|fs| - 1].count
    else LastSkip(fs[..|fs| - 1], before)
  }

  predicate LosesAccel(f: Frame) {
    f.DropFrame? && f.code % 8 in {1, 3, 5, 7}
  }

  predicate LosesMag(f: Frame) {
    f.DropFrame? && f.code % 8 in {4, 5, 6, 7}
  }

  function Lost(fs: seq<Frame>, loses: Frame -> bool): nat {
    if fs == [] then 0
    else Lost(fs[..|fs| - 1], loses) + if loses(fs[|fs| - 1]) then 1 else 0
  }

  lemma {:induction false} CountersOfLast(fs: seq<Frame>, f: Frame, c: Counters)
    ensures CountersOf(fs + [f], c) == Bookkeeping(f, CountersOf(fs, c))
    decreases |fs|
  {
    if fs == [] {
      assert [f][1..] == [];
    } else {
      assert (fs + [f])[1..] == fs[1..] + [f];
      CountersOfLast(fs[1..], f, Bookkeeping(fs[0], c));
    }
  }

  lemma {:induction false} BookkeepingInClosedForm(fs: seq<Frame>, c: Counters)
    ensures CountersOf(fs, c) == Counters(LastTime(fs, c.sensorTime), LastSkip(fs, c.skipped),
                                          U8(c.accelDropped + Lost(fs, LosesAccel)),
                                          U8(c.magDropped + Lost(fs, LosesMag)))
    decreases |fs|
  {
    if fs != [] {
      var init, f := fs[..|fs| - 1], fs[|fs| - 1];
      assert init + [f] == fs;
      CountersOfLast(init, f, c);
      BookkeepingInClosedForm(init, c);
      CountOn(c.accelDropped + Lost(init, LosesAccel), 1);
      CountOn(c.magDropped + Lost(init, LosesMag), 1);
    }
  }
}

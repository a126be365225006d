/** How the sensor driver walks a FIFO read-out in header mode (bma4.c): one frame at a time, by its header byte. The
    accelerometer and the magnetometer extraction share this walk and differ in the frames they take samples from. */
module FifoFrames {
  import opened MachineInts

  datatype Option<T> = None | Some(value: T)

  const FIFO_HEAD_A: byte := 0x84
  const FIFO_HEAD_M: byte := 0x90
  const FIFO_HEAD_M_A: byte := 0x94
  const FIFO_HEAD_SENSOR_TIME: byte := 0x44
  const FIFO_HEAD_INPUT_CONFIG: byte := 0x48
  const FIFO_HEAD_SKIP_FRAME: byte := 0x40
  const FIFO_HEAD_OVER_READ_MSB: byte := 0x80
  const FIFO_HEAD_SAMPLE_DROP: byte := 0x50

  const FIFO_A_LENGTH: nat := 6
  const FIFO_M_LENGTH: nat := 8
  const FIFO_MA_LENGTH: nat := 14
  const SENSOR_TIME_LENGTH: nat := 3

  /** The longest read-out whose frame index cannot wrap around 16 bits. */
  const MAX_LENGTH: nat := 65522

  /** The header without its two tag bits. */
  function FrameHead(b: byte): byte {
    b - b % 4
  }

  /** The two drop bits of a sample-drop frame, and how far the index then moves. */
  predicate DropsAccel(code: byte) {
    code % 2 == 1
  }

  predicate DropsMag(code: byte) {
    code / 4 % 2 == 1
  }

  function DropLength(code: byte): nat {
    if DropsAccel(code) && DropsMag(code) then FIFO_MA_LENGTH
    else if DropsAccel(code) then FIFO_A_LENGTH
    else if DropsMag(code) then FIFO_M_LENGTH
    else 0
  }

  datatype Sensor = AccelSensor(resolution: byte) | MagSensor

  /** An acceleration, or the eight raw bytes handed to the magnetometer's compensation. */
  datatype Sample = Accel(x: int, y: int, z: int) | Mag(raw: seq<byte>)

  datatype Counters = Counters(sensorTime: nat, skipped: byte, accelDropped: byte, magDropped: byte)

  /** The index after n payload bytes, or the end of the data when they are cut off. */
  function SkipTo(d: seq<byte>, j: nat, n: nat): nat {
    if j + n > |d| then |d| else j + n
  }

  /** The index at which the frame with its header at i ends. The sample-drop case alone does not check for a cut-off
      frame. */
  function NextIndex(d: seq<byte>, i: nat): nat
    requires i < |d| < 0x1_0000
  {
    var head, j := FrameHead(d[i]), i + 1;
    if head == FIFO_HEAD_A then SkipTo(d, j, FIFO_A_LENGTH)
    else if head == FIFO_HEAD_M_A then SkipTo(d, j, FIFO_MA_LENGTH)
    else if head == FIFO_HEAD_M then SkipTo(d, j, FIFO_M_LENGTH)
    else if head == FIFO_HEAD_SENSOR_TIME then SkipTo(d, j, SENSOR_TIME_LENGTH)
    else if head == FIFO_HEAD_SKIP_FRAME then SkipTo(d, j, 1)
    else if head == FIFO_HEAD_INPUT_CONFIG then SkipTo(d, j, 1)
    else if head == FIFO_HEAD_SAMPLE_DROP then (if j >= |d| then |d| else U16(j + DropLength(d[j])))
    else if head == FIFO_HEAD_OVER_READ_MSB then |d|
    else j
  }

  /** What the frame with its header at i does to the counters. */
  function Counted(d: seq<byte>, i: nat, c: Counters): Counters
    requires i < |d|
  {
    var head, j := FrameHead(d[i]), i + 1;
    if head == FIFO_HEAD_SENSOR_TIME && j + SENSOR_TIME_LENGTH <= |d| then
      c.(sensorTime := (d[j] as int) + 0x100 * (d[j + 1] as int) + 0x1_0000 * (d[j + 2] as int))
    else if head == FIFO_HEAD_SKIP_FRAME && j < |d| then c.(skipped := d[j])
    else if head == FIFO_HEAD_SAMPLE_DROP && j < |d| then
      c.(accelDropped := if DropsAccel(d[j]) then U8(c.accelDropped + 1) else c.accelDropped,
         magDropped := if DropsMag(d[j]) then U8(c.magDropped + 1) else c.magDropped)
    else c
  }

  function RawAxis(d: seq<byte>, j: nat): int16
    requires j + 1 < |d|
  {
    I16((d[j] as int) + 0x100 * (d[j + 1] as int))
  }

  /** The left-aligned 12- and 14-bit values are scaled down by a truncating division. */
  function Scaled(raw: int16, resolution: byte): int {
    if resolution == 12 then TruncDiv(raw, 0x10)
    else if resolution == 14 then TruncDiv(raw, 0x04)
    else raw
  }

  function AccelSample(d: seq<byte>, j: nat, resolution: byte): Sample
    requires j + FIFO_A_LENGTH <= |d|
  {
    Accel(Scaled(RawAxis(d, j), resolution), Scaled(RawAxis(d, j + 2), resolution),
          Scaled(RawAxis(d, j + 4), resolution))
  }

  /** The sample this sensor takes from the frame with its header at i, if it is complete. */
  function SampleAt(d: seq<byte>, i: nat, s: Sensor): Option<Sample>
    requires i < |d|
  {
    var head, j := FrameHead(d[i]), i + 1;
    match s
    case AccelSensor(res) =>
      if head == FIFO_HEAD_A && j + FIFO_A_LENGTH <= |d| then Some(AccelSample(d, j, res))
      else if head == FIFO_HEAD_M_A && j + FIFO_MA_LENGTH <= |d| then Some(AccelSample(d, j + FIFO_M_LENGTH, res))
      else None
    case MagSensor =>
      if head == FIFO_HEAD_M && j + FIFO_M_LENGTH <= |d| then Some(Mag(d[j..j + FIFO_M_LENGTH]))
      else if head == FIFO_HEAD_M_A && j + FIFO_MA_LENGTH <= |d| then Some(Mag(d[j..j + FIFO_M_LENGTH]))
      else None
  }

  /** What one extraction delivers: the samples, the header positions it visited, the counters, and the index at which
      the next extraction resumes. */
  datatype Pass = Pass(out: seq<Sample>, seen: seq<nat>, ctr: Counters, idx: nat)

  function Prepend(out: seq<Sample>, i: nat, p: Pass): Pass {
    p.(out := out + p.out, seen := [i] + p.seen)
  }

  /** One extraction of at most n samples from index i on. */
  function Extract(d: seq<byte>, i: nat, n: nat, s: Sensor, c: Counters): Pass
    requires n >= 1 && |d| <= MAX_LENGTH
    decreases |d| - i
  {
    if i >= |d| then Pass([], [], c, i)
    else
      Progress(d, i);
      var j, c1 := NextIndex(d, i), Counted(d, i, c);
      match SampleAt(d, i, s)
      case None => Prepend([], i, Extract(d, j, n, s, c1))
      case Some(a) => if n == 1 then Pass([a], [i], c1, j) else Prepend([a], i, Extract(d, j, n - 1, s, c1))
  }

  /** Every frame moves the index forward, and at most 13 bytes past the end. */
  lemma Progress(d: seq<byte>, i: nat)
    requires i < |d| <= MAX_LENGTH
    ensures i < NextIndex(d, i) <= |d| + 13
  {
  }

  /** A read-out of zeros whose last two bytes are a drop frame for both sensors. */
  function WrappingReadOut(len: nat): (d: seq<byte>)
    requires len >= 2
    ensures |d| == len
  {
    seq<byte>(len, k => if k == len - 2 then FIFO_HEAD_SAMPLE_DROP else if k == len - 1 then 5 else 0)
  }

  lemma WrappingReadOutWraps(len: nat, i: nat)
    requires MAX_LENGTH < len < 0x1_0000 && i <= len - 2
    ensures NextIndex(WrappingReadOut(len), i) == if i == len - 2 then len + 13 - 0x1_0000 else i + 1
  {
  }

  /** Every frame of every read-out of this length moves the index forward if and only if it is not longer than that
      bound. */
  lemma AlwaysForwardIff(len: nat)
    requires len < 0x1_0000
    ensures (forall d: seq<byte>, i: nat :: |d| == len && i < len ==> i < NextIndex(d, i)) <==> len <= MAX_LENGTH
  {
    if len <= MAX_LENGTH {
      forall d: seq<byte>, i: nat | |d| == len && i < len
        ensures i < NextIndex(d, i)
      {
        Progress(d, i);
      }
    } else {
      WrappingReadOutWraps(len, len - 2);
    }
  }

  /** The index after k more frames, or once the end is reached. */
  function Walk(d: seq<byte>, i: nat, k: nat): nat
    requires |d| < 0x1_0000
    decreases k
  {
    if k == 0 || i >= |d| then i else Walk(d, NextIndex(d, i), k - 1)
  }

  ghost predicate WalkEnds(d: seq<byte>)
    requires |d| < 0x1_0000
  {
    exists k: nat :: Walk(d, 0, k) >= |d|
  }

  lemma {:induction false} WalkReachesTheEnd(d: seq<byte>, i: nat, k: nat)
    requires |d| <= MAX_LENGTH && i + k >= |d|
    ensures Walk(d, i, k) >= |d|
    decreases k
  {
    if k > 0 && i < |d| {
      Progress(d, i);
      WalkReachesTheEnd(d, NextIndex(d, i), k - 1);
    }
  }

  lemma {:induction false} WalkGoesRound(len: nat, i: nat, k: nat)
    requires MAX_LENGTH < len < 0x1_0000 && i <= len - 2
    ensures Walk(WrappingReadOut(len), i, k) <= len - 2
    decreases k
  {
    if k > 0 {
      WrappingReadOutWraps(len, i);
      WalkGoesRound(len, NextIndex(WrappingReadOut(len), i), k - 1);
    }
  }

  /** The walk ends on every read-out of this length if and only if it is not longer than that bound: above it the last
      frame can lead back to the first bytes, and the walk goes round for ever. */
  lemma WalkEndsIff(len: nat)
    requires len < 0x1_0000
    ensures (forall d: seq<byte> :: |d| == len ==> WalkEnds(d)) <==> len <= MAX_LENGTH
  {
    if len <= MAX_LENGTH {
      forall d: seq<byte> | |d| == len
        ensures WalkEnds(d)
      {
        WalkReachesTheEnd(d, 0, len);
      }
    } else {
      forall k: nat
        ensures Walk(WrappingReadOut(len), 0, k) < len
      {
        WalkGoesRound(len, 0, k);
      }
      assert !WalkEnds(WrappingReadOut(len));
    }
  }

  lemma {:induction false} ExtractBounds(d: seq<byte>, i: nat, n: nat, s: Sensor, c: Counters)
    requires n >= 1 && |d| <= MAX_LENGTH
    ensures var p := Extract(d, i, n, s, c);
            && |p.out| <= n && i <= p.idx && (i <= |d| + 13 ==> p.idx <= |d| + 13)
            && (|p.out| < n ==> p.idx >= |d|)
    decreases |d| - i
  {
    if i < |d| {
      Progress(d, i);
      var j, c1 := NextIndex(d, i), Counted(d, i, c);
      match SampleAt(d, i, s)
      case None => ExtractBounds(d, j, n, s, c1);
      case Some(_) =>
        if n > 1 {
          ExtractBounds(d, j, n - 1, s, c1);
        }
    }
  }

  /** One extraction followed by another that resumes it. */
  function Then(p: Pass, q: Pass): Pass {
    Pass(p.out + q.out, p.seen + q.seen, q.ctr, q.idx)
  }

  lemma PrependThen(out: seq<Sample>, i: nat, p: Pass, q: Pass)
    ensures Prepend(out, i, Then(p, q)) == Then(Prepend(out, i, p), q)
  {
    assert out + (p.out + q.out) == (out + p.out) + q.out;
    assert [i] + (p.seen + q.seen) == ([i] + p.seen) + q.seen;
  }

  function Resumed(d: seq<byte>, p: Pass, m: nat, s: Sensor): Pass
    requires m >= 1 && |d| <= MAX_LENGTH
  {
    Then(p, Extract(d, p.idx, m, s, p.ctr))
  }

  /** Extraction is resumable: n samples and then m more are exactly n + m at once, with the same counters and the same
      final index. */
  lemma {:induction false} ExtractionComposes(d: seq<byte>, i: nat, n: nat, m: nat, s: Sensor, c: Counters)
    requires n >= 1 && m >= 1 && |d| <= MAX_LENGTH
    ensures Extract(d, i, n + m, s, c) == Resumed(d, Extract(d, i, n, s, c), m, s)
    decreases |d| - i
  {
    if i < |d| {
      Progress(d, i);
      var j, c1 := NextIndex(d, i), Counted(d, i, c);
      match SampleAt(d, i, s)
      case None =>
        ExtractionComposes(d, j, n, m, s, c1);
        var rest := Extract(d, j, n, s, c1);
        PrependThen([], i, rest, Extract(d, rest.idx, m, s, rest.ctr));
      case Some(a) =>
        if n > 1 {
          ExtractionComposes(d, j, n - 1, m, s, c1);
          var rest := Extract(d, j, n - 1, s, c1);
          PrependThen([a], i, rest, Extract(d, rest.idx, m, s, rest.ctr));
        }
    }
  }

  /** Both sensors' passes over the same data visit the same frames, count the same drops and end at the same index,
      provided each is asked for more samples than it finds. */
  lemma {:induction false} FramingAgrees(d: seq<byte>, i: nat, n1: nat, n2: nat, s1: Sensor, s2: Sensor, c: Counters)
    requires n1 >= 1 && n2 >= 1 && |d| <= MAX_LENGTH
    requires |Extract(d, i, n1, s1, c).out| < n1 && |Extract(d, i, n2, s2, c).out| < n2
    ensures Extract(d, i, n1, s1, c).seen == Extract(d, i, n2, s2, c).seen
    ensures Extract(d, i, n1, s1, c).idx == Extract(d, i, n2, s2, c).idx
    ensures Extract(d, i, n1, s1, c).ctr == Extract(d, i, n2, s2, c).ctr
    decreases |d| - i
  {
    if i < |d| {
      Progress(d, i);
      FramingAgrees(d, NextIndex(d, i), if SampleAt(d, i, s1).Some? then n1 - 1 else n1,
                    if SampleAt(d, i, s2).Some? then n2 - 1 else n2, s1, s2, Counted(d, i, c));
    }
  }

  /** The number of sample-drop frames whose code says that they drop this sensor's data. */
  function Drops(d: seq<byte>, i: nat, drops: byte -> bool): nat
    requires |d| <= MAX_LENGTH
    decreases |d| - i
  {
    if i >= |d| then 0
    else
      Progress(d, i);
      (if FrameHead(d[i]) == FIFO_HEAD_SAMPLE_DROP && i + 1 < |d| && drops(d[i + 1]) then 1 else 0)
      + Drops(d, NextIndex(d, i), drops)
  }

  /** The counters after this many more dropped frames. */
  predicate CountedOn(before: Counters, after: Counters, accel: nat, mag: nat) {
    && after.accelDropped == U8(before.accelDropped + accel)
    && after.magDropped == U8(before.magDropped + mag)
  }

  lemma CountOn(a: int, k: int)
    ensures U8(U8(a) + k) == U8(a + k)
  {
    var q, r := (U8(a) + k) / 0x100, (U8(a) + k) % 0x100;
    assert a + k == 0x100 * (a / 0x100 + q) + r;
  }

  lemma CountsAdd(c: Counters, c1: Counters, c2: Counters, accel: nat, mag: nat, accel1: nat, mag1: nat)
    requires CountedOn(c, c1, accel, mag) && CountedOn(c1, c2, accel1, mag1)
    ensures CountedOn(c, c2, accel + accel1, mag + mag1)
  {
    CountOn(c.accelDropped + accel, accel1);
    CountOn(c.magDropped + mag, mag1);
  }

  /** A complete pass of either sensor adds the read-out's dropped frames of both to the running counts, modulo 256. */
  lemma {:induction false} PassCountsDrops(d: seq<byte>, i: nat, n: nat, s: Sensor, c: Counters)
    requires n >= 1 && |d| <= MAX_LENGTH && |Extract(d, i, n, s, c).out| < n
    ensures CountedOn(c, Extract(d, i, n, s, c).ctr, Drops(d, i, DropsAccel), Drops(d, i, DropsMag))
    decreases |d| - i
  {
    if i < |d| {
      Progress(d, i);
      var j, c1, m := NextIndex(d, i), Counted(d, i, c), if SampleAt(d, i, s).Some? then n - 1 else n;
      PassCountsDrops(d, j, m, s, c1);
      CountsAdd(c, c1, Extract(d, j, m, s, c1).ctr, Drops(d, i, DropsAccel) - Drops(d, j, DropsAccel),
                Drops(d, i, DropsMag) - Drops(d, j, DropsMag), Drops(d, j, DropsAccel), Drops(d, j, DropsMag));
    }
  }

  /** So extracting both sensors from one read-out, as the driver's interface invites, counts every dropped frame
      twice, in either order. */
  lemma DropsCountedTwice(d: seq<byte>, i: nat, n: nat, m: nat, s1: Sensor, s2: Sensor, c: Counters)
    requires n >= 1 && m >= 1 && |d| <= MAX_LENGTH
    requires |Extract(d, i, n, s1, c).out| < n
    requires |Extract(d, i, m, s2, Extract(d, i, n, s1, c).ctr).out| < m
    ensures CountedOn(c, Extract(d, i, m, s2, Extract(d, i, n, s1, c).ctr).ctr,
                      2 * Drops(d, i, DropsAccel), 2 * Drops(d, i, DropsMag))
  {
    var c1, accel, mag := Extract(d, i, n, s1, c).ctr, Drops(d, i, DropsAccel), Drops(d, i, DropsMag);
    PassCountsDrops(d, i, n, s1, c);
    PassCountsDrops(d, i, m, s2, c1);
    CountsAdd(c, c1, Extract(d, i, m, s2, c1).ctr, accel, mag, accel, mag);
  }
}

/** The FIFO part of the sensor driver (bma4.c): the extraction loops that advance a data index over the read-out and
    remember in the device structure where the next call resumes. */
module FifoExtract {
  import opened MachineInts
  import opened FifoFrames
  import opened FifoHeaderless

  /** The index a call starts from: the dummy byte of an SPI read is skipped when the stored index is zero. */
  function StartIndex(start: nat, dummy: byte): nat {
    if start == 0 then dummy else start
  }

  /** One header-mode call that requests n samples, with the index left by the previous call. */
  function HeaderCall(d: seq<byte>, dummy: byte, start: nat, n: nat, s: Sensor, c: Counters): Pass
    requires n >= 1 && |d| <= MAX_LENGTH
  {
    Extract(d, StartIndex(start, dummy), n, s, c)
  }

  /** Two consecutive calls for n and m samples deliver what one call for n + m delivers, and leave the same state,
      although each call looks at the stored index anew. */
  lemma HeaderCallsCompose(d: seq<byte>, dummy: byte, start: nat, n: nat, m: nat, s: Sensor, c: Counters)
    requires n >= 1 && m >= 1 && |d| <= MAX_LENGTH
    ensures var first := HeaderCall(d, dummy, start, n, s, c);
            HeaderCall(d, dummy, start, n + m, s, c) == Then(first, HeaderCall(d, dummy, first.idx, m, s, first.ctr))
  {
    var from := StartIndex(start, dummy);
    ExtractionComposes(d, from, n, m, s, c);
    ExtractBounds(d, from, n, s, c);
  }

  /** A loop that has delivered part of what was asked for, and how much is left to do. */
  predicate OnTrack(d: seq<byte>, total: Pass, n: nat, s: Sensor, done: Pass)
    requires n > |done.out| && |d| <= MAX_LENGTH
  {
    total == Then(done, Extract(d, done.idx, n - |done.out|, s, done.ctr))
  }

  /** The part done after one more frame. */
  function AfterFrame(d: seq<byte>, s: Sensor, done: Pass): Pass
    requires done.idx < |d| <= MAX_LENGTH
  {
    Pass(match SampleAt(d, done.idx, s)
         case None => done.out
         case Some(a) => done.out + [a],
         done.seen + [done.idx], Counted(d, done.idx, done.ctr), NextIndex(d, done.idx))
  }

  lemma StaysOnTrack(d: seq<byte>, total: Pass, n: nat, s: Sensor, done: Pass)
    requires n > |done.out| && done.idx < |d| <= MAX_LENGTH && OnTrack(d, total, n, s, done)
    ensures var next := AfterFrame(d, s, done);
            if |next.out| == n then total == next else OnTrack(d, total, n, s, next)
  {
    Progress(d, done.idx);
    var next := AfterFrame(d, s, done);
    if |next.out| < n {
      var rest := Extract(d, next.idx, n - |next.out|, s, next.ctr);
      assert done.seen + ([done.idx] + rest.seen) == next.seen + rest.seen;
      match SampleAt(d, done.idx, s)
      case None => assert done.out + ([] + rest.out) == next.out + rest.out;
      case Some(a) => assert done.out + ([a] + rest.out) == next.out + rest.out;
    }
  }

  lemma StartsOnTrack(d: seq<byte>, total: Pass, n: nat, s: Sensor, done: Pass)
    requires n > 0 && |d| <= MAX_LENGTH && done.out == [] && done.seen == []
    requires total == Extract(d, done.idx, n, s, done.ctr)
    ensures OnTrack(d, total, n, s, done)
  {
  }

  /** The array starts with these samples and is otherwise as it was. */
  predicate Holds(a: seq<Sample>, out: seq<Sample>, before: seq<Sample>) {
    && |out| <= |a| == |before|
    && (forall k :: 0 <= k < |out| ==> a[k] == out[k])
    && (forall k :: |out| <= k < |a| ==> a[k] == before[k])
  }

  /** The same for the header-less loop. */
  predicate RunOnTrack(d: seq<byte>, total: Run, limit: nat, l: Layout, res: byte, done: seq<Sample>, idx: nat)
    requires limit <= |d|
  {
    var rest := Unpacked(d, idx, limit, l, res);
    total == Run(done + rest.out, rest.idx)
  }

  lemma RunStaysOnTrack(d: seq<byte>, total: Run, limit: nat, l: Layout, res: byte, done: seq<Sample>, idx: nat)
    requires idx < limit <= |d| && RunOnTrack(d, total, limit, l, res, done, idx)
    ensures if idx + l.Stride() > |d| then RunOnTrack(d, total, limit, l, res, done, |d|)
            else
              && |done| < |total.out|
              && RunOnTrack(d, total, limit, l, res, done + [AccelSample(d, idx + l.Offset(), res)],
                            AfterSample(d, idx + l.Stride()))
  {
    if idx + l.Stride() <= |d| {
      var a := AccelSample(d, idx + l.Offset(), res);
      var rest := Unpacked(d, AfterSample(d, idx + l.Stride()), limit, l, res);
      assert done + ([a] + rest.out) == (done + [a]) + rest.out;
    }
  }

  /** At most one sample is stored, at this position. */
  predicate Stored(sample: Option<Sample>, before: seq<Sample>, after: seq<Sample>, count: nat, newCount: nat)
    requires count < |before|
  {
    match sample
    case None => newCount == count && after == before
    case Some(a) => newCount == count + 1 && after == before[count := a]
  }

  class Fifo {
    const data: seq<byte>
    const dummyByte: byte
    const resolution: byte
    const headerEnable: bool
    const dataEnable: byte
    var accelStart: uint16
    var magStart: uint16
    var ctr: Counters

    constructor (data: seq<byte>, dummyByte: byte, resolution: byte, headerEnable: bool, dataEnable: byte)
      ensures this.data == data && this.dummyByte == dummyByte && this.resolution == resolution
      ensures this.headerEnable == headerEnable && this.dataEnable == dataEnable
      ensures accelStart == 0 && magStart == 0 && ctr == Counters(0, 0, 0, 0)
    {
      this.data, this.dummyByte, this.resolution := data, dummyByte, resolution;
      this.headerEnable, this.dataEnable := headerEnable, dataEnable;
      accelStart, magStart, ctr := 0, 0, Counters(0, 0, 0, 0);
    }

    method MoveNextFrame(idx: uint16, frameLength: nat) returns (next: nat)
      ensures next == SkipTo(data, idx, frameLength)
    {
      if idx + frameLength > |data| {
        next := |data|;
      } else {
        next := idx + frameLength;
      }
    }

    method UnpackSensorTimeFrame(idx: uint16) returns (next: nat)
      modifies this`ctr
      ensures next == SkipTo(data, idx, SENSOR_TIME_LENGTH)
      ensures ctr == if idx + SENSOR_TIME_LENGTH > |data| then old(ctr)
                     else old(ctr).(sensorTime := (data[idx] as int) + 0x100 * (data[idx + 1] as int)
                                                  + 0x1_0000 * (data[idx + 2] as int))
    {
      if idx + SENSOR_TIME_LENGTH > |data| {
        next := |data|;
      } else {
        var byte3, byte2, byte1 := (data[idx + 2] as int) * 0x1_0000, (data[idx + 1] as int) * 0x100, data[idx];
        ctr := ctr.(sensorTime := byte3 + byte2 + byte1);
        next := idx + SENSOR_TIME_LENGTH;
      }
    }

    method UnpackSkippedFrame(idx: uint16) returns (next: nat)
      modifies this`ctr
      ensures next == SkipTo(data, idx, 1)
      ensures ctr == if idx >= |data| then old(ctr) else old(ctr).(skipped := data[idx])
    {
      if idx >= |data| {
        next := |data|;
      } else {
        ctr := ctr.(skipped := data[idx]);
        next := idx + 1;
      }
    }

    method UnpackDroppedFrame(idx: uint16) returns (next: uint16)
      requires |data| <= MAX_LENGTH
      modifies this`ctr
      ensures next == if idx >= |data| then |data| else U16(idx + DropLength(data[idx]))
      ensures ctr == if idx >= |data| then old(ctr)
                     else old(ctr).(
                            accelDropped := if DropsAccel(data[idx]) then U8(old(ctr).accelDropped + 1)
                                            else old(ctr).accelDropped,
                            magDropped := if DropsMag(data[idx]) then U8(old(ctr).magDropped + 1)
                                          else old(ctr).magDropped)
    {
      next := idx;
      if idx >= |data| {
        next := |data|;
      } else {
        var accel, mag := DropsAccel(data[idx]), DropsMag(data[idx]);
        if accel && !mag {
          next := U16(idx + FIFO_A_LENGTH);
          ctr := ctr.(accelDropped := U8(ctr.accelDropped + 1));
        } else if mag && !accel {
          next := U16(idx + FIFO_M_LENGTH);
          ctr := ctr.(magDropped := U8(ctr.magDropped + 1));
        } else if accel && mag {
          next := U16(idx + FIFO_MA_LENGTH);
          ctr := ctr.(accelDropped := U8(ctr.accelDropped + 1));
          ctr := ctr.(magDropped := U8(ctr.magDropped + 1));
        }
      }
    }

    /** The frames that carry no sample for the sensor being extracted; idx is just past the header. */
    method SkipFrame(header: byte, idx: uint16) returns (next: nat)
      requires 1 <= idx <= |data| <= MAX_LENGTH && header == FrameHead(data[idx - 1])
      requires header != FIFO_HEAD_M_A
      modifies this`ctr
      ensures next == NextIndex(data, idx - 1) && ctr == Counted(data, idx - 1, old(ctr))
    {
      if header == FIFO_HEAD_A {
        next := MoveNextFrame(idx, FIFO_A_LENGTH);
      } else if header == FIFO_HEAD_M {
        next := MoveNextFrame(idx, FIFO_M_LENGTH);
      } else if header == FIFO_HEAD_SENSOR_TIME {
        next := UnpackSensorTimeFrame(idx);
      } else if header == FIFO_HEAD_SKIP_FRAME {
        next := UnpackSkippedFrame(idx);
      } else if header == FIFO_HEAD_INPUT_CONFIG {
        next := MoveNextFrame(idx, 1);
      } else if header == FIFO_HEAD_SAMPLE_DROP {
        next := UnpackDroppedFrame(idx);
      } else if header == FIFO_HEAD_OVER_READ_MSB {
        next := |data|;
      } else {
        next := idx;
      }
    }

    /** A frame with a sample of this many bytes, of which the sensor's part starts at the given offset: decode it, or
        skip to the end when it is cut off. */
    method UnpackAccFrame(acc: array<Sample>, count: nat, idx: uint16, length: nat, offset: nat)
      returns (next: nat, newCount: nat)
      requires idx + length <= |data| ==> count < acc.Length
      requires offset + FIFO_A_LENGTH <= length
      modifies acc
      ensures next == SkipTo(data, idx, length)
      ensures idx + length > |data| ==> newCount == count && acc[..] == old(acc[..])
      ensures idx + length <= |data| ==>
                newCount == count + 1 && acc[..] == old(acc[..])[count := AccelSample(data, idx + offset, resolution)]
    {
      if idx + length > |data| {
        next, newCount := |data|, count;
      } else {
        acc[count] := AccelSample(data, idx + offset, resolution);
        next, newCount := idx + length, count + 1;
      }
    }

    method UnpackMagFrame(mag: array<Sample>, count: nat, idx: uint16, length: nat) returns (next: nat, newCount: nat)
      requires count < mag.Length && FIFO_M_LENGTH <= length
      modifies mag
      ensures next == SkipTo(data, idx, length)
      ensures newCount == if idx + length > |data| then count else count + 1
      ensures forall k :: 0 <= k < mag.Length && k != count ==> mag[k] == old(mag[k])
      ensures mag[count] == if idx + length > |data| then old(mag[count]) else Mag(data[idx..idx + FIFO_M_LENGTH])
    {
      if idx + length > |data| {
        next, newCount := |data|, count;
      } else {
        mag[count] := Mag(data[idx..idx + FIFO_M_LENGTH]);
        next, newCount := idx + length, count + 1;
      }
    }

    /** One turn of the extraction loop: the frame with its header at idx. */
    method AccelFrame(acc: array<Sample>, count: nat, idx: uint16) returns (next: nat, newCount: nat)
      requires idx < |data| <= MAX_LENGTH && count < acc.Length
      modifies this`ctr, acc
      ensures next == NextIndex(data, idx) && ctr == Counted(data, idx, old(ctr))
      ensures Stored(SampleAt(data, idx, AccelSensor(resolution)), old(acc[..]), acc[..], count, newCount)
    {
      var header := FrameHead(data[idx]);
      if header == FIFO_HEAD_A {
        next, newCount := UnpackAccFrame(acc, count, idx + 1, FIFO_A_LENGTH, 0);
      } else if header == FIFO_HEAD_M_A {
        next, newCount := UnpackAccFrame(acc, count, idx + 1, FIFO_MA_LENGTH, FIFO_M_LENGTH);
      } else {
        newCount := count;
        next := SkipFrame(header, idx + 1);
      }
    }

    method MagFrame(mag: array<Sample>, count: nat, idx: uint16) returns (next: nat, newCount: nat)
      requires idx < |data| <= MAX_LENGTH && count < mag.Length
      modifies this`ctr, mag
      ensures next == NextIndex(data, idx) && ctr == Counted(data, idx, old(ctr))
      ensures Stored(SampleAt(data, idx, MagSensor), old(mag[..]), mag[..], count, newCount)
    {
      var header := FrameHead(data[idx]);
      if header == FIFO_HEAD_M {
        next, newCount := UnpackMagFrame(mag, count, idx + 1, FIFO_M_LENGTH);
      } else if header == FIFO_HEAD_M_A {
        next, newCount := UnpackMagFrame(mag, count, idx + 1, FIFO_MA_LENGTH);
      } else {
        newCount := count;
        next := SkipFrame(header, idx + 1);
      }
    }

    method ExtractAccelHeaderMode(acc: array<Sample>, n: uint16) returns (count: nat)
      requires 1 <= n <= acc.Length && |data| <= MAX_LENGTH
      modifies this`accelStart, this`ctr, acc
      ensures var p := HeaderCall(data, dummyByte, old(accelStart), n, AccelSensor(resolution), old(ctr));
              && Holds(acc[..], p.out, old(acc[..])) && count == |p.out| <= n
              && ctr == p.ctr && accelStart == p.idx
    {
      count := 0;
      if accelStart == 0 {
        accelStart := dummyByte;
      }
      var idx: uint16 := accelStart;
      ghost var s := AccelSensor(resolution);
      ghost var total := HeaderCall(data, dummyByte, old(accelStart), n, s, old(ctr));
      ghost var done := Pass([], [], ctr, idx);
      StartsOnTrack(data, total, n, s, done);
      while idx < |data|
        invariant done.idx == idx && done.ctr == ctr && |done.out| == count < n
        invariant OnTrack(data, total, n, s, done)
        invariant Holds(acc[..], done.out, old(acc[..]))
        decreases |data| - idx
      {
        StaysOnTrack(data, total, n, s, done);
        Progress(data, idx);
        done := AfterFrame(data, s, done);
        idx, count := AccelFrame(acc, count, idx);
        if count == n {
          break;
        }
      }
      assert total == done;
      accelStart := idx;
    }

    method ExtractMagHeaderMode(mag: array<Sample>, n: uint16) returns (count: nat)
      requires 1 <= n <= mag.Length && |data| <= MAX_LENGTH
      modifies this`magStart, this`ctr, mag
      ensures var p := HeaderCall(data, dummyByte, old(magStart), n, MagSensor, old(ctr));
              && Holds(mag[..], p.out, old(mag[..])) && count == |p.out| <= n
              && ctr == p.ctr && magStart == p.idx
    {
      count := 0;
      if magStart == 0 {
        magStart := dummyByte;
      }
      var idx: uint16 := magStart;
      ghost var total := HeaderCall(data, dummyByte, old(magStart), n, MagSensor, old(ctr));
      ghost var done := Pass([], [], ctr, idx);
      StartsOnTrack(data, total, n, MagSensor, done);
      while idx < |data|
        invariant done.idx == idx && done.ctr == ctr && |done.out| == count < n
        invariant OnTrack(data, total, n, MagSensor, done)
        invariant Holds(mag[..], done.out, old(mag[..]))
        decreases |data| - idx
      {
        StaysOnTrack(data, total, n, MagSensor, done);
        Progress(data, idx);
        done := AfterFrame(data, MagSensor, done);
        idx, count := MagFrame(mag, count, idx);
        if count == n {
          break;
        }
      }
      assert total == done;
      magStart := idx;
    }

    method CheckEmptyFifo(idx: uint16) returns (next: nat)
      ensures next == AfterSample(data, idx)
    {
      next := idx;
      if idx + 2 < |data| {
        if data[idx] == EMPTY_MARK_0 && data[idx + 1] == EMPTY_MARK_1 {
          next := |data|;
        }
      }
    }

    /** Where the call starts and how far it may go. */
    method GetAccelLenToParse(n: uint16, l: Layout) returns (idx: uint16, limit: uint16)
      requires |data| < 0x1_0000
      ensures idx == accelStart + DummyByte(accelStart, dummyByte)
      ensures limit == Limit(data, accelStart, n, dummyByte, l)
    {
      var dummy: byte := 0;
      if accelStart == 0 {
        dummy := dummyByte;
      }
      idx, limit := accelStart + dummy, U16(n * l.Stride() + dummy);
      if limit > |data| {
        limit := |data|;
      }
    }

    /** The loop over equal-sized samples. */
    method UnpackRun(acc: array<Sample>, start: uint16, limit: uint16, l: Layout) returns (count: nat, idx: uint16)
      requires limit <= |data| < 0x1_0000 && |Unpacked(data, start, limit, l, resolution).out| <= acc.Length
      modifies acc
      ensures var r := Unpacked(data, start, limit, l, resolution);
              Holds(acc[..], r.out, old(acc[..])) && count == |r.out| && idx == r.idx
    {
      count, idx := 0, start;
      ghost var total := Unpacked(data, start, limit, l, resolution);
      ghost var done := [];
      while idx < limit
        invariant RunOnTrack(data, total, limit, l, resolution, done, idx)
        invariant |done| == count
        invariant Holds(acc[..], done, old(acc[..]))
        decreases |data| - idx
      {
        ghost var at := idx;
        RunStaysOnTrack(data, total, limit, l, resolution, done, idx);
        idx, count := UnpackAccFrame(acc, count, idx, l.Stride(), l.Offset());
        idx := CheckEmptyFifo(idx);
        if at + l.Stride() <= |data| {
          done := done + [AccelSample(data, at + l.Offset(), resolution)];
        }
      }
    }

    method ExtractAccelHeaderless(acc: array<Sample>, n: uint16) returns (count: nat)
      requires n <= acc.Length && |data| < 0x1_0000
      modifies this`accelStart, acc
      ensures match LayoutOf(dataEnable)
              case None => count == 0 && accelStart == |data| && acc[..] == old(acc[..])
              case Some(l) =>
                var r := Request(data, old(accelStart), n, dummyByte, l, resolution);
                Holds(acc[..], r.out, old(acc[..])) && count == |r.out| <= n && accelStart == r.idx
    {
      match LayoutOf(dataEnable)
      case None => count, accelStart := 0, |data|;
      case Some(l) =>
        var idx, limit := GetAccelLenToParse(n, l);
        RequestIsBounded(data, accelStart, n, dummyByte, l, resolution);
        count, idx := UnpackRun(acc, idx, limit, l);
        accelStart := idx;
    }

    /** The driver's entry point: header mode or header-less mode, as the FIFO was configured. */
    method ExtractAccel(acc: array<Sample>, n: uint16) returns (count: nat)
      requires 1 <= n <= acc.Length && |data| <= MAX_LENGTH
      modifies this`accelStart, this`ctr, acc
      ensures var p := HeaderCall(data, dummyByte, old(accelStart), n, AccelSensor(resolution), old(ctr));
              headerEnable ==>
                && Holds(acc[..], p.out, old(acc[..])) && count == |p.out| <= n
                && ctr == p.ctr && accelStart == p.idx
      ensures !headerEnable && LayoutOf(dataEnable).Some? ==>
                var r := Request(data, old(accelStart), n, dummyByte, LayoutOf(dataEnable).value, resolution);
                Holds(acc[..], r.out, old(acc[..])) && count == |r.out| <= n && accelStart == r.idx
      ensures !headerEnable && LayoutOf(dataEnable).None? ==>
                count == 0 && accelStart == |data| && acc[..] == old(acc[..])
      ensures !headerEnable ==> ctr == old(ctr)
    {
      if headerEnable {
        count := ExtractAccelHeaderMode(acc, n);
      } else {
        count := ExtractAccelHeaderless(acc, n);
      }
    }
  }
}

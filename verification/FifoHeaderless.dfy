/** Header-less extraction of accelerations (bma4.c): the read-out is one long run of equal-sized samples, ended by its
    length, by the number of samples requested, or by the bytes 0x80, 0x00 that the sensor returns when it is empty. */
module FifoHeaderless {
  import opened MachineInts
  import opened FifoFrames
  import opened FifoEncoder

  const FIFO_A_ENABLE: byte := 0x40
  const FIFO_M_A_ENABLE: byte := 0x60

  const EMPTY_MARK_0: byte := 0x80
  const EMPTY_MARK_1: byte := 0x00

  /** The size of a sample and where its acceleration starts; the magnetometer's bytes come first. */
  datatype Layout = AccelOnly | MagAccel {
    function Stride(): nat {
      if AccelOnly? then FIFO_A_LENGTH else FIFO_MA_LENGTH
    }

    function Offset(): nat {
      if AccelOnly? then 0 else FIFO_M_LENGTH
    }

    /** The index of sample k of a run that starts at i. */
    function Index(i: nat, k: nat): nat {
      if AccelOnly? then i + k * 6 else i + k * 14
    }
  }

  /** The empty mark is looked for only where two bytes are not the last ones of the data. */
  predicate EmptyAt(d: seq<byte>, i: nat) {
    i + 2 < |d| && d[i] == EMPTY_MARK_0 && d[i + 1] == EMPTY_MARK_1
  }

  function LayoutOf(dataEnable: byte): Option<Layout> {
    if dataEnable == FIFO_A_ENABLE then Some(AccelOnly)
    else if dataEnable == FIFO_M_A_ENABLE then Some(MagAccel)
    else None
  }

  /** The enable bits name the sensors: bit 6 the accelerometer and bit 5 the magnetometer. */
  lemma LayoutByBits(accel: bool, mag: bool)
    ensures LayoutOf((if accel then 64 else 0) + if mag then 32 else 0)
         == if accel && mag then Some(MagAccel) else if accel then Some(AccelOnly) else None
  {
  }

  datatype Run = Run(out: seq<Sample>, idx: nat)

  /** The index the loop continues from after a complete sample. */
  function AfterSample(d: seq<byte>, next: nat): nat {
    if EmptyAt(d, next) then |d| else next
  }

  /** The loop over the samples, from index i up to a limit. */
  function Unpacked(d: seq<byte>, i: nat, limit: nat, l: Layout, res: byte): Run
    requires limit <= |d|
    decreases |d| - i
  {
    if i >= limit then Run([], i)
    else if i + l.Stride() > |d| then Run([], |d|)
    else
      var rest := Unpacked(d, AfterSample(d, i + l.Stride()), limit, l, res);
      Run([AccelSample(d, i + l.Offset(), res)] + rest.out, rest.idx)
  }

  /** The reasons to stop before sample k of the run that starts at i. */
  predicate StopsAt(d: seq<byte>, i: nat, limit: nat, l: Layout, k: nat) {
    var at := l.Index(i, k);
    at >= limit || at + l.Stride() > |d| || (k > 0 && EmptyAt(d, at))
  }

  lemma IndexShifts(i: nat, l: Layout, k: nat)
    ensures l.Index(i + l.Stride(), k) == l.Index(i, k + 1)
  {
  }

  lemma StopsShift(d: seq<byte>, i: nat, limit: nat, l: Layout, k: nat)
    requires !EmptyAt(d, i + l.Stride())
    ensures StopsAt(d, i, limit, l, k + 1) == StopsAt(d, i + l.Stride(), limit, l, k)
  {
    IndexShifts(i, l, k);
    assert l.Index(i, 1) == i + l.Stride();
  }

  lemma OneMoreSample(d: seq<byte>, i: nat, limit: nat, l: Layout, res: byte)
    requires limit <= |d| && !StopsAt(d, i, limit, l, 0)
    ensures |Unpacked(d, i, limit, l, res).out|
         == if EmptyAt(d, i + l.Stride()) then 1 else 1 + |Unpacked(d, i + l.Stride(), limit, l, res).out|
  {
    assert Unpacked(d, |d|, limit, l, res).out == [];
  }

  /** The number of samples delivered is the least one with a reason to stop. */
  lemma {:induction false} UnpackedIsLongestRun(d: seq<byte>, i: nat, limit: nat, l: Layout, res: byte)
    requires limit <= |d|
    ensures var n := |Unpacked(d, i, limit, l, res).out|;
            StopsAt(d, i, limit, l, n) && forall k :: 0 <= k < n ==> !StopsAt(d, i, limit, l, k)
    decreases |d| - i
  {
    if !StopsAt(d, i, limit, l, 0) {
      var next := i + l.Stride();
      OneMoreSample(d, i, limit, l, res);
      if EmptyAt(d, next) {
        assert l.Index(i, 1) == next;
      } else {
        var n := |Unpacked(d, next, limit, l, res).out|;
        UnpackedIsLongestRun(d, next, limit, l, res);
        StopsShift(d, i, limit, l, n);
        forall k | 0 < k <= n
          ensures !StopsAt(d, i, limit, l, k)
        {
          StopsShift(d, i, limit, l, k - 1);
        }
      }
    }
  }

  /** Each of them is decoded from its own place in the data. */
  lemma {:induction false} UnpackedSample(d: seq<byte>, i: nat, limit: nat, l: Layout, res: byte, k: nat)
    requires limit <= |d| && k < |Unpacked(d, i, limit, l, res).out|
    ensures l.Index(i, k) + l.Stride() <= |d|
    ensures Unpacked(d, i, limit, l, res).out[k] == AccelSample(d, l.Index(i, k) + l.Offset(), res)
    decreases k
  {
    if k > 0 {
      var next := i + l.Stride();
      var s := Unpacked(d, AfterSample(d, next), limit, l, res).out;
      assert Unpacked(d, i, limit, l, res).out[k] == s[k - 1];
      IndexShifts(i, l, k - 1);
      UnpackedSample(d, next, limit, l, res, k - 1);
    }
  }

  /** Where the next extraction resumes: at the end of the data, or after the samples if the limit was reached first. */
  lemma {:induction false} UnpackedResumesAfterRun(d: seq<byte>, i: nat, limit: nat, l: Layout, res: byte)
    requires limit <= |d|
    ensures var r := Unpacked(d, i, limit, l, res);
            var after := l.Index(i, |r.out|);
            r.idx == if after >= limit && !(|r.out| > 0 && EmptyAt(d, after)) then after else |d|
    decreases |d| - i
  {
    if !StopsAt(d, i, limit, l, 0) {
      var next := i + l.Stride();
      IndexShifts(i, l, 0);
      if EmptyAt(d, next) {
        assert Unpacked(d, |d|, limit, l, res) == Run([], |d|);
      } else {
        UnpackedResumesAfterRun(d, next, limit, l, res);
        IndexShifts(i, l, |Unpacked(d, next, limit, l, res).out|);
      }
    }
  }

  /** The dummy byte of an SPI read is skipped on the first extraction only. */
  function DummyByte(start: nat, dummy: byte): byte {
    if start == 0 then dummy else 0
  }

  /** The limit for a request of n samples. It does not include the index the extraction starts from. */
  function Limit(d: seq<byte>, start: nat, n: uint16, dummy: byte, l: Layout): nat {
    var bytes := U16(n * l.Stride() + DummyByte(start, dummy));
    if bytes > |d| then |d| else bytes
  }

  /** One call that requests n samples, with the index left by the previous call. */
  function Request(d: seq<byte>, start: nat, n: uint16, dummy: byte, l: Layout, res: byte): Run {
    Unpacked(d, start + DummyByte(start, dummy), Limit(d, start, n, dummy, l), l, res)
  }

  /** No 16-bit truncation of the limit. */
  predicate RequestFits(n: uint16, dummy: byte, l: Layout) {
    n * l.Stride() + dummy < 0x1_0000
  }

  function Min(a: nat, b: nat): nat {
    if a <= b then a else b
  }

  lemma LimitIsExact(d: seq<byte>, start: nat, n: uint16, dummy: byte, l: Layout)
    requires RequestFits(n, dummy, l)
    ensures Limit(d, start, n, dummy, l) == Min(l.Index(DummyByte(start, dummy), n), |d|)
  {
  }

  /** Beyond that the limit is truncated to 16 bits: a request for 10923 samples of six bytes is one for two bytes. */
  lemma LimitTruncated(d: seq<byte>)
    ensures Limit(d, 0, 10923, 0, AccelOnly) == Min(2, |d|)
  {
  }

  /** No call delivers more than it was asked for. */
  lemma RequestIsBounded(d: seq<byte>, start: nat, n: uint16, dummy: byte, l: Layout, res: byte)
    ensures |Request(d, start, n, dummy, l, res).out| <= n
  {
    var i, limit := start + DummyByte(start, dummy), Limit(d, start, n, dummy, l);
    UnpackedIsLongestRun(d, i, limit, l, res);
    assert limit <= n * l.Stride() + DummyByte(start, dummy) <= l.Index(i, n);
    assert StopsAt(d, i, limit, l, n);
  }

  /** A first call never delivers more than was asked for, and stops short only where the data ends or the sensor was
      empty. */
  lemma FirstRequestIsLongestRun(d: seq<byte>, n: uint16, dummy: byte, l: Layout, res: byte)
    requires RequestFits(n, dummy, l)
    ensures var r := Request(d, 0, n, dummy, l, res).out;
            && |r| <= n
            && (forall k :: 0 < k < |r| ==> !EmptyAt(d, l.Index(dummy, k)))
            && (|r| < n ==> var at := l.Index(dummy, |r|);
                            at + l.Stride() > |d| || (|r| > 0 && EmptyAt(d, at)))
  {
    var limit := Limit(d, 0, n, dummy, l);
    LimitIsExact(d, 0, n, dummy, l);
    UnpackedIsLongestRun(d, dummy, limit, l, res);
    var r := Unpacked(d, dummy, limit, l, res).out;
    assert |r| > n ==> !StopsAt(d, dummy, limit, l, n);
    forall k | 0 < k < |r|
      ensures !EmptyAt(d, l.Index(dummy, k))
    {
      assert !StopsAt(d, dummy, limit, l, k);
    }
  }

  /** No empty mark follows the first sample of a run that goes on. */
  lemma NoMarkBetween(d: seq<byte>, i: nat, limit: nat, l: Layout, res: byte)
    requires limit <= |d| && |Unpacked(d, i, limit, l, res).out| > 1
    ensures !EmptyAt(d, i + l.Stride())
  {
    assert Unpacked(d, |d|, limit, l, res).out == [];
  }

  /** The samples beyond the first are those of a loop started at the next one. */
  lemma UnpackedFromNext(d: seq<byte>, i: nat, limit: nat, l: Layout, res: byte)
    requires limit <= |d| && 1 <= |Unpacked(d, i, limit, l, res).out| && !EmptyAt(d, i + l.Stride())
    ensures Unpacked(d, i, limit, l, res).out[1..] == Unpacked(d, i + l.Stride(), limit, l, res).out
  {
  }

  /** The samples beyond the first k are those of a loop started at sample k. */
  lemma {:induction false} UnpackedFrom(d: seq<byte>, i: nat, limit: nat, l: Layout, res: byte, k: nat)
    requires limit <= |d| && k <= |Unpacked(d, i, limit, l, res).out|
    requires k > 0 ==> !EmptyAt(d, l.Index(i, k))
    ensures Unpacked(d, l.Index(i, k), limit, l, res).out == Unpacked(d, i, limit, l, res).out[k..]
    decreases k
  {
    if k > 0 {
      var next := i + l.Stride();
      IndexShifts(i, l, k - 1);
      if k > 1 {
        NoMarkBetween(d, i, limit, l, res);
      }
      UnpackedFromNext(d, i, limit, l, res);
      UnpackedFrom(d, next, limit, l, res, k - 1);
      assert Unpacked(d, i, limit, l, res).out[k..] == Unpacked(d, i, limit, l, res).out[1..][k - 1..];
    }
  }

  /** Two limits that separate the same samples give the same run. */
  lemma {:induction false} LimitsAgree(d: seq<byte>, i: nat, limit1: nat, limit2: nat, l: Layout, res: byte)
    requires limit1 <= |d| && limit2 <= |d|
    requires forall k: nat :: l.Index(i, k) >= limit1 <==> l.Index(i, k) >= limit2
    ensures Unpacked(d, i, limit1, l, res).out == Unpacked(d, i, limit2, l, res).out
    decreases |d| - i
  {
    assert l.Index(i, 0) == i;
    if i < limit1 && i + l.Stride() <= |d| {
      var next := i + l.Stride();
      if !EmptyAt(d, next) {
        forall k: nat
          ensures l.Index(next, k) >= limit1 <==> l.Index(next, k) >= limit2
        {
          IndexShifts(i, l, k);
        }
        LimitsAgree(d, next, limit1, limit2, l, res);
      }
    }
  }

  lemma DummyByteSeparatesNothing(dummy: byte, k: nat, total: nat, length: nat, l: Layout)
    requires dummy < 6
    ensures l.Index(dummy, k) >= Min(l.Index(dummy, total), length)
       <==> l.Index(dummy, k) >= Min(l.Index(0, total), length)
  {
    assert k >= total + 1 || k == total || k <= total - 1;
  }

  /** A call that resumes after `before` samples treats its request as a total from the beginning, not as an increment:
      it delivers what one call for that total would deliver beyond the first `before` samples. */
  lemma ResumedRequestIsATotal(d: seq<byte>, before: nat, total: uint16, dummy: byte, l: Layout, res: byte)
    requires RequestFits(total, dummy, l) && dummy < 6
    requires 0 < before <= |Request(d, 0, total, dummy, l, res).out| && !EmptyAt(d, l.Index(dummy, before))
    ensures Request(d, l.Index(dummy, before), total, dummy, l, res).out
         == Request(d, 0, total, dummy, l, res).out[before..]
  {
    var at := l.Index(dummy, before);
    var limit1, limit2 := Limit(d, 0, total, dummy, l), Limit(d, at, total, dummy, l);
    UnpackedFrom(d, dummy, limit1, l, res, before);
    LimitIsExact(d, 0, total, dummy, l);
    LimitIsExact(d, at, total, dummy, l);
    forall k: nat
      ensures l.Index(at, k) >= limit1 <==> l.Index(at, k) >= limit2
    {
      DummyByteSeparatesNothing(dummy, before + k, total, |d|, l);
    }
    LimitsAgree(d, at, limit1, limit2, l, res);
  }

  function Max(a: nat, b: nat): nat {
    if a >= b then a else b
  }

  /** Loops with two limits agree on the samples both deliver. */
  lemma SameSamples(d: seq<byte>, i: nat, limit1: nat, limit2: nat, l: Layout, res: byte)
    requires limit1 <= |d| && limit2 <= |d|
    requires |Unpacked(d, i, limit1, l, res).out| <= |Unpacked(d, i, limit2, l, res).out|
    ensures Unpacked(d, i, limit1, l, res).out <= Unpacked(d, i, limit2, l, res).out
  {
    var r1, r2 := Unpacked(d, i, limit1, l, res).out, Unpacked(d, i, limit2, l, res).out;
    forall k | 0 <= k < |r1|
      ensures r1[k] == r2[k]
    {
      UnpackedSample(d, i, limit1, l, res, k);
      UnpackedSample(d, i, limit2, l, res, k);
    }
  }

  /** A smaller request delivers a prefix of a larger one. */
  lemma SmallerRequestIsPrefix(d: seq<byte>, n: uint16, m: uint16, dummy: byte, l: Layout, res: byte)
    requires RequestFits(n, dummy, l) && RequestFits(m, dummy, l) && n <= m
    ensures Request(d, 0, n, dummy, l, res).out <= Request(d, 0, m, dummy, l, res).out
    ensures |Request(d, 0, n, dummy, l, res).out| == Min(n, |Request(d, 0, m, dummy, l, res).out|)
  {
    var limit1, limit2 := Limit(d, 0, n, dummy, l), Limit(d, 0, m, dummy, l);
    LimitIsExact(d, 0, n, dummy, l);
    LimitIsExact(d, 0, m, dummy, l);
    UnpackedIsLongestRun(d, dummy, limit1, l, res);
    UnpackedIsLongestRun(d, dummy, limit2, l, res);
    var a, b := |Unpacked(d, dummy, limit1, l, res).out|, |Unpacked(d, dummy, limit2, l, res).out|;
    FirstRequestIsLongestRun(d, n, dummy, l, res);
    assert a < Min(n, b) ==> !StopsAt(d, dummy, limit2, l, a);
    assert a > b ==> !StopsAt(d, dummy, limit1, l, b);
    SameSamples(d, dummy, limit1, limit2, l, res);
  }

  /** Where the first of two calls leaves the index, when more samples follow. */
  lemma IndexBeforeMore(d: seq<byte>, n: uint16, m: uint16, dummy: byte, l: Layout, res: byte)
    requires RequestFits(n, dummy, l) && RequestFits(m, dummy, l)
    requires n < |Request(d, 0, m, dummy, l, res).out|
    ensures Request(d, 0, n, dummy, l, res).idx == l.Index(dummy, n)
    ensures n > 0 ==> !EmptyAt(d, l.Index(dummy, n))
  {
    RequestIsBounded(d, 0, m, dummy, l, res);
    SmallerRequestIsPrefix(d, n, m, dummy, l, res);
    var limit := Limit(d, 0, m, dummy, l);
    UnpackedIsLongestRun(d, dummy, limit, l, res);
    assert !StopsAt(d, dummy, limit, l, n);
    LimitIsExact(d, 0, n, dummy, l);
    UnpackedResumesAfterRun(d, dummy, Limit(d, 0, n, dummy, l), l, res);
  }

  /** Where it leaves the index when no more samples follow: too close to the end for another one. */
  lemma IndexAtTheEnd(d: seq<byte>, n: uint16, m: uint16, dummy: byte, l: Layout, res: byte)
    requires RequestFits(n, dummy, l) && RequestFits(m, dummy, l) && 1 <= n < m
    requires |Request(d, 0, m, dummy, l, res).out| <= n
    ensures Request(d, 0, n, dummy, l, res).idx + l.Stride() > |d|
  {
    SmallerRequestIsPrefix(d, n, m, dummy, l, res);
    FirstRequestIsLongestRun(d, m, dummy, l, res);
    LimitIsExact(d, 0, n, dummy, l);
    UnpackedResumesAfterRun(d, dummy, Limit(d, 0, n, dummy, l), l, res);
  }

  lemma NothingFromTheEnd(d: seq<byte>, start: nat, m: uint16, dummy: byte, l: Layout, res: byte)
    requires start + l.Stride() > |d|
    ensures Request(d, start, m, dummy, l, res).out == []
  {
  }

  /** A call that resumes after n samples with a request for no more than n delivers nothing. */
  lemma NothingFromASmallerTotal(d: seq<byte>, n: nat, m: uint16, dummy: byte, l: Layout, res: byte)
    requires RequestFits(m, dummy, l) && 1 <= n && m <= n
    ensures Request(d, l.Index(dummy, n), m, dummy, l, res).out == []
  {
    LimitIsExact(d, l.Index(dummy, n), m, dummy, l);
  }

  /** So repeating a request that was met in full delivers nothing, however much data is left: unlike header mode,
      extraction cannot be resumed. */
  lemma RepeatedRequestDeliversNothing(d: seq<byte>, n: uint16, dummy: byte, l: Layout, res: byte)
    requires RequestFits(n, dummy, l) && n > 0 && |Request(d, 0, n, dummy, l, res).out| == n
    ensures Request(d, Request(d, 0, n, dummy, l, res).idx, n, dummy, l, res).out == []
  {
    var at := Request(d, 0, n, dummy, l, res).idx;
    UnpackedResumesAfterRun(d, dummy, Limit(d, 0, n, dummy, l), l, res);
    if at == l.Index(dummy, n) {
      NothingFromASmallerTotal(d, n, n, dummy, l, res);
    } else {
      NothingFromTheEnd(d, at, n, dummy, l, res);
    }
  }

  /** With a larger second request the two calls deliver what one call for that request delivers. */
  lemma SecondCallReachesTotal(d: seq<byte>, n: uint16, m: uint16, dummy: byte, l: Layout, res: byte)
    requires 1 <= n < m && RequestFits(m, dummy, l) && dummy < 6
    requires n <= |Request(d, 0, m, dummy, l, res).out| && !EmptyAt(d, l.Index(dummy, n))
    ensures Request(d, 0, n, dummy, l, res).out + Request(d, l.Index(dummy, n), m, dummy, l, res).out
         == Request(d, 0, m, dummy, l, res).out
  {
    SmallerRequestIsPrefix(d, n, m, dummy, l, res);
    ResumedRequestIsATotal(d, n, m, dummy, l, res);
    var a, u := Request(d, 0, n, dummy, l, res).out, Request(d, 0, m, dummy, l, res).out;
    assert a + u[n..] == u;
  }

  /** Two calls for n and m samples deliver what one call for n + m delivers if and only if there are no more samples
      than the larger of the two requests. */
  lemma HeaderlessCallsComposeIff(d: seq<byte>, n: uint16, m: uint16, dummy: byte, l: Layout, res: byte)
    requires n >= 1 && m >= 1 && n + m < 0x1_0000 && RequestFits(n + m, dummy, l) && dummy < 6
    ensures var first := Request(d, 0, n, dummy, l, res);
            var all := Request(d, 0, n + m, dummy, l, res).out;
            first.out + Request(d, first.idx, m, dummy, l, res).out == all <==> |all| <= Max(n, m)
  {
    var first, all := Request(d, 0, n, dummy, l, res), Request(d, 0, n + m, dummy, l, res).out;
    SmallerRequestIsPrefix(d, n, n + m, dummy, l, res);
    if |all| <= n {
      IndexAtTheEnd(d, n, n + m, dummy, l, res);
      NothingFromTheEnd(d, first.idx, m, dummy, l, res);
    } else {
      IndexBeforeMore(d, n, n + m, dummy, l, res);
      if m <= n {
        NothingFromASmallerTotal(d, n, m, dummy, l, res);
      } else {
        SmallerRequestIsPrefix(d, m, n + m, dummy, l, res);
        SecondCallReachesTotal(d, n, m, dummy, l, res);
      }
    }
  }

  /** Two samples in twelve bytes: one call for two delivers both, two calls for one deliver the first alone. */
  lemma HeaderlessResumeFails()
    ensures var d: seq<byte> := [1, 0, 2, 0, 3, 0, 4, 0, 5, 0, 6, 0];
            var first := Request(d, 0, 1, 0, AccelOnly, 16);
            && Request(d, 0, 2, 0, AccelOnly, 16).out == [Accel(1, 2, 3), Accel(4, 5, 6)]
            && first == Run([Accel(1, 2, 3)], 6) && Request(d, first.idx, 1, 0, AccelOnly, 16).out == []
  {
    var d: seq<byte> := [1, 0, 2, 0, 3, 0, 4, 0, 5, 0, 6, 0];
    assert AccelSample(d, 0, 16) == Accel(1, 2, 3) && AccelSample(d, 6, 16) == Accel(4, 5, 6);
    assert Unpacked(d, 6, 12, AccelOnly, 16) == Run([Accel(4, 5, 6)], 12);
    assert Unpacked(d, 0, 12, AccelOnly, 16) == Run([Accel(1, 2, 3)] + [Accel(4, 5, 6)], 12);
    assert Unpacked(d, 6, 6, AccelOnly, 16) == Run([], 6);
    assert Unpacked(d, 0, 6, AccelOnly, 16) == Run([Accel(1, 2, 3)], 6);
  }

  /** In the last two bytes of the data the mark is not looked for: the index stays where the request ends. */
  lemma MarkInLastBytes()
    ensures Request([1, 0, 2, 0, 3, 0, 0x80, 0], 0, 1, 0, AccelOnly, 16).idx == 6
    ensures Request([1, 0, 2, 0, 3, 0, 0x80, 0, 0], 0, 1, 0, AccelOnly, 16).idx == 9
  {
    var d: seq<byte> := [1, 0, 2, 0, 3, 0, 0x80, 0];
    var e: seq<byte> := [1, 0, 2, 0, 3, 0, 0x80, 0, 0];
    assert Unpacked(d, 6, 6, AccelOnly, 16) == Run([], 6);
    assert Unpacked(e, 9, 6, AccelOnly, 16) == Run([], 9);
  }

  /** A sample as the sensor stores it without a header. */
  datatype Block = Block(mag: seq<byte>, v: Vector)

  predicate WellFormed(b: Block, l: Layout, res: byte) {
    |b.mag| == l.Offset() && Fits(b.v, res)
  }

  function BlockBytes(b: Block, l: Layout, res: byte): (r: seq<byte>)
    requires WellFormed(b, l, res)
    ensures |r| == l.Stride()
  {
    b.mag + VectorBytes(b.v, res)
  }

  function EncodeBlocks(bs: seq<Block>, l: Layout, res: byte): (r: seq<byte>)
    requires forall k :: 0 <= k < |bs| ==> WellFormed(bs[k], l, res)
    ensures |r| == l.Index(0, |bs|)
  {
    if bs == [] then [] else BlockBytes(bs[0], l, res) + EncodeBlocks(bs[1..], l, res)
  }

  /** A sample that looks like the mark of an empty FIFO. */
  predicate LooksEmpty(b: Block, l: Layout, res: byte)
    requires WellFormed(b, l, res)
  {
    var bytes := BlockBytes(b, l, res);
    bytes[0] == EMPTY_MARK_0 && bytes[1] == EMPTY_MARK_1
  }

  /** In the accelerometer-only layout these are the samples whose raw x value is 0x0080. */
  lemma LooksEmptyByRawX(b: Block, res: byte)
    requires WellFormed(b, AccelOnly, res)
    ensures LooksEmpty(b, AccelOnly, res) <==> b.v.x * Unit(res) == 0x80
  {
    var raw := b.v.x * Unit(res);
    assert BlockBytes(b, AccelOnly, res)[..2] == AxisBytes(b.v.x, res);
    RawSurvives(raw);
  }

  lemma {:induction false} BlockAt(d: seq<byte>, i: nat, bs: seq<Block>, l: Layout, res: byte, k: nat)
    requires forall m :: 0 <= m < |bs| ==> WellFormed(bs[m], l, res)
    requires At(d, i, EncodeBlocks(bs, l, res)) && k < |bs|
    ensures At(d, l.Index(i, k), BlockBytes(bs[k], l, res))
    decreases k
  {
    AtSplits(d, i, BlockBytes(bs[0], l, res), EncodeBlocks(bs[1..], l, res));
    if k > 0 {
      IndexShifts(i, l, k - 1);
      BlockAt(d, i + l.Stride(), bs[1..], l, res, k - 1);
    }
  }

  lemma BlockRoundTrip(d: seq<byte>, at: nat, b: Block, l: Layout, res: byte)
    requires WellFormed(b, l, res) && At(d, at, BlockBytes(b, l, res))
    ensures AccelSample(d, at + l.Offset(), res) == Accel(b.v.x, b.v.y, b.v.z)
    ensures EmptyAt(d, at) <==> LooksEmpty(b, l, res)
  {
    AtSplits(d, at, b.mag, VectorBytes(b.v, res));
    VectorRoundTrip(d, at + l.Offset(), b.v, res);
    var bytes := BlockBytes(b, l, res);
    assert d[at + 0] == bytes[0] && d[at + 1] == bytes[1];
  }

  function Accelerations(bs: seq<Block>): seq<Sample> {
    seq(|bs|, k requires 0 <= k < |bs| => Accel(bs[k].v.x, bs[k].v.y, bs[k].v.z))
  }

  lemma BlockDecoded(d: seq<byte>, i: nat, bs: seq<Block>, l: Layout, res: byte, k: nat)
    requires forall m :: 0 <= m < |bs| ==> WellFormed(bs[m], l, res)
    requires At(d, i, EncodeBlocks(bs, l, res)) && k < |bs|
    ensures l.Index(i, k) + l.Stride() <= |d|
    ensures AccelSample(d, l.Index(i, k) + l.Offset(), res) == Accelerations(bs)[k]
    ensures EmptyAt(d, l.Index(i, k)) <==> LooksEmpty(bs[k], l, res)
  {
    BlockAt(d, i, bs, l, res, k);
    BlockRoundTrip(d, l.Index(i, k), bs[k], l, res);
  }

  /** Whatever is delivered is what was stored. */
  lemma DeliveredIsPrefix(d: seq<byte>, bs: seq<Block>, i: nat, limit: nat, l: Layout, res: byte)
    requires forall k :: 0 <= k < |bs| ==> WellFormed(bs[k], l, res)
    requires At(d, i, EncodeBlocks(bs, l, res)) && |d| == l.Index(i, |bs|) && limit <= |d|
    ensures Unpacked(d, i, limit, l, res).out <= Accelerations(bs)
  {
    var r := Unpacked(d, i, limit, l, res).out;
    if |r| > 0 {
      UnpackedSample(d, i, limit, l, res, |r| - 1);
    }
    forall k | 0 <= k < |r|
      ensures r[k] == Accelerations(bs)[k]
    {
      UnpackedSample(d, i, limit, l, res, k);
      BlockDecoded(d, i, bs, l, res, k);
    }
  }

  /** A read-out that holds exactly these samples is delivered in full if and only if no sample after the first looks
      like the mark of an empty FIFO; otherwise it is cut before the first one that does. */
  lemma HeaderlessInvertsEncode(d: seq<byte>, bs: seq<Block>, n: uint16, dummy: byte, l: Layout, res: byte)
    requires forall k :: 0 <= k < |bs| ==> WellFormed(bs[k], l, res)
    requires At(d, dummy, EncodeBlocks(bs, l, res)) && |d| == l.Index(dummy, |bs|)
    requires RequestFits(n, dummy, l) && n >= |bs|
    ensures var r := Request(d, 0, n, dummy, l, res).out;
            && r <= Accelerations(bs)
            && (r == Accelerations(bs) <==> forall k :: 0 < k < |bs| ==> !LooksEmpty(bs[k], l, res))
            && (|r| < |bs| ==> |r| > 0 && LooksEmpty(bs[|r|], l, res))
  {
    var r := Request(d, 0, n, dummy, l, res).out;
    FirstRequestIsLongestRun(d, n, dummy, l, res);
    DeliveredIsPrefix(d, bs, dummy, Limit(d, 0, n, dummy, l), l, res);
    assert |Accelerations(bs)| == |bs|;
    forall k | 0 <= k < |bs|
      ensures l.Index(dummy, k) + l.Stride() <= |d|
      ensures EmptyAt(d, l.Index(dummy, k)) <==> LooksEmpty(bs[k], l, res)
    {
      BlockDecoded(d, dummy, bs, l, res, k);
    }
  }
}

/** The byte queue under preemption: one writer and one reader whose single-byte copies and index publications
    interleave freely. Each call fixes its split from the indices it reads at its start; a memcpy is a run of
    single-byte copies, which covers every coarser interleaving. */
module EasyFifoInterleaving {
  import opened MachineInts
  import opened EasyFifo

  datatype Writer = WriterIdle | Writing(data: seq<byte>, stored: nat, wplan: Split)

  datatype Reader = ReaderIdle | Reading(len: nat, got: seq<byte>, rplan: Split)

  /** The shared buffer and indices, what each side is in the middle of, and two histories: the bytes of all writes
      that returned true, and the bytes of all reads that returned true. */
  datatype State = State(
    buffer: seq<byte>, front: nat, rear: nat,
    writer: Writer, reader: Reader,
    accepted: seq<byte>, delivered: seq<byte>)

  datatype Action =
    | WriteCall(request: seq<byte>) | StoreByte | PublishRear
    | ReadCall(count: nat) | FetchByte | PublishFront

  ghost predicate Init(s: State) {
    && |s.buffer| == EASY_FIFO_LENGTH && s.front == 0 && s.rear == 0
    && s.writer == WriterIdle && s.reader == ReaderIdle && s.accepted == [] && s.delivered == []
  }

  /** When a step can be taken. Requests have at least one byte. */
  predicate Enabled(s: State, a: Action) {
    match a
    case WriteCall(data) => s.writer.WriterIdle? && 1 <= |data| < 0x1_0000
    case StoreByte => s.writer.Writing? && s.writer.stored < |s.writer.data|
    case PublishRear => s.writer.Writing? && s.writer.stored == |s.writer.data|
    case ReadCall(n) => s.reader.ReaderIdle? && 1 <= n < 0x1_0000
    case FetchByte => s.reader.Reading? && |s.reader.got| < s.reader.len
    case PublishFront => s.reader.Reading? && |s.reader.got| == s.reader.len
  }

  function EmptyLen(s: State): int {
    (s.front + EASY_FIFO_LENGTH - (s.rear + 1)) % EASY_FIFO_LENGTH
  }

  function ValidLen(s: State): int {
    (s.rear + EASY_FIFO_LENGTH - s.front) % EASY_FIFO_LENGTH
  }

  /** The slot a step touches, when it touches one. */
  function StoreSlot(s: State): nat
    requires s.writer.Writing?
  {
    SlotOf(s.rear, s.writer.wplan.first, s.writer.stored)
  }

  function FetchSlot(s: State): nat
    requires s.reader.Reading?
  {
    SlotOf(s.front, s.reader.rplan.first, |s.reader.got|)
  }

  /** The touched slot lies inside the buffer. */
  predicate InBounds(s: State, a: Action)
    requires Enabled(s, a)
  {
    && (a.StoreByte? ==> StoreSlot(s) < |s.buffer|)
    && (a.FetchByte? ==> FetchSlot(s) < |s.buffer|)
  }

  function Apply(s: State, a: Action): State
    requires Enabled(s, a) && InBounds(s, a)
  {
    match a
    case WriteCall(data) =>
      if |data| > EASY_FIFO_LENGTH - 1 then s
      else if EmptyLen(s) >= |data| then s.(writer := Writing(data, 0, SplitAt(s.rear, |data|)))
      else s
    case StoreByte =>
      var w := s.writer;
      s.(buffer := s.buffer[StoreSlot(s) := w.data[w.stored]], writer := w.(stored := w.stored + 1))
    case PublishRear =>
      s.(rear := s.writer.wplan.next, writer := WriterIdle, accepted := s.accepted + s.writer.data)
    case ReadCall(n) =>
      if ValidLen(s) >= n then s.(reader := Reading(n, [], SplitAt(s.front, n))) else s
    case FetchByte =>
      s.(reader := s.reader.(got := s.reader.got + [s.buffer[FetchSlot(s)]]))
    case PublishFront =>
      s.(front := s.reader.rplan.next, reader := ReaderIdle, delivered := s.delivered + s.reader.got)
  }

  /** The slot of the byte with running number i. */
  function Slot(i: nat): (slot: nat)
    ensures slot < EASY_FIFO_LENGTH
  {
    i % EASY_FIFO_LENGTH
  }

  ghost predicate WriterInv(s: State)
    requires |s.buffer| == EASY_FIFO_LENGTH
  {
    var w := s.writer;
    w.Writing? ==>
      && 1 <= |w.data| < EASY_FIFO_LENGTH && |s.accepted| + |w.data| - |s.delivered| <= EASY_FIFO_LENGTH - 1
      && w.stored <= |w.data| && w.wplan == SplitAt(s.rear, |w.data|)
      && forall k :: 0 <= k < w.stored ==> s.buffer[Slot(|s.accepted| + k)] == w.data[k]
  }

  ghost predicate ReaderInv(s: State) {
    var r := s.reader;
    r.Reading? ==>
      && 1 <= r.len < EASY_FIFO_LENGTH && |s.delivered| + r.len <= |s.accepted|
      && |r.got| <= r.len && r.rplan == SplitAt(s.front, r.len)
      && r.got == s.accepted[|s.delivered|..|s.delivered| + |r.got|]
  }

  ghost predicate Inv(s: State) {
    && |s.buffer| == EASY_FIFO_LENGTH
    && s.delivered <= s.accepted && |s.accepted| - |s.delivered| <= EASY_FIFO_LENGTH - 1
    && s.front == Slot(|s.delivered|) && s.rear == Slot(|s.accepted|)
    && (forall i :: |s.delivered| <= i < |s.accepted| ==> s.buffer[Slot(i)] == s.accepted[i])
    && WriterInv(s) && ReaderInv(s)
  }

  lemma SlotsDiffer(i: nat, j: nat)
    requires i < j < i + EASY_FIFO_LENGTH
    ensures Slot(i) != Slot(j)
  {
    var q := i / EASY_FIFO_LENGTH;
    assert i == q * EASY_FIFO_LENGTH + Slot(i);
    var p := j / EASY_FIFO_LENGTH;
    assert j == p * EASY_FIFO_LENGTH + Slot(j);
  }

  lemma SlotAdd(i: nat, k: nat)
    ensures (Slot(i) + k) % EASY_FIFO_LENGTH == Slot(i + k)
  {
    var q := i / EASY_FIFO_LENGTH;
    assert i + k == q * EASY_FIFO_LENGTH + (Slot(i) + k);
  }

  /** The fill level the code computes from the two indices is the number of undelivered bytes. */
  lemma LevelsAgree(s: State)
    requires Inv(s)
    ensures ValidLen(s) == |s.accepted| - |s.delivered|
    ensures EmptyLen(s) == EASY_FIFO_LENGTH - 1 - (|s.accepted| - |s.delivered|)
  {
    var d := |s.accepted| - |s.delivered|;
    SlotAdd(|s.delivered|, d);
    WrapIsCircular(s.front, d);
    UsedSpace(s.front, s.rear);
    FreeSpace(s.front, s.rear);
  }

  lemma StoreSlotIs(s: State)
    requires Inv(s) && Enabled(s, StoreByte)
    ensures StoreSlot(s) == Slot(|s.accepted| + s.writer.stored)
  {
    SlotIsCircular(s.rear, |s.writer.data|, s.writer.stored);
    SlotAdd(|s.accepted|, s.writer.stored);
  }

  lemma FetchSlotIs(s: State)
    requires Inv(s) && Enabled(s, FetchByte)
    ensures FetchSlot(s) == Slot(|s.delivered| + |s.reader.got|)
  {
    SlotIsCircular(s.front, s.reader.len, |s.reader.got|);
    SlotAdd(|s.delivered|, |s.reader.got|);
  }

  lemma InvStoreByte(s: State)
    requires Inv(s) && Enabled(s, StoreByte)
    ensures InBounds(s, StoreByte) && Inv(Apply(s, StoreByte))
  {
    StoreSlotIs(s);
    var at := |s.accepted| + s.writer.stored;
    forall i | |s.delivered| <= i < at
      ensures Slot(i) != Slot(at)
    {
      SlotsDiffer(i, at);
    }
  }

  lemma InvFetchByte(s: State)
    requires Inv(s) && Enabled(s, FetchByte)
    ensures InBounds(s, FetchByte) && Inv(Apply(s, FetchByte))
  {
    FetchSlotIs(s);
    var at := |s.delivered| + |s.reader.got|;
    assert s.buffer[Slot(at)] == s.accepted[at];
  }

  lemma InvPublishRear(s: State)
    requires Inv(s) && Enabled(s, PublishRear)
    ensures Inv(Apply(s, PublishRear))
  {
    SlotAdd(|s.accepted|, |s.writer.data|);
    var t := Apply(s, PublishRear);
    forall i | |t.delivered| <= i < |t.accepted|
      ensures t.buffer[Slot(i)] == t.accepted[i]
    {
      if i >= |s.accepted| {
        var k := i - |s.accepted|;
        assert s.buffer[Slot(|s.accepted| + k)] == s.writer.data[k];
      }
    }
  }

  lemma InvPublishFront(s: State)
    requires Inv(s) && Enabled(s, PublishFront)
    ensures Inv(Apply(s, PublishFront))
  {
    SlotAdd(|s.delivered|, s.reader.len);
    var t := Apply(s, PublishFront);
    assert t.delivered == s.accepted[..|s.delivered| + s.reader.len];
  }

  lemma InvStep(s: State, a: Action)
    requires Inv(s) && Enabled(s, a)
    ensures InBounds(s, a) && Inv(Apply(s, a))
  {
    match a
    case WriteCall(_) => LevelsAgree(s);
    case StoreByte => InvStoreByte(s);
    case PublishRear => InvPublishRear(s);
    case ReadCall(_) => LevelsAgree(s);
    case FetchByte => InvFetchByte(s);
    case PublishFront => InvPublishFront(s);
  }

  /** t is reached from s by taking the given steps in order, each when it is enabled. */
  ghost predicate Run(s: State, steps: seq<Action>, t: State)
    decreases |steps|
  {
    if steps == [] then s == t
    else Enabled(s, steps[0]) && InBounds(s, steps[0]) && Run(Apply(s, steps[0]), steps[1..], t)
  }

  lemma {:induction false} InvRun(s: State, steps: seq<Action>, t: State)
    requires Inv(s) && Run(s, steps, t)
    ensures Inv(t)
    decreases |steps|
  {
    if steps != [] {
      InvStep(s, steps[0]);
      InvRun(Apply(s, steps[0]), steps[1..], t);
    }
  }

  /** Every interleaving delivers a prefix of the accepted bytes, in order; whatever is accepted but not delivered is
      exactly what the indices delimit, even in the middle of a write or a read. */
  lemma InterleavingDeliversInOrder(s: State, steps: seq<Action>, t: State)
    requires Init(s) && Run(s, steps, t)
    ensures t.delivered <= t.accepted
    ensures t.front < |t.buffer| && t.rear < |t.buffer|
    ensures t.accepted == t.delivered + QueuedIn(t.buffer, t.front, t.rear)
  {
    InvRun(s, steps, t);
    QueueIsUndelivered(t);
  }

  /** No step of any interleaving touches memory outside the buffer: a disabled-by-bounds step is never reached. */
  lemma InterleavingStaysInBounds(s: State, steps: seq<Action>, t: State, a: Action)
    requires Init(s) && Run(s, steps, t) && Enabled(t, a)
    ensures InBounds(t, a)
  {
    InvRun(s, steps, t);
    InvStep(t, a);
  }

  /** A write call is accepted exactly when the bytes not yet delivered leave room, whatever a concurrent read has
      copied but not yet published. */
  lemma WriteCallAdmission(s: State, steps: seq<Action>, t: State, data: seq<byte>)
    requires Init(s) && Run(s, steps, t) && Enabled(t, WriteCall(data))
    ensures Apply(t, WriteCall(data)).writer.Writing?
       <==> |t.accepted| - |t.delivered| + |data| <= EASY_FIFO_LENGTH - 1
  {
    InvRun(s, steps, t);
    LevelsAgree(t);
  }

  /** A read call is accepted exactly when that many bytes are accepted and not yet delivered, whatever a concurrent
      write has copied but not yet published. */
  lemma ReadCallAdmission(s: State, steps: seq<Action>, t: State, n: nat)
    requires Init(s) && Run(s, steps, t) && Enabled(t, ReadCall(n))
    ensures Apply(t, ReadCall(n)).reader.Reading? <==> n <= |t.accepted| - |t.delivered|
  {
    InvRun(s, steps, t);
    LevelsAgree(t);
  }

  lemma QueueIsUndelivered(t: State)
    requires Inv(t)
    ensures t.front < |t.buffer| && t.rear < |t.buffer|
    ensures t.accepted == t.delivered + QueuedIn(t.buffer, t.front, t.rear)
  {
    var n := |t.accepted| - |t.delivered|;
    LevelsAgree(t);
    UsedSpace(t.front, t.rear);
    var q := QueuedIn(t.buffer, t.front, t.rear);
    assert |q| == n;
    forall k | 0 <= k < n
      ensures q[k] == t.accepted[|t.delivered| + k]
    {
      SlotAdd(|t.delivered|, k);
      WrapIsCircular(t.front, k);
      assert t.buffer[Slot(|t.delivered| + k)] == t.accepted[|t.delivered| + k];
    }
  }
}

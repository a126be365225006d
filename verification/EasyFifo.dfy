/** The circular byte queue of easy_fifo.c: two indices and a fixed buffer with one slot always free. */
module EasyFifo {
  import opened MachineInts

  const EASY_FIFO_LENGTH: nat := 2800

  /** How a request of len bytes at index start is copied: `first` bytes at start, then `second` bytes at index 0,
      after which the index becomes `next`. */
  datatype Split = Split(next: nat, first: uint16, second: nat)

  function SplitAt(start: nat, len: uint16): Split {
    var next := (start + len) % EASY_FIFO_LENGTH;
    if next <= start then Split(next, U16(len - next), next) else Split(next, len, 0)
  }

  /** Both copies stay inside the buffer and together move exactly len bytes. */
  predicate SplitFits(start: nat, len: uint16) {
    var s := SplitAt(start, len);
    s.first + s.second == len && start + s.first <= EASY_FIFO_LENGTH && s.second <= EASY_FIFO_LENGTH
  }

  /** The exact condition for a request to be copied in bounds. A zero-length request at a non-zero index takes the
      wrapping branch and its first copy length underflows to nearly 64 KiB. */
  lemma SplitFitsExactly(start: nat, len: uint16)
    requires start < EASY_FIFO_LENGTH && len < EASY_FIFO_LENGTH
    ensures SplitFits(start, len) <==> len >= 1 || start == 0
  {
    WrapIsCircular(start, len);
  }

  /** Where byte k of a split request lives. */
  function SlotOf(start: nat, first: nat, k: nat): nat {
    if k < first then start + k else k - first
  }

  lemma SlotIsCircular(start: nat, len: uint16, k: nat)
    requires start < EASY_FIFO_LENGTH && len < EASY_FIFO_LENGTH && k < len
    ensures SlotOf(start, SplitAt(start, len).first, k) == (start + k) % EASY_FIFO_LENGTH
  {
    WrapIsCircular(start, len);
    WrapIsCircular(start, k);
  }

  /** Index arithmetic around a buffer of the given capacity: k steps on from start, and the steps from one index to
      another. */
  function Circular(start: nat, k: nat, capacity: nat): int {
    if start + k < capacity then start + k else start + k - capacity
  }

  function Distance(from: nat, to: nat, capacity: nat): int {
    if from <= to then to - from else capacity - from + to
  }

  lemma WrapIsCircular(start: nat, k: nat)
    requires start < EASY_FIFO_LENGTH && k < EASY_FIFO_LENGTH
    ensures (start + k) % EASY_FIFO_LENGTH == Circular(start, k, EASY_FIFO_LENGTH)
  {
    var total := start + k;
    if total >= EASY_FIFO_LENGTH {
      assert total % EASY_FIFO_LENGTH == (total - EASY_FIFO_LENGTH) % EASY_FIFO_LENGTH;
    }
  }

  lemma UsedSpace(front: nat, rear: nat)
    requires front < EASY_FIFO_LENGTH && rear < EASY_FIFO_LENGTH
    ensures (rear + EASY_FIFO_LENGTH - front) % EASY_FIFO_LENGTH == Distance(front, rear, EASY_FIFO_LENGTH)
  {
  }

  lemma FreeSpace(front: nat, rear: nat)
    requires front < EASY_FIFO_LENGTH && rear < EASY_FIFO_LENGTH
    ensures (front + EASY_FIFO_LENGTH - (rear + 1)) % EASY_FIFO_LENGTH
         == EASY_FIFO_LENGTH - 1 - Distance(front, rear, EASY_FIFO_LENGTH)
  {
  }

  /** The bytes between the two indices, oldest first. */
  function QueuedIn(buffer: seq<byte>, front: nat, rear: nat): (q: seq<byte>)
    requires front < |buffer| && rear < |buffer|
  {
    seq(Distance(front, rear, |buffer|),
        k requires 0 <= k < Distance(front, rear, |buffer|) => buffer[Circular(front, k, |buffer|)])
  }

  method Memcpy(dst: array<byte>, dstAt: nat, src: array<byte>, srcAt: nat, n: nat)
    requires dst != src && dstAt + n <= dst.Length && srcAt + n <= src.Length
    modifies dst
    ensures forall k :: dstAt <= k < dstAt + n ==> dst[k] == src[srcAt + k - dstAt]
    ensures forall k :: 0 <= k < dst.Length && !(dstAt <= k < dstAt + n) ==> dst[k] == old(dst[k])
  {
    for j := 0 to n
      invariant forall k :: dstAt <= k < dstAt + j ==> dst[k] == src[srcAt + k - dstAt]
      invariant forall k :: 0 <= k < dst.Length && !(dstAt <= k < dstAt + j) ==> dst[k] == old(dst[k])
    {
      dst[dstAt + j] := src[srcAt + j];
    }
  }

  /** The copies of a write: byte j of the request lands j steps after the index, and no other slot changes. */
  method CopyIn(buffer: array<byte>, rear: nat, src: array<byte>, wr_len: uint16, tmp_addr: nat)
    requires rear < buffer.Length < 0x1_0000 && src != buffer && wr_len <= src.Length && wr_len < buffer.Length
    requires wr_len >= 1 || rear == 0
    requires tmp_addr == Circular(rear, wr_len, buffer.Length)
    modifies buffer
    ensures forall k :: 0 <= k < buffer.Length && Distance(rear, k, buffer.Length) < wr_len
                    ==> buffer[k] == src[Distance(rear, k, buffer.Length)]
    ensures forall k :: 0 <= k < buffer.Length && Distance(rear, k, buffer.Length) >= wr_len
                    ==> buffer[k] == old(buffer[k])
  {
    if tmp_addr <= rear {
      var tmp_len := U16(wr_len - tmp_addr);
      Memcpy(buffer, rear, src, 0, tmp_len);
      Memcpy(buffer, 0, src, tmp_len, tmp_addr);
    } else {
      Memcpy(buffer, rear, src, 0, wr_len);
    }
  }

  /** The copies of a read: byte j of the result comes from j steps after the index. */
  method CopyOut(buffer: array<byte>, front: nat, dst: array<byte>, rd_len: uint16, tmp_addr: nat)
    requires front < buffer.Length < 0x1_0000 && dst != buffer && rd_len <= dst.Length && rd_len < buffer.Length
    requires rd_len >= 1 || front == 0
    requires tmp_addr == Circular(front, rd_len, buffer.Length)
    modifies dst
    ensures forall j :: 0 <= j < rd_len ==> dst[j] == buffer[Circular(front, j, buffer.Length)]
    ensures forall j :: rd_len <= j < dst.Length ==> dst[j] == old(dst[j])
  {
    if tmp_addr <= front {
      var tmp_len := U16(rd_len - tmp_addr);
      Memcpy(dst, 0, buffer, front, tmp_len);
      Memcpy(dst, tmp_len, buffer, 0, tmp_addr);
    } else {
      Memcpy(dst, 0, buffer, front, rd_len);
    }
  }

  class EasyFifo {
    var front: nat
    var rear: nat
    const buffer: array<byte>

    ghost predicate Valid()
      reads this
    {
      buffer.Length == EASY_FIFO_LENGTH && front < EASY_FIFO_LENGTH && rear < EASY_FIFO_LENGTH
    }

    /** The queued bytes, oldest first. */
    ghost function Queued(): seq<byte>
      reads this, buffer
      requires Valid()
    {
      QueuedIn(buffer[..], front, rear)
    }

    constructor ()
      ensures Valid() && Queued() == []
    {
      front, rear := 0, 0;
      buffer := new byte[EASY_FIFO_LENGTH];
    }

    /** Appends the request, exactly when it leaves one slot free. */
    method Write(src: array<byte>, wr_len: uint16) returns (ok: bool)
      requires Valid() && src != buffer && wr_len <= src.Length
      requires wr_len >= 1 || rear == 0
      modifies this`rear, buffer
      ensures Valid()
      ensures ok <==> |old(Queued())| + wr_len <= EASY_FIFO_LENGTH - 1
      ensures Queued() == if ok then old(Queued()) + src[..wr_len] else old(Queued())
    {
      if wr_len > EASY_FIFO_LENGTH - 1 {
        return false;
      }
      var empty_len := (front + EASY_FIFO_LENGTH - (rear + 1)) % EASY_FIFO_LENGTH;
      FreeSpace(front, rear);
      if empty_len >= wr_len {
        var tmp_addr := (rear + wr_len) % EASY_FIFO_LENGTH;
        WrapIsCircular(rear, wr_len);
        CopyIn(buffer, rear, src, wr_len, tmp_addr);
        AppendedQueue(old(buffer[..]), buffer[..], front, rear, src[..wr_len]);
        rear := tmp_addr;
        return true;
      }
      return false;
    }

    /** Removes the oldest bytes, exactly when that many are queued. */
    method Read(dst: array<byte>, rd_len: uint16) returns (ok: bool)
      requires Valid() && dst != buffer && rd_len <= dst.Length
      requires rd_len >= 1 || front == 0
      modifies this`front, dst
      ensures Valid()
      ensures ok <==> rd_len <= |old(Queued())|
      ensures ok ==> dst[..rd_len] == old(Queued())[..rd_len] && Queued() == old(Queued())[rd_len..]
      ensures !ok ==> dst[..] == old(dst[..]) && Queued() == old(Queued())
      ensures forall j :: rd_len <= j < dst.Length ==> dst[j] == old(dst[j])
    {
      var valid_len := (rear + EASY_FIFO_LENGTH - front) % EASY_FIFO_LENGTH;
      UsedSpace(front, rear);
      if valid_len >= rd_len {
        var tmp_addr := (front + rd_len) % EASY_FIFO_LENGTH;
        WrapIsCircular(front, rd_len);
        CopyOut(buffer, front, dst, rd_len, tmp_addr);
        RemainingQueue(buffer[..], front, rear, rd_len);
        front := tmp_addr;
        return true;
      }
      return false;
    }
  }

  /** Storing a request after the queued bytes appends it. */
  lemma AppendedQueue(before: seq<byte>, after: seq<byte>, front: nat, rear: nat, data: seq<byte>)
    requires |before| == |after| && front < |before| && rear < |before|
    requires Distance(front, rear, |before|) + |data| < |before|
    requires forall k :: 0 <= k < |after| && Distance(rear, k, |after|) < |data|
                     ==> after[k] == data[Distance(rear, k, |after|)]
    requires forall k :: 0 <= k < |after| && Distance(rear, k, |after|) >= |data| ==> after[k] == before[k]
    ensures QueuedIn(after, front, Circular(rear, |data|, |after|)) == QueuedIn(before, front, rear) + data
  {
    var n := Distance(front, rear, |before|);
    var q := QueuedIn(after, front, Circular(rear, |data|, |after|));
    forall k | 0 <= k < |q|
      ensures q[k] == (QueuedIn(before, front, rear) + data)[k]
    {
      var at := Circular(front, k, |after|);
      assert Distance(rear, at, |after|) == if k < n then |after| - n + k else k - n;
    }
  }

  /** Moving the front index past len queued bytes drops them. */
  lemma RemainingQueue(buffer: seq<byte>, front: nat, rear: nat, len: nat)
    requires front < |buffer| && rear < |buffer| && len <= Distance(front, rear, |buffer|)
    ensures QueuedIn(buffer, Circular(front, len, |buffer|), rear) == QueuedIn(buffer, front, rear)[len..]
  {
    var q := QueuedIn(buffer, Circular(front, len, |buffer|), rear);
    forall k | 0 <= k < |q|
      ensures q[k] == QueuedIn(buffer, front, rear)[len + k]
    {
      assert Circular(Circular(front, len, |buffer|), k, |buffer|) == Circular(front, len + k, |buffer|);
    }
  }
}

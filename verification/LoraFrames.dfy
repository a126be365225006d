/** The frames the LoRa task transmits (the four load functions of lora_transmission.c, in the byte orders and with the
    angle extension the firmware is built with). */
module LoraFrames {
  import opened MachineInts

  const CMD_CONNECT: byte := 1
  const CMD_PUBLISH: byte := 3
  const CMD_TEST: byte := 5

  const INCLINOMETER_VERSION: byte := 200
  const COLLAPSE_VERSION: byte := 201

  const LORA_MTU: nat := 200
  const TX_BUF_SIZE: nat := 255

  /** Size of a sensor property as it is written into a frame. */
  function PropLen(version: byte, id: nat): nat {
    if id == 1 then 8
    else if id == 2 then 2
    else if id == (if version == INCLINOMETER_VERSION then 7 else 9) then 1
    else 4
  }

  /** What the frame builders read: the product version, the sensor's properties, the checksum function and the payload
      length of the loss-rate test. */
  datatype Source = Source(version: byte, prop: nat -> seq<byte>, crc: seq<byte> -> uint16, payloadLen: byte)

  ghost predicate ValidSource(w: Source) {
    forall id: nat :: |w.prop(id)| == PropLen(w.version, id)
  }

  function Header(cmd: byte): seq<byte> {
    [0, 0, 0, cmd]
  }

  /** swap_reverse on the four bytes of a value. */
  function Reversed(s: seq<byte>): (r: seq<byte>)
    requires |s| == 4
  {
    [s[3], s[2], s[1], s[0]]
  }

  function CrcBytes(w: Source, body: seq<byte>): (r: seq<byte>)
    ensures |r| == 2
  {
    [U8(w.crc(body)), U8(w.crc(body) / 0x100)]
  }

  /** A two-byte checksum over everything before it, low byte first. */
  function WithCrc(w: Source, body: seq<byte>): seq<byte> {
    body + CrcBytes(w, body)
  }

  /** The byte-reversed values of consecutive properties. */
  ghost function Values(w: Source, lo: nat, count: nat): (s: seq<byte>)
    requires ValidSource(w) && lo > (if w.version == INCLINOMETER_VERSION then 7 else 9)
    ensures |s| == 4 * count
  {
    if count == 0 then [] else Values(w, lo, count - 1) + Reversed(w.prop(lo + count - 1))
  }

  ghost function ConnFrame(w: Source): seq<byte> {
    WithCrc(w, Header(CMD_CONNECT) + [8] + w.prop(1))
  }

  ghost function TestFrame(w: Source): seq<byte> {
    WithCrc(w, Header(CMD_TEST) + [9] + w.prop(1) + [w.payloadLen])
  }

  /** A publish frame: data length, short address, number of properties, their ids, the one-byte property `first` and
      the four-byte properties after it. */
  ghost function PublishFrame(w: Source, len: byte, ids: seq<byte>, first: nat): seq<byte>
    requires ValidSource(w) && first >= (if w.version == INCLINOMETER_VERSION then 7 else 9) && 1 <= |ids| < 0x100
  {
    WithCrc(w, PublishHead(w, len, ids) + w.prop(first) + Values(w, first + 1, |ids| - 1))
  }

  ghost function PublishHead(w: Source, len: byte, ids: seq<byte>): seq<byte>
    requires |ids| < 0x100
  {
    Header(CMD_PUBLISH) + [len] + w.prop(2) + [|ids|] + ids
  }

  const INCLINOMETER_IDS: seq<byte> := [7, 8, 9, 10, 11]
  const COLLAPSE_IDS: seq<byte> := [9, 10, 11, 12, 13, 14, 15, 16]

  ghost function InclinometerFrame(w: Source): seq<byte>
    requires ValidSource(w) && w.version == INCLINOMETER_VERSION
  {
    PublishFrame(w, 25, INCLINOMETER_IDS, 7)
  }

  ghost function CollapseFrame(w: Source): seq<byte>
    requires ValidSource(w) && w.version == COLLAPSE_VERSION
  {
    PublishFrame(w, 40, COLLAPSE_IDS, 9)
  }

  /** The rule by which the receive callback derives a frame's total length from its length byte. */
  predicate ObeysReceiveRule(frame: seq<byte>) {
    |frame| > 4 && |frame| == 4 + 1 + (frame[4] as int) + 2
  }

  predicate IsCommand(frame: seq<byte>, cmd: byte) {
    |frame| >= 4 && frame[..4] == Header(cmd)
  }

  /** Every frame obeys the receive rule, carries its command, and fits the module's MTU. */
  lemma FramesAreWellFormed(w: Source)
    requires ValidSource(w)
    ensures ObeysReceiveRule(ConnFrame(w)) && IsCommand(ConnFrame(w), CMD_CONNECT) && |ConnFrame(w)| <= LORA_MTU
    ensures ObeysReceiveRule(TestFrame(w)) && IsCommand(TestFrame(w), CMD_TEST) && |TestFrame(w)| <= LORA_MTU
    ensures w.version == INCLINOMETER_VERSION ==>
              ObeysReceiveRule(InclinometerFrame(w)) && IsCommand(InclinometerFrame(w), CMD_PUBLISH)
              && |InclinometerFrame(w)| <= LORA_MTU
    ensures w.version == COLLAPSE_VERSION ==>
              ObeysReceiveRule(CollapseFrame(w)) && IsCommand(CollapseFrame(w), CMD_PUBLISH)
              && |CollapseFrame(w)| <= LORA_MTU
  {
    assert |w.prop(1)| == 8 && |w.prop(2)| == 2;
  }

  // The same frames as the gateway reads them, byte by byte.

  /** A two-byte value, low byte first. */
  function Word(frame: seq<byte>, at: nat): int
    requires at + 2 <= |frame|
  {
    (frame[at] as int) + 0x100 * (frame[at + 1] as int)
  }

  /** The last two bytes are the checksum of all others, low byte first. */
  predicate ChecksumHolds(w: Source, frame: seq<byte>) {
    |frame| >= 2 && Word(frame, |frame| - 2) == w.crc(frame[..|frame| - 2])
  }

  lemma ChecksumOfBody(w: Source, body: seq<byte>)
    ensures ChecksumHolds(w, WithCrc(w, body)) && |WithCrc(w, body)| == |body| + 2
    ensures forall k :: 0 <= k < |body| ==> WithCrc(w, body)[k] == body[k]
  {
    assert WithCrc(w, body)[..|body|] == body;
  }

  /** A connect frame: the command, eight, the device's address; a test frame adds the length of the payload. */
  lemma AddressFrameLayout(w: Source)
    requires ValidSource(w)
    ensures var c, t := ConnFrame(w), TestFrame(w);
            && |c| == 15 && c[..4] == [0, 0, 0, 1] && c[4] == 8 && c[5..13] == w.prop(1) && ChecksumHolds(w, c)
            && |t| == 16 && t[..4] == [0, 0, 0, 5] && t[4] == 9 && t[5..13] == w.prop(1) && t[13] == w.payloadLen
            && ChecksumHolds(w, t)
  {
    assert |w.prop(1)| == 8;
    ChecksumOfBody(w, Header(CMD_CONNECT) + [8] + w.prop(1));
    ChecksumOfBody(w, Header(CMD_TEST) + [9] + w.prop(1) + [w.payloadLen]);
  }

  lemma SliceOfHead(a: seq<byte>, b: seq<byte>, i: nat, j: nat)
    requires i <= j <= |a|
    ensures (a + b)[i..j] == a[i..j]
  {
  }

  lemma SliceOfTail(a: seq<byte>, b: seq<byte>, i: nat, j: nat)
    requires i <= j <= |b|
    ensures (a + b)[|a| + i..|a| + j] == b[i..j]
  {
  }

  /** The four bytes of the k-th value from this place on. */
  function ValueAt(frame: seq<byte>, at: nat, k: nat): seq<byte> {
    if at + 4 * k + 4 <= |frame| then frame[at + 4 * k..at + 4 * k + 4] else []
  }

  /** The bytes of a property in the reverse order. */
  function Backwards(w: Source, id: nat): seq<byte> {
    var v := w.prop(id);
    if |v| == 4 then [v[3], v[2], v[1], v[0]] else v
  }

  /** From this place on there are the values of so many properties. */
  ghost predicate ValuesAt(w: Source, frame: seq<byte>, at: nat, lo: nat, count: nat) {
    forall k :: 0 <= k < count ==> ValueAt(frame, at, k) == Backwards(w, lo + k)
  }

  lemma {:induction false} ValuesLayout(w: Source, lo: nat, count: nat, k: nat)
    requires ValidSource(w) && lo > (if w.version == INCLINOMETER_VERSION then 7 else 9) && k < count
    ensures ValueAt(Values(w, lo, count), 0, k) == Backwards(w, lo + k)
    decreases count
  {
    var init, last := Values(w, lo, count - 1), Reversed(w.prop(lo + count - 1));
    if k < count - 1 {
      ValuesLayout(w, lo, count - 1, k);
      SliceOfHead(init, last, 4 * k, 4 * k + 4);
    } else {
      SliceOfTail(init, last, 0, 4);
    }
  }

  /** How a publish frame begins: the command, the length byte, the short address, the number of properties and their
      ids, and the property of one byte. */
  ghost predicate PublishBegins(w: Source, frame: seq<byte>, len: byte, ids: seq<byte>, first: nat) {
    var n := |ids|;
    && |frame| >= 9 + n && frame[..4] == [0, 0, 0, 3] && frame[4] == len && frame[5..7] == w.prop(2)
    && frame[7] as int == n && frame[8..8 + n] == ids && w.prop(first) == [frame[8 + n]]
  }

  /** Then come the properties of four bytes and the checksum. */
  ghost predicate PublishLayout(w: Source, frame: seq<byte>, len: byte, ids: seq<byte>, first: nat) {
    var n := |ids|;
    && n >= 1 && |frame| == 9 + n + 4 * (n - 1) + 2 && PublishBegins(w, frame, len, ids, first)
    && ChecksumHolds(w, frame)
    && ValuesAt(w, frame, 9 + n, first + 1, n - 1)
  }

  lemma HeadLayout(w: Source, len: byte, ids: seq<byte>, first: nat)
    requires |w.prop(2)| == 2 && |ids| < 0x100 && |w.prop(first)| == 1
    ensures var head := PublishHead(w, len, ids) + w.prop(first);
            |head| == 9 + |ids| && PublishBegins(w, head, len, ids, first)
  {
  }

  lemma BeginsOn(w: Source, head: seq<byte>, rest: seq<byte>, len: byte, ids: seq<byte>, first: nat)
    requires PublishBegins(w, head, len, ids, first)
    ensures PublishBegins(w, head + rest, len, ids, first)
  {
    SliceOfHead(head, rest, 0, 4);
    SliceOfHead(head, rest, 5, 7);
    SliceOfHead(head, rest, 8, 8 + |ids|);
  }

  lemma ValueInFrame(head: seq<byte>, values: seq<byte>, crc: seq<byte>, k: nat)
    requires 4 * k + 4 <= |values|
    ensures ValueAt(head + values + crc, |head|, k) == ValueAt(values, 0, k)
  {
    SliceOfTail(head, values, 4 * k, 4 * k + 4);
    SliceOfHead(head + values, crc, |head| + 4 * k, |head| + 4 * k + 4);
  }

  lemma ValuesInFrame(w: Source, head: seq<byte>, lo: nat, count: nat, crc: seq<byte>, at: nat)
    requires ValidSource(w) && lo > (if w.version == INCLINOMETER_VERSION then 7 else 9) && at == |head|
    ensures ValuesAt(w, head + Values(w, lo, count) + crc, at, lo, count)
  {
    forall k | 0 <= k < count
      ensures ValueAt(head + Values(w, lo, count) + crc, at, k) == Backwards(w, lo + k)
    {
      ValuesLayout(w, lo, count, k);
      ValueInFrame(head, Values(w, lo, count), crc, k);
    }
  }

  lemma PublishFrameBegins(w: Source, head: seq<byte>, values: seq<byte>, crc: seq<byte>, len: byte, ids: seq<byte>,
                           first: nat)
    requires PublishBegins(w, head, len, ids, first)
    ensures PublishBegins(w, head + values + crc, len, ids, first)
  {
    BeginsOn(w, head, values, len, ids, first);
    BeginsOn(w, head + values, crc, len, ids, first);
  }

  lemma FrameParts(w: Source, len: byte, ids: seq<byte>, first: nat)
    requires ValidSource(w) && first == (if w.version == INCLINOMETER_VERSION then 7 else 9) && 1 <= |ids| < 0x100
    ensures var head, values := PublishHead(w, len, ids) + w.prop(first), Values(w, first + 1, |ids| - 1);
            var frame := head + values + CrcBytes(w, head + values);
            frame == PublishFrame(w, len, ids, first) && ChecksumHolds(w, frame)
  {
    ChecksumOfBody(w, PublishHead(w, len, ids) + w.prop(first) + Values(w, first + 1, |ids| - 1));
  }

  lemma FrameBegins(w: Source, len: byte, ids: seq<byte>, first: nat)
    requires ValidSource(w) && first == (if w.version == INCLINOMETER_VERSION then 7 else 9) && 1 <= |ids| < 0x100
    ensures PublishBegins(w, PublishFrame(w, len, ids, first), len, ids, first)
  {
    assert |w.prop(2)| == 2 && |w.prop(first)| == 1;
    var head, values := PublishHead(w, len, ids) + w.prop(first), Values(w, first + 1, |ids| - 1);
    HeadLayout(w, len, ids, first);
    FrameParts(w, len, ids, first);
    PublishFrameBegins(w, head, values, CrcBytes(w, head + values), len, ids, first);
  }

  lemma FrameValues(w: Source, len: byte, ids: seq<byte>, first: nat)
    requires ValidSource(w) && first == (if w.version == INCLINOMETER_VERSION then 7 else 9) && 1 <= |ids| < 0x100
    ensures |PublishFrame(w, len, ids, first)| == 9 + |ids| + 4 * (|ids| - 1) + 2
    ensures ValuesAt(w, PublishFrame(w, len, ids, first), 9 + |ids|, first + 1, |ids| - 1)
  {
    assert |w.prop(2)| == 2 && |w.prop(first)| == 1;
    var head, values := PublishHead(w, len, ids) + w.prop(first), Values(w, first + 1, |ids| - 1);
    FrameParts(w, len, ids, first);
    ValuesInFrame(w, head, first + 1, |ids| - 1, CrcBytes(w, head + values), 9 + |ids|);
  }

  lemma PublishFrameLayout(w: Source, len: byte, ids: seq<byte>, first: nat)
    requires ValidSource(w) && first == (if w.version == INCLINOMETER_VERSION then 7 else 9) && 1 <= |ids| < 0x100
    ensures PublishLayout(w, PublishFrame(w, len, ids, first), len, ids, first)
  {
    FrameBegins(w, len, ids, first);
    FrameValues(w, len, ids, first);
    FrameParts(w, len, ids, first);
  }

  /** The two publish frames: five and eight properties, by these numbers. */
  lemma PublishFrames(w: Source)
    requires ValidSource(w)
    ensures w.version == 200 ==> PublishLayout(w, InclinometerFrame(w), 25, [7, 8, 9, 10, 11], 7)
    ensures w.version == 201 ==> PublishLayout(w, CollapseFrame(w), 40, [9, 10, 11, 12, 13, 14, 15, 16], 9)
  {
    if w.version == 200 {
      PublishFrameLayout(w, 25, INCLINOMETER_IDS, 7);
    } else if w.version == 201 {
      PublishFrameLayout(w, 40, COLLAPSE_IDS, 9);
    }
  }

  /** lora_tx_buf and lora_tx_count. */
  class TxBuffer {
    const buf: array<byte>
    var count: nat

    ghost predicate Valid()
      reads this
    {
      buf.Length == TX_BUF_SIZE && count <= TX_BUF_SIZE
    }

    ghost function Frame(): seq<byte>
      reads this, buf
      requires Valid()
    {
      buf[..count]
    }

    constructor ()
      ensures Valid() && Frame() == [] && fresh(buf)
    {
      buf := new byte[TX_BUF_SIZE](_ => 0);
      count := 0;
    }

    /** Restarts the buffer with a command header and the length byte. */
    method Begin(cmd: byte, len: byte)
      requires Valid()
      modifies this`count, buf
      ensures Valid() && Frame() == Header(cmd) + [len]
    {
      count := 0;
      Put(Header(cmd));
      Put([len]);
    }

    method Put(bytes: seq<byte>)
      requires Valid() && count + |bytes| <= TX_BUF_SIZE
      modifies this`count, buf
      ensures Valid() && Frame() == old(Frame()) + bytes
    {
      for i := 0 to |bytes|
        invariant Valid() && count == old(count)
        invariant forall k :: 0 <= k < count ==> buf[k] == old(buf[k])
        invariant forall k :: 0 <= k < i ==> buf[count + k] == bytes[k]
      {
        buf[count + i] := bytes[i];
      }
      count := count + |bytes|;
    }

    method PutCrc(w: Source)
      requires Valid() && count + 2 <= TX_BUF_SIZE
      modifies this`count, buf
      ensures Valid() && Frame() == WithCrc(w, old(Frame()))
    {
      var crc := w.crc(buf[..count]);
      Put([U8(crc), U8(crc / 0x100)]);
    }

    method LoadConnCmd(w: Source)
      requires Valid() && ValidSource(w)
      modifies this`count, buf
      ensures Valid() && Frame() == ConnFrame(w)
    {
      Begin(CMD_CONNECT, 8);
      Put(w.prop(1));
      PutCrc(w);
    }

    method LoadCommTestCmd(w: Source)
      requires Valid() && ValidSource(w)
      modifies this`count, buf
      ensures Valid() && Frame() == TestFrame(w)
    {
      Begin(CMD_TEST, 9);
      Put(w.prop(1));
      Put([w.payloadLen]);
      PutCrc(w);
    }

    method PutPublishHead(w: Source, len: byte, ids: seq<byte>)
      requires Valid() && ValidSource(w) && |ids| < 0x10
      modifies this`count, buf
      ensures Valid() && Frame() == PublishHead(w, len, ids)
    {
      Begin(CMD_PUBLISH, len);
      Put(w.prop(2));
      Put([|ids|]);
      Put(ids);
    }

    method PutValues(w: Source, lo: nat, n: nat)
      requires Valid() && ValidSource(w) && lo > (if w.version == INCLINOMETER_VERSION then 7 else 9)
      requires count + 4 * n <= TX_BUF_SIZE
      modifies this`count, buf
      ensures Valid() && Frame() == old(Frame()) + Values(w, lo, n)
    {
      for i := 0 to n
        invariant Valid() && Frame() == old(Frame()) + Values(w, lo, i)
      {
        Put(Reversed(w.prop(lo + i)));
      }
    }

    method LoadInclinometerPublishCmd(w: Source)
      requires Valid() && ValidSource(w) && w.version == INCLINOMETER_VERSION
      modifies this`count, buf
      ensures Valid() && Frame() == InclinometerFrame(w)
    {
      PutPublishHead(w, 25, INCLINOMETER_IDS);
      Put(w.prop(7));
      PutValues(w, 8, 4);
      PutCrc(w);
    }

    method LoadCollapsePublishCmd(w: Source)
      requires Valid() && ValidSource(w) && w.version == COLLAPSE_VERSION
      modifies this`count, buf
      ensures Valid() && Frame() == CollapseFrame(w)
    {
      PutPublishHead(w, 40, COLLAPSE_IDS);
      Put(w.prop(9));
      PutValues(w, 10, 7);
      PutCrc(w);
    }
  }
}

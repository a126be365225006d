/** The images that chunked feature-configuration transfers leave in, and take out of, the sensor's memory, against the
    image of one uninterrupted burst. */
module ChunkedTransfer {
  import opened MachineInts
  import opened Quotients

  /** The memory behind the 12-bit word pointer. */
  const MEMORY_SIZE: nat := 0x2000

  /** The memory after n bytes of the data, from index `from` on, are stored at this byte address. */
  function Splice(memory: seq<byte>, at: nat, data: seq<byte>, from: nat, n: nat): (r: seq<byte>)
    requires from + n <= |data|
    ensures |r| == |memory|
    ensures forall k :: 0 <= k < |memory| ==> r[k] == if at <= k < at + n then data[from + k - at] else memory[k]
  {
    seq(|memory|, k requires 0 <= k < |memory| => if at <= k < at + n then data[from + k - at] else memory[k])
  }

  /** What one burst stores. */
  function OneShot(memory: seq<byte>, start: nat, data: seq<byte>): seq<byte> {
    Splice(memory, 2 * start, data, 0, |data|)
  }

  /** The word address of chunk i: the pointer advances by half the chunk length, rounded down. */
  function ChunkWord(start: nat, rw: nat, i: nat): nat {
    start + i * (rw / 2)
  }

  /** The memory after the first i full chunks. */
  function Chunks(memory: seq<byte>, start: nat, data: seq<byte>, rw: nat, i: nat): (r: seq<byte>)
    requires i * rw <= |data|
    ensures |r| == |memory|
    decreases i
  {
    if i == 0 then memory
    else
      ChunkStep(rw, i - 1);
      Splice(Chunks(memory, start, data, rw, i - 1), 2 * ChunkWord(start, rw, i - 1), data, (i - 1) * rw, rw)
  }

  lemma ChunkStep(rw: nat, i: nat)
    ensures (i + 1) * rw == i * rw + rw
  {
  }

  /** The memory after the whole transfer. A transfer that fits in one chunk is a single burst. */
  function Chunked(memory: seq<byte>, start: nat, data: seq<byte>, rw: nat): (r: seq<byte>)
    requires rw > 0
    ensures |r| == |memory|
  {
    if |data| <= rw then OneShot(memory, start, data)
    else
      var n := |data| / rw;
      Division(|data|, rw);
      Splice(Chunks(memory, start, data, rw, n), 2 * ChunkWord(start, rw, n), data, n * rw, |data| % rw)
  }

  lemma AtLeastOneChunk(len: nat, rw: nat)
    requires 0 < rw <= len
    ensures len / rw >= 1
  {
    Division(len, rw);
  }

  /** Storing a slice of the data. */
  lemma SpliceOfSlice(memory: seq<byte>, word: nat, data: seq<byte>, from: nat, n: nat)
    requires from + n <= |data|
    ensures OneShot(memory, word, data[from..from + n]) == Splice(memory, 2 * word, data, from, n)
  {
  }

  /** Chunk i is one burst at the word address of chunk i. */
  lemma ChunksGrow(memory: seq<byte>, start: nat, data: seq<byte>, rw: nat, i: nat)
    requires i * rw + rw <= |data|
    ensures (i + 1) * rw == i * rw + rw
    ensures Chunks(memory, start, data, rw, i + 1)
         == OneShot(Chunks(memory, start, data, rw, i), ChunkWord(start, rw, i), data[i * rw..i * rw + rw])
  {
    ChunkStep(rw, i);
    SpliceOfSlice(Chunks(memory, start, data, rw, i), ChunkWord(start, rw, i), data, i * rw, rw);
  }

  /** With an even chunk length the pointer keeps up with the data. */
  lemma EvenChunkWord(start: nat, rw: nat, i: nat)
    requires rw % 2 == 0
    ensures 2 * ChunkWord(start, rw, i) == 2 * start + i * rw
  {
    var h := rw / 2;
    assert rw == 2 * h;
    assert i * (2 * h) == 2 * (i * h);
  }

  lemma {:induction false} EvenChunks(memory: seq<byte>, start: nat, data: seq<byte>, rw: nat, i: nat)
    requires i * rw <= |data| && rw % 2 == 0
    ensures Chunks(memory, start, data, rw, i) == Splice(memory, 2 * start, data, 0, i * rw)
    decreases i
  {
    if i > 0 {
      ChunkStep(rw, i - 1);
      EvenChunks(memory, start, data, rw, i - 1);
      EvenChunkWord(start, rw, i - 1);
    }
  }

  /** A chunked transfer with an even chunk length, or one that needs a single chunk, stores exactly what one burst
      stores. */
  lemma EvenChunkingIsExact(memory: seq<byte>, start: nat, data: seq<byte>, rw: nat)
    requires rw > 0 && (rw % 2 == 0 || |data| <= rw)
    ensures Chunked(memory, start, data, rw) == OneShot(memory, start, data)
  {
    if |data| > rw {
      var n := |data| / rw;
      Division(|data|, rw);
      EvenChunks(memory, start, data, rw, n);
      EvenChunkWord(start, rw, n);
    }
  }

  /** The data on which an odd chunk length goes wrong: its only non-zero byte is the last one of the first chunk. */
  function OddWitness(len: nat, rw: nat): (r: seq<byte>)
    ensures |r| == len
  {
    seq(len, k => if k + 1 == rw then 1 else 0)
  }

  /** Every chunk after the first leaves a zero in that byte. */
  lemma {:induction false} OddChunksOverwrite(memory: seq<byte>, start: nat, len: nat, rw: nat, i: nat, m: nat)
    requires rw % 2 == 1 && i >= 1 && (i == 1 ==> m >= 1) && i * rw + m <= len && 2 * start + rw <= |memory|
    ensures Splice(Chunks(memory, start, OddWitness(len, rw), rw, i), 2 * ChunkWord(start, rw, i),
                   OddWitness(len, rw), i * rw, m)[2 * start + rw - 1] == 0
    decreases i
  {
    ChunkStep(rw, i - 1);
    assert (i - 1) * rw >= 0;
    if i == 1 {
      assert ChunkWord(start, rw, 1) == start + rw / 2;
    } else {
      OddChunksOverwrite(memory, start, len, rw, i - 1, rw);
    }
  }

  /** With an odd chunk length every transfer of more than one chunk can lose a byte: the next chunk overwrites the last
      byte of the first. */
  lemma OddChunkingLosesData(memory: seq<byte>, start: nat, len: nat, rw: nat)
    requires rw % 2 == 1 && rw < len && 2 * start + len <= |memory|
    ensures Chunked(memory, start, OddWitness(len, rw), rw) != OneShot(memory, start, OddWitness(len, rw))
  {
    var n, m := len / rw, len % rw;
    Division(len, rw);
    assert n == 0 ==> n * rw == 0;
    assert n == 1 ==> n * rw == rw;
    OddChunksOverwrite(memory, start, len, rw, n, m);
    assert OneShot(memory, start, OddWitness(len, rw))[2 * start + rw - 1] == 1;
  }

  /** So chunking is invisible exactly for even chunk lengths and for transfers of a single chunk. */
  lemma ChunkingIsExactIff(start: nat, len: nat, rw: nat)
    requires rw > 0 && 2 * start + len <= MEMORY_SIZE
    ensures (forall memory: seq<byte>, data: seq<byte> :: |memory| == MEMORY_SIZE && |data| == len ==>
               Chunked(memory, start, data, rw) == OneShot(memory, start, data))
            <==> rw % 2 == 0 || len <= rw
  {
    if rw % 2 == 0 || len <= rw {
      forall memory: seq<byte>, data: seq<byte> | |memory| == MEMORY_SIZE && |data| == len
        ensures Chunked(memory, start, data, rw) == OneShot(memory, start, data)
      {
        EvenChunkingIsExact(memory, start, data, rw);
      }
    } else {
      OddChunkingLosesData(seq<byte>(MEMORY_SIZE, _ => 0), start, len, rw);
    }
  }

  /** The image of a transfer of n full chunks and m bytes more. */
  lemma ChunkedInParts(memory: seq<byte>, start: nat, data: seq<byte>, rw: nat, n: nat, m: nat)
    requires rw < |data| == n * rw + m && m < rw
    ensures Chunked(memory, start, data, rw)
         == Splice(Chunks(memory, start, data, rw, n), 2 * ChunkWord(start, rw, n), data, n * rw, m)
  {
    Quotient(n, rw, m);
  }

  /** A byte of the memory; the pointer can leave it only after a bus error. */
  function ByteAt(memory: seq<byte>, k: nat): byte {
    if k < |memory| then memory[k] else 0
  }

  /** Where byte i of a chunked read comes from. */
  function ReadAddress(start: nat, rw: nat, i: nat): nat
    requires rw > 0
  {
    2 * ChunkWord(start, rw, i / rw) + i % rw
  }

  /** The first n bytes of a chunked read. */
  function ReadPrefix(memory: seq<byte>, start: nat, rw: nat, n: nat): (r: seq<byte>)
    requires rw > 0
  {
    seq(n, i requires 0 <= i => ByteAt(memory, ReadAddress(start, rw, i)))
  }

  /** Chunk i continues the first i * rw bytes. */
  lemma ReadPrefixGrows(memory: seq<byte>, start: nat, rw: nat, i: nat, chunk: seq<byte>)
    requires rw > 0 && |chunk| <= rw
    requires forall k :: 0 <= k < |chunk| ==> chunk[k] == ByteAt(memory, 2 * ChunkWord(start, rw, i) + k)
    ensures ReadPrefix(memory, start, rw, i * rw) + chunk == ReadPrefix(memory, start, rw, i * rw + |chunk|)
  {
    var n := i * rw;
    var r := ReadPrefix(memory, start, rw, n + |chunk|);
    forall k | 0 <= k < |chunk|
      ensures r[n + k] == chunk[k]
    {
      Quotient(i, rw, k);
    }
    assert ReadPrefix(memory, start, rw, n) + chunk == r;
  }

  /** What a chunked read of len bytes returns. */
  function ChunkedRead(memory: seq<byte>, start: nat, len: nat, rw: nat): (r: seq<byte>)
    requires rw > 0
  {
    seq(len, i requires 0 <= i =>
      ByteAt(memory, if len <= rw then 2 * start + i else ReadAddress(start, rw, i)))
  }

  lemma EvenReadAddress(start: nat, rw: nat, i: nat)
    requires rw > 0 && rw % 2 == 0
    ensures ReadAddress(start, rw, i) == 2 * start + i
  {
    Division(i, rw);
    var q, m := i / rw, i % rw;
    assert q * rw + m == i;
    EvenChunkWord(start, rw, q);
    assert ReadAddress(start, rw, i) == 2 * ChunkWord(start, rw, q) + m;
  }

  /** What one burst returns. */
  function OneShotRead(memory: seq<byte>, start: nat, len: nat): seq<byte> {
    seq<byte>(len, i requires 0 <= i => ByteAt(memory, 2 * start + i))
  }

  /** With an odd chunk length the second chunk begins by repeating the last byte of the first. */
  lemma OddReadRepeats(start: nat, len: nat, rw: nat)
    requires rw % 2 == 1 && rw < len && 2 * start + len <= MEMORY_SIZE
    ensures var memory := seq<byte>(MEMORY_SIZE, k => if k == 2 * start + rw then 1 else 0);
            ChunkedRead(memory, start, len, rw)[rw] != OneShotRead(memory, start, len)[rw]
  {
    Quotient(1, rw, 0);
    assert ReadAddress(start, rw, rw) == 2 * start + rw - 1;
  }

  /** For reading, too, chunking is invisible exactly for even chunk lengths and for transfers of a single chunk. */
  lemma ChunkedReadIsExactIff(start: nat, len: nat, rw: nat)
    requires rw > 0 && 2 * start + len <= MEMORY_SIZE
    ensures (forall memory: seq<byte> :: |memory| == MEMORY_SIZE ==>
               ChunkedRead(memory, start, len, rw) == OneShotRead(memory, start, len))
            <==> rw % 2 == 0 || len <= rw
  {
    if rw % 2 == 0 || len <= rw {
      forall memory: seq<byte>, i: nat | |memory| == MEMORY_SIZE && i < len
        ensures ChunkedRead(memory, start, len, rw)[i] == OneShotRead(memory, start, len)[i]
      {
        if len > rw {
          EvenReadAddress(start, rw, i);
        }
      }
    } else {
      OddReadRepeats(start, len, rw);
    }
  }

  /** What was written in chunks of one even length is read back in chunks of another. */
  lemma ReadInvertsWrite(memory: seq<byte>, start: nat, data: seq<byte>, rw1: nat, rw2: nat)
    requires rw1 > 0 && rw2 > 0 && rw1 % 2 == 0 && rw2 % 2 == 0 && 2 * start + |data| <= |memory|
    ensures ChunkedRead(Chunked(memory, start, data, rw1), start, |data|, rw2) == data
  {
    EvenChunkingIsExact(memory, start, data, rw1);
    var r := ChunkedRead(OneShot(memory, start, data), start, |data|, rw2);
    forall i | 0 <= i < |data|
      ensures r[i] == data[i]
    {
      EvenReadAddress(start, rw2, i);
    }
  }
}

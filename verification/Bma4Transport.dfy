/** Register and feature-configuration access of the sensor driver (bma4.c) over a bus that may fail. */
module Bma4Transport {
  import opened MachineInts
  import opened Quotients
  import opened ChunkedTransfer

  const FEATURE_CONFIG_ADDR: byte := 0x5E
  const POINTER_LSB_ADDR: byte := 0x5B
  const POINTER_MSB_ADDR: byte := 0x5C
  const POWER_CONF_ADDR: byte := 0x7C
  const REGISTERS: nat := 0x80
  const MAX_BUFFER_SIZE: nat := 81

  /** A result code is a set of error bits, by bit number; the driver combines codes with a bitwise or. */
  type Rslt = set<nat>

  const OK: Rslt := {}
  const E_OUT_OF_RANGE: Rslt := {1}
  const E_INVALID_SENSOR: Rslt := {2}
  const E_RD_WR_LENGTH_INVALID: Rslt := {8}

  /** The sensor: its registers, and the memory behind the feature-configuration register. */
  datatype Chip = Chip(regs: seq<byte>, memory: seq<byte>) {
    predicate Valid() {
      |regs| == REGISTERS && |memory| == MEMORY_SIZE
    }

    /** Advanced power save, during which the feature configuration must not be accessed. */
    predicate PowerSave()
      requires Valid()
    {
      regs[POWER_CONF_ADDR] % 2 == 1
    }

    /** The word address of the next feature-configuration access: four low bits and eight high bits. */
    function Pointer(): nat
      requires Valid()
    {
      (regs[POINTER_MSB_ADDR] as int) * 0x10 + regs[POINTER_LSB_ADDR] % 0x10
    }

    /** Every register but the pointer and the power mode. */
    predicate SameOtherRegs(c: Chip)
      requires Valid() && c.Valid()
    {
      forall a :: 0 <= a < REGISTERS && a != POINTER_LSB_ADDR && a != POINTER_MSB_ADDR && a != POWER_CONF_ADDR ==>
        regs[a] == c.regs[a]
    }

    predicate SameButPowerMode(c: Chip)
      requires Valid() && c.Valid()
    {
      SameOtherRegs(c) && Pointer() == c.Pointer() && memory == c.memory
    }

    /** A burst write; the pointer register does not move by itself. */
    function Written(addr: byte, data: seq<byte>): (c: Chip)
      requires Valid() && (addr == FEATURE_CONFIG_ADDR || addr + |data| <= REGISTERS)
      ensures c.Valid()
    {
      if addr == FEATURE_CONFIG_ADDR then this.(memory := OneShot(memory, Pointer(), data))
      else this.(regs := seq(REGISTERS, a requires 0 <= a < REGISTERS =>
                           if addr <= a < addr + |data| then data[a - addr] else regs[a]))
    }

    /** Byte i of a burst read. */
    function ReadByte(addr: byte, i: nat): byte
      requires Valid()
    {
      if addr == FEATURE_CONFIG_ADDR then ByteAt(memory, 2 * Pointer() + i)
      else if addr + i < REGISTERS then regs[addr + i]
      else 0
    }

    /** Byte i of the buffer of a burst read that begins with dummy bytes. */
    function BufferByte(addr: byte, dummy: nat, i: nat): byte
      requires Valid()
    {
      if i < dummy then 0 else ReadByte(addr, i - dummy)
    }

    function BurstBytes(addr: byte, dummy: nat, n: nat): seq<byte>
      requires Valid()
    {
      seq<byte>(n, i requires 0 <= i => BufferByte(addr, dummy, i))
    }
  }

  /** The power-configuration byte with its lowest bit replaced. */
  function WithPowerSave(b: byte, on: bool): byte {
    b - b % 2 + if on then 1 else 0
  }

  /** The sensor after its power mode was set. */
  function WithMode(c: Chip, on: bool): (r: Chip)
    requires c.Valid()
    ensures r.Valid() && c.SameButPowerMode(r) && r.PowerSave() == on
    ensures r.regs[POWER_CONF_ADDR] / 2 == c.regs[POWER_CONF_ADDR] / 2
  {
    c.(regs := c.regs[POWER_CONF_ADDR := WithPowerSave(c.regs[POWER_CONF_ADDR], on)])
  }

  lemma OneRegister(c: Chip, addr: byte, b: byte)
    requires c.Valid() && addr < REGISTERS && addr != FEATURE_CONFIG_ADDR
    ensures c.Written(addr, [b]) == c.(regs := c.regs[addr := b])
  {
  }

  /** The pointer after its two registers were written. */
  lemma PointerWritten(c: Chip, lsb: byte, msb: byte)
    requires c.Valid() && lsb < 0x10
    ensures var r := c.Written(POINTER_LSB_ADDR, [lsb]).Written(POINTER_MSB_ADDR, [msb]);
            && r.memory == c.memory && c.SameOtherRegs(r) && r.PowerSave() == c.PowerSave()
            && r.Pointer() == (msb as int) * 0x10 + lsb
  {
    OneRegister(c, POINTER_LSB_ADDR, lsb);
    OneRegister(c.Written(POINTER_LSB_ADDR, [lsb]), POINTER_MSB_ADDR, msb);
  }

  predicate AllOk(bus: seq<Rslt>) {
    forall k :: 0 <= k < |bus| ==> bus[k] == OK
  }

  /** Chunk i of a transfer starts inside the memory, where the pointer has not wrapped. */
  lemma ChunkInBounds(start: nat, rw: nat, i: nat, len: nat)
    requires rw > 0 && i * rw < len && 2 * start + len <= MEMORY_SIZE
    ensures ChunkWord(start, rw, i) < 0x1000
    ensures ChunkWord(start, rw, i) + rw / 2 == ChunkWord(start, rw, i + 1)
  {
    var h := rw / 2;
    assert i * (2 * h) <= i * rw;
    assert (i + 1) * h == i * h + h;
  }

  /** The sensor after the first i chunks of a write, and of a read. */
  predicate AfterWrites(before: Chip, c: Chip, start: nat, data: seq<byte>, rw: nat, i: nat)
    requires before.Valid() && c.Valid() && i * rw <= |data|
  {
    && c.memory == Chunks(before.memory, start, data, rw, i) && before.SameOtherRegs(c)
    && c.Pointer() == ChunkWord(start, rw, i) % 0x1000
  }

  predicate AfterReads(before: Chip, c: Chip, start: nat, rw: nat, i: nat)
    requires before.Valid() && c.Valid()
  {
    && c.memory == before.memory && before.SameOtherRegs(c)
    && c.Pointer() == ChunkWord(start, rw, i) % 0x1000
  }

  /** The two pointer registers hold twelve bits of an address. */
  lemma TwelveBits(addr: uint16)
    ensures (U8(addr / 0x10) as int) * 0x10 + addr % 0x10 == addr % 0x1000
  {
  }

  lemma NothingTransferred(before: Chip, c: Chip, start: nat, data: seq<byte>, rw: nat)
    requires before.Valid() && c.Valid() && c.memory == before.memory && before.SameOtherRegs(c)
    requires c.Pointer() == start
    ensures 0 * rw == 0 && AfterWrites(before, c, start, data, rw, 0) && AfterReads(before, c, start, rw, 0)
  {
    assert c.Pointer() < 0x1000;
    assert ChunkWord(start, rw, 0) == start;
  }

  lemma PointerMoves(p: nat, start: nat, rw: nat, i: nat, len: nat)
    requires rw > 0 && i * rw < len && 2 * start + len <= MEMORY_SIZE && p == ChunkWord(start, rw, i) % 0x1000
    ensures p == ChunkWord(start, rw, i) && (p + rw / 2) % 0x1000 == ChunkWord(start, rw, i + 1) % 0x1000
  {
    ChunkInBounds(start, rw, i, len);
  }

  lemma OneMoreWrite(before: Chip, c: Chip, d: Chip, start: nat, data: seq<byte>, rw: nat, i: nat)
    requires before.Valid() && c.Valid() && d.Valid() && rw > 0 && i * rw + rw <= |data|
    requires 2 * start + |data| <= MEMORY_SIZE && AfterWrites(before, c, start, data, rw, i)
    requires d.memory == OneShot(c.memory, c.Pointer(), data[i * rw..i * rw + rw]) && c.SameOtherRegs(d)
    requires d.Pointer() == (c.Pointer() + rw / 2) % 0x1000
    ensures (i + 1) * rw == i * rw + rw && AfterWrites(before, d, start, data, rw, i + 1)
  {
    ChunksGrow(before.memory, start, data, rw, i);
    PointerMoves(c.Pointer(), start, rw, i, |data|);
    var m := Chunks(before.memory, start, data, rw, i + 1);
    assert d.memory == m;
  }

  lemma OneMoreRead(before: Chip, c: Chip, d: Chip, start: nat, rw: nat, i: nat, len: nat)
    requires before.Valid() && c.Valid() && d.Valid() && rw > 0 && i * rw < len
    requires 2 * start + len <= MEMORY_SIZE && AfterReads(before, c, start, rw, i)
    requires d.memory == c.memory && c.SameOtherRegs(d)
    requires d.Pointer() == (c.Pointer() + rw / 2) % 0x1000
    ensures AfterReads(before, d, start, rw, i + 1)
  {
    PointerMoves(c.Pointer(), start, rw, i, len);
  }

  /** The overflow of m bytes after n chunks completes the image. */
  lemma LastWrite(before: Chip, c: Chip, start: nat, data: seq<byte>, rw: nat, n: nat, m: nat)
    requires before.Valid() && c.Valid() && rw < |data| == n * rw + m && m < rw && 2 * start + |data| <= MEMORY_SIZE
    requires AfterWrites(before, c, start, data, rw, n)
    ensures m == 0 ==> Chunked(before.memory, start, data, rw) == c.memory
    ensures m > 0 ==>
              Chunked(before.memory, start, data, rw) == OneShot(c.memory, c.Pointer(), data[n * rw..n * rw + m])
  {
    ChunkedInParts(before.memory, start, data, rw, n, m);
    var image := Splice(c.memory, 2 * ChunkWord(start, rw, n), data, n * rw, m);
    if m > 0 {
      ChunkInBounds(start, rw, n, |data|);
      SpliceOfSlice(c.memory, c.Pointer(), data, n * rw, m);
    } else {
      assert image == c.memory;
    }
  }

  lemma LastRead(before: Chip, c: Chip, start: nat, rw: nat, n: nat, len: nat, chunk: seq<byte>)
    requires before.Valid() && c.Valid() && 0 < |chunk| <= rw && n * rw + |chunk| == len
    requires 2 * start + len <= MEMORY_SIZE
    requires AfterReads(before, c, start, rw, n)
    requires forall k :: 0 <= k < |chunk| ==> chunk[k] == c.ReadByte(FEATURE_CONFIG_ADDR, k)
    ensures ReadPrefix(before.memory, start, rw, n * rw) + chunk == ReadPrefix(before.memory, start, rw, len)
  {
    ChunkInBounds(start, rw, n, len);
    ReadPrefixGrows(c.memory, start, rw, n, chunk);
  }

  lemma FullChunk(i: nat, count: nat, rw: nat, len: nat)
    requires rw > 0 && i < count && count * rw <= len
    ensures i * rw + rw <= len && (i + 1) * rw == i * rw + rw
  {
    assert (i + 1) * rw <= count * rw;
  }

  class Bma4 {
    const readWriteLen: byte
    const featureLen: byte
    const dummyByte: byte
    const asicLsb: byte
    const asicMsb: byte
    /** The bytes that a failed read returns. */
    const noise: nat -> byte
    /** The results of the bus operations to come. */
    var bus: seq<Rslt>
    var chip: Chip

    constructor (readWriteLen: byte, featureLen: byte, dummyByte: byte, asicLsb: byte, asicMsb: byte,
                 noise: nat -> byte, bus: seq<Rslt>, chip: Chip)
      ensures this.readWriteLen == readWriteLen && this.featureLen == featureLen && this.dummyByte == dummyByte
      ensures this.asicLsb == asicLsb && this.asicMsb == asicMsb && this.noise == noise
      ensures this.bus == bus && this.chip == chip
    {
      this.readWriteLen, this.featureLen, this.dummyByte := readWriteLen, featureLen, dummyByte;
      this.asicLsb, this.asicMsb, this.noise := asicLsb, asicMsb, noise;
      this.bus, this.chip := bus, chip;
    }

    /** The driver's set-up: at least one byte per chunk, one dummy byte at most, and a feature block inside the
        memory. */
    ghost predicate Valid()
      reads this
    {
      && chip.Valid() && readWriteLen >= 1 && dummyByte <= 1 && asicLsb < 0x10
      && 2 * Start() + featureLen <= MEMORY_SIZE
    }

    /** The word address of the feature block, read from the sensor after start-up. */
    function Start(): nat {
      (asicMsb as int) * 0x10 + asicLsb
    }

    /** The pointer is where every feature access expects it. */
    ghost predicate AtStart()
      reads this
      requires chip.Valid()
    {
      chip.Pointer() == Start()
    }

    function Noise(n: nat): (r: seq<byte>)
      ensures |r| == n
    {
      seq<byte>(n, i requires 0 <= i => noise(i))
    }

    method NextResult() returns (err: Rslt)
      modifies this`bus
      ensures old(AllOk(bus)) ==> err == OK && AllOk(bus)
    {
      err := OK;
      if bus != [] {
        err, bus := bus[0], bus[1..];
      }
    }

    /** Every access to the feature configuration must find advanced power save off. */
    method BusWrite(addr: byte, data: seq<byte>) returns (err: Rslt)
      requires chip.Valid() && (addr == FEATURE_CONFIG_ADDR || addr + |data| <= REGISTERS)
      requires addr == FEATURE_CONFIG_ADDR ==> !chip.PowerSave()
      modifies this`bus, this`chip
      ensures chip == if err == OK then old(chip).Written(addr, data) else old(chip)
      ensures old(AllOk(bus)) ==> err == OK && AllOk(bus)
    {
      err := NextResult();
      if err == OK {
        chip := chip.Written(addr, data);
      }
    }

    method BusRead(addr: byte, n: nat) returns (err: Rslt, buffer: seq<byte>)
      requires chip.Valid()
      requires addr == FEATURE_CONFIG_ADDR ==> !chip.PowerSave()
      modifies this`bus
      ensures |buffer| == n
      ensures err == OK ==> forall i :: dummyByte <= i < n ==> buffer[i] == chip.ReadByte(addr, i - dummyByte)
      ensures old(AllOk(bus)) ==> err == OK && AllOk(bus)
    {
      err := NextResult();
      if err == OK {
        buffer := chip.BurstBytes(addr, dummyByte, n);
      } else {
        buffer := Noise(n);
      }
    }

    method BurstWrite(addr: byte, data: seq<byte>) returns (rslt: Rslt)
      requires chip.Valid() && (addr == FEATURE_CONFIG_ADDR || addr + |data| <= REGISTERS)
      requires addr == FEATURE_CONFIG_ADDR ==> !chip.PowerSave()
      modifies this`bus, this`chip
      ensures chip == if rslt == OK then old(chip).Written(addr, data) else old(chip)
      ensures old(AllOk(bus)) ==> rslt == OK && AllOk(bus)
    {
      rslt := OK;
      var err := BusWrite(addr, data);
      rslt := rslt + err;
    }

    /** Strips the dummy byte. */
    method BurstRead(addr: byte, len: byte) returns (rslt: Rslt, data: seq<byte>)
      requires chip.Valid() && dummyByte <= 1
      requires addr == FEATURE_CONFIG_ADDR ==> !chip.PowerSave()
      modifies this`bus
      ensures |data| == len
      ensures rslt == OK ==> len + dummyByte <= MAX_BUFFER_SIZE
      ensures rslt == OK ==> forall i :: 0 <= i < len ==> data[i] == chip.ReadByte(addr, i)
      ensures old(AllOk(bus)) ==> AllOk(bus) && (rslt == OK <==> len + dummyByte <= MAX_BUFFER_SIZE)
    {
      rslt, data := OK, Noise(len);
      var tempLen := len + dummyByte;
      if tempLen > MAX_BUFFER_SIZE {
        rslt := rslt + E_OUT_OF_RANGE;
      }
      if rslt == OK {
        var err, temp := BusRead(addr, tempLen);
        rslt := rslt + err;
        data := temp[dummyByte..];
      }
    }

    method GetAdvancePowerSave(current: byte) returns (rslt: Rslt, aps: byte)
      requires Valid()
      modifies this`bus, this`chip
      ensures chip == old(chip)
      ensures aps == if rslt == OK then (if chip.PowerSave() then 1 else 0) else current
      ensures old(AllOk(bus)) ==> rslt == OK && AllOk(bus)
      decreases 1, 0
    {
      aps := current;
      var data;
      rslt, data := ReadRegs(POWER_CONF_ADDR, 1);
      if rslt == OK {
        aps := data[0] % 2;
      }
    }

    method SetAdvancePowerSave(on: bool) returns (rslt: Rslt)
      requires Valid()
      modifies this`bus, this`chip
      ensures chip == if rslt == OK then WithMode(old(chip), on) else old(chip)
      ensures old(AllOk(bus)) ==> rslt == OK && AllOk(bus)
      decreases 1, 0
    {
      var data;
      rslt, data := ReadRegs(POWER_CONF_ADDR, 1);
      if rslt == OK {
        OneRegister(chip, POWER_CONF_ADDR, WithPowerSave(data[0], on));
        rslt := WriteRegs(POWER_CONF_ADDR, [WithPowerSave(data[0], on)]);
      }
    }

    method SetFeatureConfigStartAddr() returns (rslt: Rslt)
      requires Valid()
      modifies this`bus, this`chip
      ensures chip.Valid() && chip.PowerSave() == old(chip).PowerSave()
      ensures rslt == OK ==> chip.memory == old(chip).memory && old(chip).SameOtherRegs(chip) && AtStart()
      ensures old(AllOk(bus)) ==> rslt == OK && AllOk(bus)
    {
      rslt := WritePointer(asicLsb, asicMsb);
    }

    method WritePointer(lsb: byte, msb: byte) returns (rslt: Rslt)
      requires chip.Valid() && lsb < 0x10
      modifies this`bus, this`chip
      ensures chip.Valid() && chip.PowerSave() == old(chip).PowerSave()
      ensures rslt == OK ==>
                && chip.memory == old(chip).memory && old(chip).SameOtherRegs(chip)
                && chip.Pointer() == (msb as int) * 0x10 + lsb
      ensures old(AllOk(bus)) ==> rslt == OK && AllOk(bus)
    {
      PointerWritten(chip, lsb, msb);
      OneRegister(chip, POINTER_LSB_ADDR, lsb);
      rslt := BurstWrite(POINTER_LSB_ADDR, [lsb]);
      OneRegister(chip, POINTER_MSB_ADDR, msb);
      var err := BurstWrite(POINTER_MSB_ADDR, [msb]);
      rslt := rslt + err;
    }

    method ReadPointer() returns (rslt: Rslt, word: uint16)
      requires Valid()
      modifies this`bus, this`chip
      ensures chip == old(chip) && word < 0x1000 && (rslt == OK ==> word == chip.Pointer())
      ensures old(AllOk(bus)) ==> rslt == OK && AllOk(bus)
    {
      var lsb, msb, err;
      rslt, lsb := BurstRead(POINTER_LSB_ADDR, 1);
      err, msb := BurstRead(POINTER_MSB_ADDR, 1);
      rslt := rslt + err;
      word := (msb[0] as int) * 0x10 + lsb[0] % 0x10;
    }

    /** Moves the pointer by a chunk, in words. */
    method IncrementFeatureConfigAddr() returns (rslt: Rslt)
      requires Valid()
      modifies this`bus, this`chip
      ensures chip.Valid() && chip.PowerSave() == old(chip).PowerSave()
      ensures rslt == OK ==>
                && chip.memory == old(chip).memory && old(chip).SameOtherRegs(chip)
                && chip.Pointer() == (old(chip).Pointer() + readWriteLen / 2) % 0x1000
      ensures old(AllOk(bus)) ==> rslt == OK && AllOk(bus)
    {
      var addr, err;
      rslt, addr := ReadPointer();
      addr := addr + readWriteLen / 2;
      TwelveBits(addr);
      err := WritePointer(addr % 0x10, U8(addr / 0x10));
      rslt := rslt + err;
    }

    /** Leaves advanced power save before a feature access. */
    method LeavePowerSave() returns (rslt: Rslt, aps: byte)
      requires Valid()
      modifies this`bus, this`chip
      ensures chip == if rslt == OK then WithMode(old(chip), false) else old(chip)
      ensures old(AllOk(bus)) ==> rslt == OK && AllOk(bus)
      decreases 1, 1
    {
      rslt, aps := GetAdvancePowerSave(0);
      if aps == 1 {
        var err := SetAdvancePowerSave(false);
        rslt := rslt + err;
      } else if rslt == OK {
        assert chip.regs == WithMode(chip, false).regs;
      }
    }

    /** Enters it again afterwards, whether or not it was on before. */
    method EnterPowerSave(current: byte) returns (rslt: Rslt)
      requires Valid() && !chip.PowerSave()
      modifies this`bus, this`chip
      ensures chip.Valid() && (rslt == OK ==> chip == WithMode(old(chip), true))
      ensures old(AllOk(bus)) ==> rslt == OK && AllOk(bus)
      decreases 1, 1
    {
      var aps;
      rslt, aps := GetAdvancePowerSave(current);
      if aps == 0 {
        var err := SetAdvancePowerSave(true);
        rslt := rslt + err;
      }
    }

    predicate LengthValid(len: nat) {
      len % 2 == 0 && len <= featureLen
    }

    /** Chunk i, after which the pointer is moved. If all went well so far, `first` is where the transfer began. */
    method WriteChunk(data: seq<byte>, index: nat, ghost i: nat, ghost count: nat, ghost first: Chip, ghost fine: bool)
      returns (rslt: Rslt)
      requires Valid() && !chip.PowerSave() && first.Valid()
      requires index == i * readWriteLen && i < count && count * readWriteLen <= |data| <= featureLen
      requires fine ==> AfterWrites(first, chip, Start(), data, readWriteLen, i)
      modifies this`bus, this`chip
      ensures chip.Valid() && !chip.PowerSave()
      ensures (i + 1) * readWriteLen == index + readWriteLen <= |data|
      ensures fine && rslt == OK ==> AfterWrites(first, chip, Start(), data, readWriteLen, i + 1)
      ensures old(AllOk(bus)) ==> rslt == OK && AllOk(bus)
    {
      ghost var before := chip;
      FullChunk(i, count, readWriteLen, |data|);
      rslt := BurstWrite(FEATURE_CONFIG_ADDR, data[index..index + readWriteLen]);
      var err := IncrementFeatureConfigAddr();
      rslt := rslt + err;
      if fine && rslt == OK {
        OneMoreWrite(first, before, chip, Start(), data, readWriteLen, i);
      }
    }

    /** The number of full chunks of a transfer, and what is left over. */
    method LoopCount(len: nat) returns (count: nat, overflow: nat)
      requires 0 < readWriteLen < len
      ensures count >= 1 && overflow < readWriteLen && count * readWriteLen + overflow == len
    {
      Division(len, readWriteLen);
      AtLeastOneChunk(len, readWriteLen);
      count, overflow := len / readWriteLen, len % readWriteLen;
    }

    /** The chunks of a feature write, each at the address to which the pointer was moved. */
    method WriteFullChunks(data: seq<byte>, count: nat) returns (rslt: Rslt)
      requires Valid() && AtStart() && !chip.PowerSave() && count * readWriteLen <= |data| <= featureLen
      modifies this`bus, this`chip
      ensures chip.Valid() && !chip.PowerSave()
      ensures rslt == OK ==> AfterWrites(old(chip), chip, Start(), data, readWriteLen, count)
      ensures old(AllOk(bus)) ==> rslt == OK && AllOk(bus)
    {
      var index := 0;
      rslt := SetFeatureConfigStartAddr();
      if rslt == OK {
        NothingTransferred(old(chip), chip, Start(), data, readWriteLen);
      }
      for i := 0 to count
        invariant chip.Valid() && !chip.PowerSave()
        invariant index == i * readWriteLen <= |data|
        invariant old(AllOk(bus)) ==> rslt == OK && AllOk(bus)
        invariant rslt == OK ==> AfterWrites(old(chip), chip, Start(), data, readWriteLen, i)
      {
        var err := WriteChunk(data, index, i, count, old(chip), rslt == OK);
        rslt := rslt + err;
        index := index + readWriteLen;
      }
    }

    method WriteChunks(data: seq<byte>) returns (rslt: Rslt)
      requires Valid() && AtStart() && !chip.PowerSave() && readWriteLen < |data| <= featureLen
      modifies this`bus, this`chip
      ensures chip.Valid() && !chip.PowerSave()
      ensures rslt == OK ==>
                && chip.memory == Chunked(old(chip).memory, Start(), data, readWriteLen)
                && AtStart() && old(chip).SameOtherRegs(chip)
      ensures old(AllOk(bus)) ==> rslt == OK && AllOk(bus)
    {
      var count, overflow := LoopCount(|data|);
      rslt := WriteFullChunks(data, count);
      if rslt == OK {
        LastWrite(old(chip), chip, Start(), data, readWriteLen, count, overflow);
      }
      if overflow > 0 {
        var err := BurstWrite(FEATURE_CONFIG_ADDR, data[count * readWriteLen..count * readWriteLen + overflow]);
        rslt := rslt + err;
      }
      var err := SetFeatureConfigStartAddr();
      rslt := rslt + err;
    }

    method WriteFeatures(data: seq<byte>) returns (rslt: Rslt)
      requires Valid() && AtStart() && |data| < 0x100
      modifies this`bus, this`chip
      ensures chip.Valid()
      ensures rslt == OK ==>
                && LengthValid(|data|)
                && chip.memory == Chunked(old(chip).memory, Start(), data, readWriteLen)
                && AtStart() && chip.PowerSave() && old(chip).SameOtherRegs(chip)
      ensures old(AllOk(bus)) ==>
                && AllOk(bus) && (rslt == OK <==> LengthValid(|data|))
                && (rslt != OK ==> rslt == E_RD_WR_LENGTH_INVALID && chip == WithMode(old(chip), false))
      decreases 2, 0
    {
      var aps;
      rslt, aps := LeavePowerSave();
      if LengthValid(|data|) && rslt == OK {
        if readWriteLen < |data| {
          rslt := WriteChunks(data);
        } else {
          rslt := BurstWrite(FEATURE_CONFIG_ADDR, data);
        }
      } else {
        rslt := E_RD_WR_LENGTH_INVALID;
      }
      if rslt == OK {
        rslt := EnterPowerSave(aps);
      }
    }

    method WriteRegs(addr: byte, data: seq<byte>) returns (rslt: Rslt)
      requires Valid() && |data| < 0x100
      requires if addr == FEATURE_CONFIG_ADDR then AtStart() else addr + |data| <= REGISTERS
      modifies this`bus, this`chip
      ensures chip.Valid()
      ensures addr != FEATURE_CONFIG_ADDR ==> chip == if rslt == OK then old(chip).Written(addr, data) else old(chip)
      ensures addr != FEATURE_CONFIG_ADDR && old(AllOk(bus)) ==> rslt == OK && AllOk(bus)
      ensures addr == FEATURE_CONFIG_ADDR && rslt == OK ==>
                && |data| % 2 == 0 && |data| <= featureLen
                && chip.memory == Chunked(old(chip).memory, Start(), data, readWriteLen)
                && AtStart() && chip.PowerSave() && old(chip).SameOtherRegs(chip)
      ensures addr == FEATURE_CONFIG_ADDR && old(AllOk(bus)) ==>
                && AllOk(bus) && (rslt == OK <==> |data| % 2 == 0 && |data| <= featureLen)
                && (rslt != OK ==> rslt == E_RD_WR_LENGTH_INVALID && chip == WithMode(old(chip), false))
      decreases if addr == FEATURE_CONFIG_ADDR then 2 else 0, 1
    {
      if addr == FEATURE_CONFIG_ADDR {
        rslt := WriteFeatures(data);
      } else {
        rslt := BurstWrite(addr, data);
      }
    }

    /** Chunk i of a read, after which the pointer is moved. */
    method ReadChunk(ghost i: nat, ghost count: nat, ghost len: nat, ghost first: Chip, ghost fine: bool)
      returns (rslt: Rslt, chunk: seq<byte>)
      requires Valid() && !chip.PowerSave() && first.Valid()
      requires i < count && count * readWriteLen <= len <= featureLen
      requires fine ==> AfterReads(first, chip, Start(), readWriteLen, i)
      modifies this`bus, this`chip
      ensures chip.Valid() && !chip.PowerSave() && |chunk| == readWriteLen
      ensures (i + 1) * readWriteLen == i * readWriteLen + readWriteLen <= len
      ensures fine && rslt == OK ==>
                && AfterReads(first, chip, Start(), readWriteLen, i + 1)
                && ReadPrefix(first.memory, Start(), readWriteLen, i * readWriteLen) + chunk
                   == ReadPrefix(first.memory, Start(), readWriteLen, (i + 1) * readWriteLen)
      ensures rslt == OK ==> readWriteLen + dummyByte <= MAX_BUFFER_SIZE
      ensures old(AllOk(bus)) ==> AllOk(bus) && (rslt == OK <==> readWriteLen + dummyByte <= MAX_BUFFER_SIZE)
    {
      ghost var before := chip;
      FullChunk(i, count, readWriteLen, len);
      rslt, chunk := BurstRead(FEATURE_CONFIG_ADDR, readWriteLen);
      if fine && rslt == OK {
        LastRead(first, before, Start(), readWriteLen, i, i * readWriteLen + readWriteLen, chunk);
      }
      var err := IncrementFeatureConfigAddr();
      rslt := rslt + err;
      if fine && rslt == OK {
        OneMoreRead(first, before, chip, Start(), readWriteLen, i, len);
      }
    }

    /** The chunks of a feature read. */
    method ReadFullChunks(count: nat, ghost len: nat) returns (rslt: Rslt, data: seq<byte>)
      requires Valid() && AtStart() && !chip.PowerSave() && count * readWriteLen <= len <= featureLen && count >= 1
      modifies this`bus, this`chip
      ensures chip.Valid() && !chip.PowerSave() && |data| == count * readWriteLen
      ensures rslt == OK ==>
                && data == ReadPrefix(old(chip).memory, Start(), readWriteLen, count * readWriteLen)
                && AfterReads(old(chip), chip, Start(), readWriteLen, count)
                && readWriteLen + dummyByte <= MAX_BUFFER_SIZE
      ensures old(AllOk(bus)) ==> AllOk(bus) && (rslt == OK <==> readWriteLen + dummyByte <= MAX_BUFFER_SIZE)
    {
      var rw := readWriteLen as int;
      data := [];
      rslt := SetFeatureConfigStartAddr();
      if rslt == OK {
        NothingTransferred(old(chip), chip, Start(), data, readWriteLen);
      }
      for i := 0 to count
        invariant chip.Valid() && !chip.PowerSave()
        invariant |data| == i * rw <= len
        invariant old(AllOk(bus)) ==> AllOk(bus) && (rslt == OK <==> i == 0 || rw + dummyByte <= MAX_BUFFER_SIZE)
        invariant rslt == OK ==>
                    && data == ReadPrefix(old(chip).memory, Start(), rw, i * rw)
                    && AfterReads(old(chip), chip, Start(), rw, i)
                    && (i == 0 || rw + dummyByte <= MAX_BUFFER_SIZE)
      {
        var err, chunk := ReadChunk(i, count, len, old(chip), rslt == OK);
        rslt := rslt + err;
        data := data + chunk;
      }
    }

    method ReadChunks(len: nat) returns (rslt: Rslt, data: seq<byte>)
      requires Valid() && AtStart() && !chip.PowerSave() && readWriteLen < len <= featureLen
      modifies this`bus, this`chip
      ensures chip.Valid() && !chip.PowerSave() && |data| == len
      ensures rslt == OK ==>
                && data == ChunkedRead(old(chip).memory, Start(), len, readWriteLen)
                && AtStart() && chip.memory == old(chip).memory && old(chip).SameOtherRegs(chip)
                && readWriteLen + dummyByte <= MAX_BUFFER_SIZE
      ensures old(AllOk(bus)) ==> AllOk(bus) && (rslt == OK <==> readWriteLen + dummyByte <= MAX_BUFFER_SIZE)
    {
      var count, overflow := LoopCount(len);
      rslt, data := ReadFullChunks(count, len);
      if overflow > 0 {
        var err, chunk := BurstRead(FEATURE_CONFIG_ADDR, overflow);
        rslt := rslt + err;
        if rslt == OK {
          LastRead(old(chip), chip, Start(), readWriteLen, count, len, chunk);
        }
        data := data + chunk;
      }
      var err := SetFeatureConfigStartAddr();
      rslt := rslt + err;
    }

    /** The longest single burst of a read of this length. */
    function LongestBurst(len: nat): nat {
      if readWriteLen < len then readWriteLen else len
    }

    predicate ReadPossible(len: nat) {
      LengthValid(len) && LongestBurst(len) + dummyByte <= MAX_BUFFER_SIZE
    }

    method ReadFeatures(len: byte) returns (rslt: Rslt, data: seq<byte>)
      requires Valid() && AtStart()
      modifies this`bus, this`chip
      ensures chip.Valid() && |data| == len
      ensures rslt == OK ==>
                && ReadPossible(len)
                && data == ChunkedRead(old(chip).memory, Start(), len, readWriteLen)
                && AtStart() && chip.PowerSave() && chip.memory == old(chip).memory && old(chip).SameOtherRegs(chip)
      ensures old(AllOk(bus)) ==> AllOk(bus) && (rslt == OK <==> ReadPossible(len))
      ensures old(AllOk(bus)) && !LengthValid(len) ==>
                rslt == E_RD_WR_LENGTH_INVALID && chip == WithMode(old(chip), false)
      decreases 2, 0
    {
      var aps;
      data := Noise(len);
      rslt, aps := LeavePowerSave();
      if LengthValid(len) && rslt == OK {
        if readWriteLen < len {
          rslt, data := ReadChunks(len);
        } else {
          rslt, data := BurstRead(FEATURE_CONFIG_ADDR, len);
        }
      } else {
        rslt := E_RD_WR_LENGTH_INVALID;
      }
      if rslt == OK {
        rslt := EnterPowerSave(aps);
      }
    }

    method ReadRegs(addr: byte, len: byte) returns (rslt: Rslt, data: seq<byte>)
      requires Valid() && (addr == FEATURE_CONFIG_ADDR ==> AtStart())
      modifies this`bus, this`chip
      ensures chip.Valid() && |data| == len
      ensures addr != FEATURE_CONFIG_ADDR ==>
                && chip == old(chip)
                && (rslt == OK ==> forall i :: 0 <= i < len ==> data[i] == chip.ReadByte(addr, i))
                && (old(AllOk(bus)) ==> AllOk(bus) && (rslt == OK <==> len + dummyByte <= MAX_BUFFER_SIZE))
      ensures addr == FEATURE_CONFIG_ADDR && rslt == OK ==>
                && len % 2 == 0 && len <= featureLen
                && (if readWriteLen < len then readWriteLen else len) + dummyByte <= MAX_BUFFER_SIZE
                && data == ChunkedRead(old(chip).memory, Start(), len, readWriteLen)
                && AtStart() && chip.PowerSave() && chip.memory == old(chip).memory && old(chip).SameOtherRegs(chip)
      ensures addr == FEATURE_CONFIG_ADDR && old(AllOk(bus)) ==>
                && AllOk(bus)
                && (rslt == OK <==>
                      && len % 2 == 0 && len <= featureLen
                      && (if readWriteLen < len then readWriteLen else len) + dummyByte <= MAX_BUFFER_SIZE)
                && (len % 2 == 1 || len > featureLen ==>
                      rslt == E_RD_WR_LENGTH_INVALID && chip == WithMode(old(chip), false))
      decreases if addr == FEATURE_CONFIG_ADDR then 2 else 0, 1
    {
      if addr == FEATURE_CONFIG_ADDR {
        rslt, data := ReadFeatures(len);
      } else {
        rslt, data := BurstRead(addr, len);
      }
    }
  }
}

/** Reading and writing the auxiliary sensor behind the accelerometer (bma4.c): byte-wise writes, and reads in bursts of
    the configured length. */
module AuxInterface {
  import opened MachineInts
  import opened Bma4Transport

  const AUX_FILE_SIZE: nat := 0x100

  const E_FAIL: Rslt := {6}

  /** The burst length for a configured code; for any other code the driver's read loop would never advance. */
  function BurstLength(code: byte): nat
    requires code <= 3
  {
    if code == 0 then 1 else if code == 1 then 2 else if code == 2 then 6 else 8
  }

  /** The auxiliary sensor's registers, the byte latched for the next write, the data registers of the last read, and
      the results of the bus operations to come. */
  datatype Aux = Aux(file: seq<byte>, latch: byte, data: seq<byte>, bus: seq<Rslt>) {
    predicate Valid() {
      |file| == AUX_FILE_SIZE && |data| == 8
    }

    function Result(): Rslt {
      if bus == [] then OK else bus[0]
    }

    function Used(): (a: Aux)
      ensures a.file == file && a.latch == latch && a.data == data
      ensures AllOk(bus) ==> AllOk(a.bus)
    {
      if bus == [] then this else this.(bus := bus[1..])
    }

    /** Writing the data register latches a byte. */
    function Latched(b: byte): (a: Aux)
      requires Valid()
      ensures a.Valid()
    {
      if Result() == OK then Used().(latch := b) else Used()
    }

    /** Writing the write address stores the latched byte there. */
    function Stored(addr: byte): (a: Aux)
      requires Valid()
      ensures a.Valid()
    {
      if Result() == OK then Used().(file := file[addr := latch]) else Used()
    }

    /** Writing the read address fetches the registers from there on into the data registers. */
    function Fetched(addr: byte): (a: Aux)
      requires Valid()
      ensures a.Valid() && a.file == file
    {
      if Result() == OK then Used().(data := seq<byte>(8, i requires 0 <= i < 8 => file[Register(addr, i)])) else Used()
    }
  }

  /** Register addresses wrap around eight bits. */
  function Register(addr: byte, i: nat): byte {
    U8(addr + i)
  }

  function Head(bus: seq<Rslt>): Rslt {
    if bus == [] then OK else bus[0]
  }

  function Tail(bus: seq<Rslt>): seq<Rslt> {
    if bus == [] then [] else bus[1..]
  }

  /** The result of one turn of the write loop, and the bus operations to come after it: it takes one operation if that
      fails, and else two. */
  function TurnResult(bus: seq<Rslt>): Rslt {
    if Head(bus) != OK then E_FAIL else Head(Tail(bus))
  }

  function AfterTurn(bus: seq<Rslt>): seq<Rslt> {
    if Head(bus) != OK then Tail(bus) else Tail(Tail(bus))
  }

  /** The auxiliary sensor after one turn. */
  function Turned(a: Aux, addr: byte, b: byte): (r: Aux)
    requires a.Valid()
    ensures r.Valid() && r.bus == AfterTurn(a.bus)
    ensures r.file == if TurnResult(a.bus) == OK then a.file[addr := b] else a.file
  {
    if a.Result() != OK then a.Latched(b) else a.Latched(b).Stored(addr)
  }

  /** The write loop, for any results of the bus: `p` is the byte it is at and `left` how often it still turns. It moves
      on only after a success, and only if there is more to do. */
  function WriteLoop(a: Aux, addr: byte, data: seq<byte>, p: nat, left: nat, rslt: Rslt): (r: (Aux, Rslt))
    requires a.Valid() && p + left <= |data|
    ensures r.0.Valid()
    decreases left
  {
    if left == 0 then (a, rslt)
    else
      var b, r := Turned(a, addr, data[p]), TurnResult(a.bus);
      if r == OK && left > 1 then WriteLoop(b, U8(addr + 1), data, p + 1, left - 1, r)
      else WriteLoop(b, addr, data, p, left - 1, r)
  }

  /** The registers after the whole data was stored from this address on. */
  function WriteAll(file: seq<byte>, addr: byte, data: seq<byte>): (r: seq<byte>)
    requires |file| == AUX_FILE_SIZE
    ensures |r| == AUX_FILE_SIZE
    decreases |data|
  {
    if data == [] then file else WriteAll(file[addr := data[0]], U8(addr + 1), data[1..])
  }

  /** The registers from this address on. */
  function ReadAll(file: seq<byte>, addr: byte, len: nat): (r: seq<byte>)
    requires |file| == AUX_FILE_SIZE
    ensures |r| == len
  {
    seq<byte>(len, i requires 0 <= i => file[Register(addr, i)])
  }

  /** Whether each of the coming turns succeeds, by the results of the bus. */
  function Turns(bus: seq<Rslt>, left: nat): (r: seq<bool>)
    ensures |r| == left
    decreases left
  {
    if left == 0 then [] else [TurnResult(bus) == OK] + Turns(AfterTurn(bus), left - 1)
  }

  predicate AllTurns(turns: seq<bool>) {
    forall k :: 0 <= k < |turns| ==> turns[k]
  }

  lemma {:induction false} AllOkTurns(bus: seq<Rslt>, left: nat)
    requires AllOk(bus)
    ensures AllTurns(Turns(bus, left))
    decreases left
  {
    if left > 0 {
      AllOkTurns(AfterTurn(bus), left - 1);
    }
  }

  lemma TurnsNext(bus: seq<Rslt>, left: nat)
    requires left > 0
    ensures Turns(bus, left)[0] == (TurnResult(bus) == OK)
    ensures Turns(bus, left)[1..] == Turns(AfterTurn(bus), left - 1)
  {
  }

  /** The registers after the turns of the loop, by which of them succeed: a turn that fails is not repeated, and the
      byte it was at takes the place of the next. */
  function StoredBy(file: seq<byte>, addr: byte, data: seq<byte>, p: nat, turns: seq<bool>): (r: seq<byte>)
    requires |file| == AUX_FILE_SIZE && p + |turns| <= |data|
    ensures |r| == AUX_FILE_SIZE
    decreases |turns|
  {
    if turns == [] then file
    else if !turns[0] then StoredBy(file, addr, data, p, turns[1..])
    else if |turns| == 1 then file[addr := data[p]]
    else StoredBy(file[addr := data[p]], U8(addr + 1), data, p + 1, turns[1..])
  }

  /** The state in which the next turn begins. */
  lemma LoopGoesOn(a: Aux, addr: byte, data: seq<byte>, p: nat, left: nat, rslt: Rslt)
    returns (b: Aux, next: byte, q: nat)
    requires a.Valid() && p + left <= |data| && left > 0
    ensures b == Turned(a, addr, data[p]) && q + left - 1 <= |data|
    ensures (next, q) == if TurnResult(a.bus) == OK && left > 1 then (U8(addr + 1), p + 1) else (addr, p)
    ensures WriteLoop(a, addr, data, p, left, rslt) == WriteLoop(b, next, data, q, left - 1, TurnResult(a.bus))
  {
    b := Turned(a, addr, data[p]);
    next, q := addr, p;
    if TurnResult(a.bus) == OK && left > 1 {
      next, q := U8(addr + 1), p + 1;
    }
  }

  /** What the loop stores depends only on which turns succeed. */
  lemma {:induction false} StoresByTurns(a: Aux, addr: byte, data: seq<byte>, p: nat, left: nat, rslt: Rslt)
    requires a.Valid() && p + left <= |data|
    ensures WriteLoop(a, addr, data, p, left, rslt).0.file == StoredBy(a.file, addr, data, p, Turns(a.bus, left))
    decreases left
  {
    if left > 0 {
      TurnsNext(a.bus, left);
      var b, next, q := LoopGoesOn(a, addr, data, p, left, rslt);
      StoresByTurns(b, next, data, q, left - 1, TurnResult(a.bus));
    }
  }

  /** The loop reports success exactly when its last turn succeeds, whatever happened before. */
  lemma {:induction false} ReportsLastTurn(a: Aux, addr: byte, data: seq<byte>, p: nat, left: nat, rslt: Rslt)
    requires a.Valid() && p + left <= |data|
    ensures WriteLoop(a, addr, data, p, left, rslt).1 == OK
       <==> if left == 0 then rslt == OK else Turns(a.bus, left)[left - 1]
    decreases left
  {
    if left > 0 {
      TurnsNext(a.bus, left);
      var b, next, q := LoopGoesOn(a, addr, data, p, left, rslt);
      ReportsLastTurn(b, next, data, q, left - 1, TurnResult(a.bus));
      assert left > 1 ==> Turns(a.bus, left)[left - 1] == Turns(a.bus, left)[1..][left - 2];
    }
  }

  /** When all turns succeed all of the data is stored. */
  lemma {:induction false} AllTurnsStoreAll(file: seq<byte>, addr: byte, data: seq<byte>, p: nat, turns: seq<bool>)
    requires |file| == AUX_FILE_SIZE && p + |turns| == |data| && AllTurns(turns)
    ensures StoredBy(file, addr, data, p, turns) == WriteAll(file, addr, data[p..])
    decreases |turns|
  {
    if turns != [] {
      var next := file[addr := data[p]];
      assert data[p..][1..] == data[p + 1..];
      if |turns| > 1 {
        AllTurnsStoreAll(next, U8(addr + 1), data, p + 1, turns[1..]);
      } else {
        assert WriteAll(next, U8(addr + 1), data[p + 1..]) == next;
      }
    }
  }

  /** The loop writes no register beyond the number of its turns. */
  lemma {:induction false} WritesWithinTurns(file: seq<byte>, addr: byte, data: seq<byte>, p: nat, turns: seq<bool>,
                                             x: nat)
    requires |file| == AUX_FILE_SIZE && p + |turns| <= |data| && |turns| <= x < AUX_FILE_SIZE
    ensures StoredBy(file, addr, data, p, turns)[Register(addr, x)] == file[Register(addr, x)]
    decreases |turns|
  {
    if turns != [] {
      RegistersDistinct(addr, x);
      if turns[0] && |turns| > 1 {
        RegisterShift(addr, x - 1);
        WritesWithinTurns(file[addr := data[p]], U8(addr + 1), data, p + 1, turns[1..], x - 1);
      } else if !turns[0] {
        WritesWithinTurns(file, addr, data, p, turns[1..], x);
      }
    }
  }

  /** After a failed turn that is not the last, the register of the last byte is never reached. */
  lemma {:induction false} LastRegisterMissed(file: seq<byte>, addr: byte, data: seq<byte>, p: nat, turns: seq<bool>,
                                              k: nat)
    requires |file| == AUX_FILE_SIZE && p + |turns| <= |data| && |turns| <= AUX_FILE_SIZE
    requires k < |turns| - 1 && !turns[k]
    ensures StoredBy(file, addr, data, p, turns)[Register(addr, |turns| - 1)] == file[Register(addr, |turns| - 1)]
    decreases |turns|
  {
    var last := |turns| - 1;
    if !turns[0] {
      WritesWithinTurns(file, addr, data, p, turns[1..], last);
    } else {
      RegistersDistinct(addr, last);
      RegisterShift(addr, last - 1);
      LastRegisterMissed(file[addr := data[p]], U8(addr + 1), data, p + 1, turns[1..], k - 1);
    }
  }

  /** With these results of the bus all of the data is stored, whatever the sensor held and whatever is written. */
  ghost predicate AlwaysStores(bus: seq<Rslt>, len: nat) {
    forall a: Aux, addr: byte, data: seq<byte> :: a.Valid() && a.bus == bus && |data| == len ==>
      WriteLoop(a, addr, data, 0, len, OK).0.file == WriteAll(a.file, addr, data)
  }

  lemma WithoutFailureAllIsStored(bus: seq<Rslt>, len: nat)
    requires len > 0 && AllTurns(Turns(bus, len))
    ensures AlwaysStores(bus, len)
  {
    forall a: Aux, addr: byte, data: seq<byte> | a.Valid() && a.bus == bus && |data| == len
      ensures WriteLoop(a, addr, data, 0, len, OK).0.file == WriteAll(a.file, addr, data)
    {
      StoresByTurns(a, addr, data, 0, len, OK);
      AllTurnsStoreAll(a.file, addr, data, 0, Turns(bus, len));
      assert data[0..] == data;
    }
  }

  /** After an early failure a last byte that differs from what its register held is not stored. */
  lemma EarlyFailureLosesData(a: Aux, addr: byte, data: seq<byte>, k: nat)
    requires a.Valid() && 1 <= |data| <= AUX_FILE_SIZE && data[|data| - 1] != a.file[Register(addr, |data| - 1)]
    requires k < |data| - 1 && !Turns(a.bus, |data|)[k]
    ensures WriteLoop(a, addr, data, 0, |data|, OK).0.file != WriteAll(a.file, addr, data)
  {
    var all := WriteAll(a.file, addr, data);
    StoresByTurns(a, addr, data, 0, |data|, OK);
    LastRegisterMissed(a.file, addr, data, 0, Turns(a.bus, |data|), k);
    ReadInvertsWrite(a.file, addr, data);
    assert all[Register(addr, |data| - 1)] == ReadAll(all, addr, |data|)[|data| - 1];
  }

  lemma EarlyFailureIsNotHidden(bus: seq<Rslt>, len: nat, k: nat)
    requires len <= AUX_FILE_SIZE && k < len - 1 && !Turns(bus, len)[k]
    ensures !AlwaysStores(bus, len)
  {
    var a := Aux(seq<byte>(AUX_FILE_SIZE, _ => 0), 0, seq<byte>(8, _ => 0), bus);
    var data := seq<byte>(len, _ => 1);
    EarlyFailureLosesData(a, 0, data, k);
  }

  /** A reported success can be trusted if and only if no turn before the last one failed. */
  lemma SuccessIsTrueIff(bus: seq<Rslt>, len: nat)
    requires 1 <= len <= AUX_FILE_SIZE && Turns(bus, len)[len - 1]
    ensures AlwaysStores(bus, len) <==> forall k :: 0 <= k < len - 1 ==> Turns(bus, len)[k]
  {
    if k: nat :| k < len - 1 && !Turns(bus, len)[k] {
      EarlyFailureIsNotHidden(bus, len, k);
    } else {
      WithoutFailureAllIsStored(bus, len);
    }
  }

  /** For instance: the first of two bytes fails on the bus, success is reported, and the data is not stored. */
  lemma FailureIsForgotten(a: Aux)
    requires a.Valid() && a.bus == [E_FAIL] && a.file[1] != 2
    ensures WriteLoop(a, 0, [1, 2], 0, 2, OK).1 == OK
    ensures WriteLoop(a, 0, [1, 2], 0, 2, OK).0.file != WriteAll(a.file, 0, [1, 2])
  {
    assert !Turns(a.bus, 2)[0] && Turns(a.bus, 2)[1];
    ReportsLastTurn(a, 0, [1, 2], 0, 2, OK);
    EarlyFailureLosesData(a, 0, [1, 2], 0);
  }

  lemma RegisterShift(addr: byte, i: nat)
    ensures Register(U8(addr + 1), i) == Register(addr, i + 1)
  {
  }

  lemma RegistersDistinct(addr: byte, i: nat)
    requires 0 < i < AUX_FILE_SIZE
    ensures Register(addr, i) != addr
  {
  }

  /** What is written outside the addressed registers, and to a register that is not written again. */
  lemma {:induction false} WriteAllKeeps(file: seq<byte>, addr: byte, data: seq<byte>, x: byte)
    requires |file| == AUX_FILE_SIZE && forall i :: 0 <= i < |data| ==> Register(addr, i) != x
    ensures WriteAll(file, addr, data)[x] == file[x]
    decreases |data|
  {
    if data != [] {
      var next := U8(addr + 1);
      forall i | 0 <= i < |data| - 1
        ensures Register(next, i) != x
      {
        RegisterShift(addr, i);
        assert Register(addr, i + 1) != x;
      }
      assert Register(addr, 0) == addr;
      WriteAllKeeps(file[addr := data[0]], U8(addr + 1), data[1..], x);
    }
  }

  /** Reading back from the same address returns what was written, for up to the whole register file. */
  lemma {:induction false} ReadInvertsWrite(file: seq<byte>, addr: byte, data: seq<byte>)
    requires |file| == AUX_FILE_SIZE && |data| <= AUX_FILE_SIZE
    ensures ReadAll(WriteAll(file, addr, data), addr, |data|) == data
    decreases |data|
  {
    if data != [] {
      var rest, file1 := data[1..], file[addr := data[0]];
      var next := U8(addr + 1);
      var r := WriteAll(file1, next, rest);
      ReadInvertsWrite(file1, next, rest);
      forall i | 0 <= i < |rest|
        ensures Register(next, i) != addr
      {
        RegisterShift(addr, i);
        RegistersDistinct(addr, i + 1);
      }
      WriteAllKeeps(file1, next, rest, addr);
      forall i | 0 <= i < |data|
        ensures r[Register(addr, i)] == data[i]
      {
        if i > 0 {
          RegisterShift(addr, i - 1);
          assert ReadAll(r, next, |rest|)[i - 1] == rest[i - 1];
        }
      }
    }
  }

  /** The index of burst k, in the driver's eight-bit counter. */
  function BurstIndex(code: byte, k: nat): byte
    requires code <= 3
  {
    U8(k * BurstLength(code))
  }

  /** The bursts tile a buffer of this length: each starts where the one before ended, and some burst reaches the
      end. */
  ghost predicate BurstsTile(code: byte, len: nat)
    requires code <= 3
  {
    exists n: nat :: n * BurstLength(code) >= len && AllInOrder(code, n)
  }

  predicate AllInOrder(code: byte, n: nat)
    requires code <= 3
  {
    forall k :: 0 <= k <= n ==> BurstIndex(code, k) as int == k * BurstLength(code)
  }

  /** The longest buffer an eight-bit counter can walk through in steps of this burst length. */
  function MaxLength(code: byte): nat
    requires code <= 3
  {
    if code == 0 then 255 else if code == 1 then 254 else if code == 2 then 252 else 248
  }

  lemma InOrderIsBounded(code: byte, n: nat)
    requires code <= 3 && AllInOrder(code, n)
    ensures n * BurstLength(code) <= MaxLength(code)
  {
    assert BurstIndex(code, n) as int == n * BurstLength(code);
  }

  /** A value the eight-bit counter takes, and that one more burst from there does not wrap it. */
  predicate AtBurst(code: byte, count: byte)
    requires code <= 3
  {
    if code == 0 then true else if code == 1 then count % 2 == 0 else if code == 2 then count % 6 == 0
    else count % 8 == 0
  }

  lemma NextBurst(code: byte, count: byte)
    requires code <= 3 && AtBurst(code, count) && count < MaxLength(code)
    ensures count + BurstLength(code) <= MaxLength(code) && AtBurst(code, count + BurstLength(code))
  {
  }

  lemma RegisterAdds(addr: byte, j: nat, i: nat)
    ensures Register(Register(addr, j), i) == Register(addr, j + i)
  {
  }

  /** The first n bytes of the buffer hold the registers from this address on. */
  predicate Filled(buffer: seq<byte>, n: nat, addr: byte, file: seq<byte>)
    requires n <= |buffer| && |file| == AUX_FILE_SIZE
  {
    forall i :: 0 <= i < n ==> buffer[i] == file[Register(addr, i)]
  }

  /** A burst from register number j on extends the part of the buffer that is filled. */
  lemma BurstContinues(addr: byte, j: nat, n: nat, before: seq<byte>, buffer: seq<byte>, file: seq<byte>)
    requires |file| == AUX_FILE_SIZE && j + n <= |buffer| == |before| && Filled(before, j, addr, file)
    requires forall i :: 0 <= i < j ==> buffer[i] == before[i]
    requires forall i :: 0 <= i < n ==> buffer[j + i] == file[Register(Register(addr, j), i)]
    ensures Filled(buffer, j + n, addr, file)
  {
    forall i | j <= i < j + n
      ensures buffer[i] == file[Register(addr, i)]
    {
      RegisterAdds(addr, j, i - j);
      assert buffer[j + (i - j)] == file[Register(Register(addr, j), i - j)];
    }
  }

  /** The bursts tile the buffer exactly up to that length: beyond it the counter wraps around before the end is
      reached, and starts overwriting the buffer. */
  lemma BurstsTileIff(code: byte, len: nat)
    requires code <= 3
    ensures BurstsTile(code, len) <==> len <= MaxLength(code)
  {
    if len <= MaxLength(code) {
      var n := if code == 0 then 255 else if code == 1 then 127 else if code == 2 then 42 else 31;
      assert n * BurstLength(code) == MaxLength(code);
      forall k | 0 <= k <= n
        ensures BurstIndex(code, k) as int == k * BurstLength(code)
      {
        assert 0 <= k * BurstLength(code) <= n * BurstLength(code);
      }
      assert AllInOrder(code, n);
    } else if BurstsTile(code, len) {
      var n: nat :| n * BurstLength(code) >= len && AllInOrder(code, n);
      InOrderIsBounded(code, n);
    }
  }

  class AuxPort {
    var aux: Aux
    const burstCode: byte

    constructor (aux: Aux, burstCode: byte)
      ensures this.aux == aux && this.burstCode == burstCode
    {
      this.aux, this.burstCode := aux, burstCode;
    }

    /** Byte by byte: latch the byte, then name the register. */
    method AuxWrite(auxRegAddr: byte, auxData: seq<byte>) returns (rslt: Rslt)
      requires aux.Valid() && |auxData| < 0x1_0000
      modifies this`aux
      ensures aux.Valid()
      ensures auxData == [] ==> aux == old(aux) && rslt == E_RD_WR_LENGTH_INVALID
      ensures auxData != [] ==> (aux, rslt) == WriteLoop(old(aux), auxRegAddr, auxData, 0, |auxData|, OK)
      ensures auxData != [] ==> (rslt == OK <==> Turns(old(aux).bus, |auxData|)[|auxData| - 1])
      ensures auxData != [] && old(AllOk(aux.bus)) ==>
                rslt == OK && aux.file == WriteAll(old(aux).file, auxRegAddr, auxData)
    {
      rslt := OK;
      if |auxData| > 0 {
        var addr: byte, p: nat, len: nat := auxRegAddr, 0, |auxData|;
        while len > 0
          invariant aux.Valid() && p + len <= |auxData|
          invariant WriteLoop(old(aux), auxRegAddr, auxData, 0, |auxData|, OK)
                 == WriteLoop(aux, addr, auxData, p, len, rslt)
        {
          len := len - 1;
          rslt := aux.Result();
          aux := aux.Latched(auxData[p]);
          if rslt == OK {
            rslt := aux.Result();
            aux := aux.Stored(addr);
            if rslt == OK && len > 0 {
              p := p + 1;
              addr := U8(addr + 1);
            }
          } else {
            rslt := E_FAIL;
          }
        }
        ReportsLastTurn(old(aux), auxRegAddr, auxData, 0, |auxData|, OK);
        if old(AllOk(aux.bus)) {
          AllOkTurns(old(aux).bus, |auxData|);
          WithoutFailureAllIsStored(old(aux).bus, |auxData|);
        }
      } else {
        rslt := E_RD_WR_LENGTH_INVALID;
      }
    }

    /** One burst: name the first register, read the data registers, and copy as many as are wanted. */
    method ReadBurst(before: Rslt, addr: byte, auxData: array<byte>, at: nat, n: nat) returns (rslt: Rslt)
      requires aux.Valid() && n <= 8 && at + n <= auxData.Length
      modifies this`aux, auxData
      ensures aux.Valid() && aux.file == old(aux).file
      ensures forall i :: 0 <= i < auxData.Length && !(at <= i < at + n) ==> auxData[i] == old(auxData[i])
      ensures rslt == OK ==>
                before == OK && forall i :: 0 <= i < n ==> auxData[at + i] == aux.file[Register(addr, i)]
      ensures old(AllOk(aux.bus)) ==> AllOk(aux.bus) && (before == OK ==> rslt == OK)
    {
      rslt := before + aux.Result();
      aux := aux.Fetched(addr);
      if rslt == OK {
        var data := aux.data;
        assert forall i :: 0 <= i < 8 ==> data[i] == aux.file[Register(addr, i)];
        rslt := aux.Result();
        aux := aux.Used();
        if rslt == OK {
          for lenCount := 0 to n
            modifies auxData
            invariant forall i :: 0 <= i < auxData.Length && !(at <= i < at + n) ==> auxData[i] == old(auxData[i])
            invariant forall i :: 0 <= i < lenCount ==> auxData[at + i] == data[i]
          {
            auxData[at + lenCount] := data[lenCount];
          }
        } else {
          rslt := E_RD_WR_LENGTH_INVALID;
        }
      } else {
        rslt := E_FAIL;
      }
    }

    /** One turn of the read loop, which extends the filled part of the buffer. */
    method ReadTurn(before: Rslt, auxRegAddr: byte, addr: byte, auxData: array<byte>, at: byte, len: uint16)
      returns (rslt: Rslt, next: byte)
      requires aux.Valid() && burstCode <= 3 && at < len <= auxData.Length
      requires before == OK ==>
                 addr == Register(auxRegAddr, at) && Filled(auxData[..], at, auxRegAddr, aux.file)
      modifies this`aux, auxData
      ensures aux.Valid() && aux.file == old(aux).file
      ensures forall i :: len <= i < auxData.Length ==> auxData[i] == old(auxData[i])
      ensures rslt == OK ==>
                && next == Register(auxRegAddr, at + BurstLength(burstCode))
                && Filled(auxData[..], if at + BurstLength(burstCode) < len then at + BurstLength(burstCode) else len,
                          auxRegAddr, aux.file)
      ensures old(AllOk(aux.bus)) && before == OK ==> rslt == OK && AllOk(aux.bus)
    {
      var burstLen := BurstLength(burstCode);
      var readLength := if len - at < burstLen then len - at else burstLen;
      rslt := ReadBurst(before, addr, auxData, at, readLength);
      next := addr;
      if rslt == OK {
        BurstContinues(auxRegAddr, at, readLength, old(auxData[..]), auxData[..], aux.file);
        RegisterAdds(auxRegAddr, at, burstLen);
        next := U8(addr + burstLen);
      }
    }

    /** Burst by burst. A success is honest: the buffer then holds the registers, whatever the bus did. */
    method AuxRead(auxRegAddr: byte, auxData: array<byte>, len: uint16) returns (rslt: Rslt)
      requires aux.Valid() && burstCode <= 3 && len <= MaxLength(burstCode) && len <= auxData.Length
      modifies this`aux, auxData
      ensures aux.Valid() && aux.file == old(aux).file
      ensures rslt == OK ==> auxData[..len] == ReadAll(aux.file, auxRegAddr, len)
      ensures forall i :: len <= i < auxData.Length ==> auxData[i] == old(auxData[i])
      ensures old(AllOk(aux.bus)) ==> rslt == OK
    {
      rslt := OK;
      var addr: byte := auxRegAddr;
      var burstCount: byte := 0;
      while burstCount < len
        invariant aux.Valid() && aux.file == old(aux).file
        invariant AtBurst(burstCode, burstCount) && burstCount <= MaxLength(burstCode)
        invariant old(AllOk(aux.bus)) ==> rslt == OK && AllOk(aux.bus)
        invariant rslt == OK ==>
                    && addr == Register(auxRegAddr, burstCount)
                    && Filled(auxData[..], if burstCount < len then burstCount else len, auxRegAddr, aux.file)
        invariant forall i :: len <= i < auxData.Length ==> auxData[i] == old(auxData[i])
        decreases MaxLength(burstCode) - burstCount
      {
        NextBurst(burstCode, burstCount);
        rslt, addr := ReadTurn(rslt, auxRegAddr, addr, auxData, burstCount, len);
        burstCount := U8(burstCount + BurstLength(burstCode));
      }
    }
  }
}

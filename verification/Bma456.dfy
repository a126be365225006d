/** The setters and getters of the sensor's feature configuration (bma456.c), each a read-modify-write of the feature
    block over the chunked transport. */
module Bma456 {
  import opened MachineInts
  import opened ChunkedTransfer
  import opened Bma4Transport
  import opened FeatureBlock

  const CHIP_ID: byte := 0x16

  /** Bytes as the bus carries them and as the bit-fields see them. */
  function ToBytes(s: seq<bv8>): (r: seq<byte>)
    ensures |r| == |s|
  {
    seq<byte>(|s|, k requires 0 <= k < |s| => s[k] as int)
  }

  function FromBytes(s: seq<byte>): (r: seq<bv8>)
    ensures |r| == |s|
  {
    seq(|s|, k requires 0 <= k < |s| => s[k] as bv8)
  }

  /** The feature block in the sensor's memory. */
  function BlockIn(memory: seq<byte>, start: nat): Block
    requires 2 * start + FEATURE_SIZE <= |memory|
  {
    FromBytes(memory[2 * start..2 * start + FEATURE_SIZE])
  }

  /** The memory outside the feature block. */
  predicate SameOutside(memory1: seq<byte>, memory2: seq<byte>, start: nat) {
    && |memory1| == |memory2|
    && forall k :: 0 <= k < |memory1| && !(2 * start <= k < 2 * start + FEATURE_SIZE) ==> memory1[k] == memory2[k]
  }

  /** A successful write leaves this block in the sensor and touches nothing else. */
  predicate Updated(before: Chip, after: Chip, start: nat, block: Block)
    requires before.Valid() && after.Valid() && 2 * start + FEATURE_SIZE <= MEMORY_SIZE
  {
    && BlockIn(after.memory, start) == block && SameOutside(before.memory, after.memory, start)
    && before.SameOtherRegs(after) && after.Pointer() == before.Pointer() && after.PowerSave()
  }

  /** What a successful setter leaves in the sensor. */
  predicate Performed(before: Chip, after: Chip, start: nat, op: Op)
    requires before.Valid() && after.Valid() && 2 * start + FEATURE_SIZE <= MEMORY_SIZE
  {
    Updated(before, after, start, Apply(BlockIn(before.memory, start), op))
  }

  /** Reading the first bytes of the block in chunks of even length. */
  lemma ReadIsPrefix(memory: seq<byte>, start: nat, len: nat, rw: nat)
    requires 2 * start + FEATURE_SIZE <= |memory| && len <= FEATURE_SIZE && rw > 0 && rw % 2 == 0
    ensures FromBytes(ChunkedRead(memory, start, len, rw)) == BlockIn(memory, start)[..len]
  {
    forall i | 0 <= i < len
      ensures ChunkedRead(memory, start, len, rw)[i] == memory[2 * start + i]
    {
      EvenReadAddress(start, rw, i);
    }
  }

  lemma WrittenByte(memory: seq<byte>, start: nat, config: seq<bv8>, k: nat)
    requires 2 * start + FEATURE_SIZE <= |memory| && |config| <= FEATURE_SIZE && k < FEATURE_SIZE
    ensures BlockIn(OneShot(memory, start, ToBytes(config)), start)[k]
         == if k < |config| then config[k] else BlockIn(memory, start)[k]
  {
    var after := OneShot(memory, start, ToBytes(config));
    assert BlockIn(after, start)[k] == after[2 * start + k] as bv8;
    if k < |config| {
      assert after[2 * start + k] == ToBytes(config)[k] == config[k] as int;
    } else {
      assert after[2 * start + k] == memory[2 * start + k];
    }
  }

  /** Writing a changed prefix back replaces just that prefix. */
  lemma WriteIsUpdate(memory: seq<byte>, start: nat, config: seq<bv8>, rw: nat)
    requires 2 * start + FEATURE_SIZE <= |memory| && |config| <= FEATURE_SIZE && rw > 0 && rw % 2 == 0
    ensures var after := Chunked(memory, start, ToBytes(config), rw);
            && SameOutside(memory, after, start)
            && BlockIn(after, start) == config + BlockIn(memory, start)[|config|..]
  {
    EvenChunkingIsExact(memory, start, ToBytes(config), rw);
    var b, r := BlockIn(memory, start), BlockIn(OneShot(memory, start, ToBytes(config)), start);
    forall k | 0 <= k < FEATURE_SIZE
      ensures r[k] == if k < |config| then config[k] else b[k]
    {
      WrittenByte(memory, start, config, k);
    }
    assert r == config + b[|config|..];
  }

  lemma UpdateIsPerformed(b: Block, op: Op, config: seq<bv8>)
    requires config == Apply(b, op)[..TransferLength(op)]
    ensures |config| == TransferLength(op) && config + b[|config|..] == Apply(b, op)
  {
    OnlyTransferredBytesChange(b, op);
    var r := Apply(b, op);
    assert r == r[..TransferLength(op)] + r[TransferLength(op)..];
  }

  class Sensor {
    const dev: Bma4
    const chipId: byte

    constructor (dev: Bma4, chipId: byte)
      ensures this.dev == dev && this.chipId == chipId
    {
      this.dev, this.chipId := dev, chipId;
    }

    /** The set-up by the driver's initialisation: the chunk length was made even and fits the block. */
    ghost predicate Valid()
      reads dev
    {
      && dev.Valid() && dev.AtStart() && dev.featureLen == FEATURE_SIZE
      && dev.readWriteLen % 2 == 0 && dev.readWriteLen <= FEATURE_SIZE
    }

    ghost function Config(): Block
      reads dev
      requires Valid()
    {
      BlockIn(dev.chip.memory, dev.Start())
    }

    /** The contract of a setter: refused for another chip, all of the operation on success, and successful unless the
        bus fails. */
    twostate predicate Did(rslt: Rslt, op: Op)
      reads dev
      requires old(Valid())
    {
      && dev.chip.Valid()
      && (chipId != CHIP_ID ==> rslt == E_INVALID_SENSOR && dev.chip == old(dev.chip))
      && (chipId == CHIP_ID && rslt == OK ==>
            Valid() && Performed(old(dev.chip), dev.chip, dev.Start(), op))
      && (chipId == CHIP_ID && old(AllOk(dev.bus)) ==> rslt == OK && AllOk(dev.bus))
    }

    /** The contract of a getter. */
    twostate predicate Unchanged(rslt: Rslt)
      reads dev
      requires old(Valid())
    {
      && dev.chip.Valid()
      && (chipId != CHIP_ID ==> rslt == E_INVALID_SENSOR && dev.chip == old(dev.chip))
      && (chipId == CHIP_ID && rslt == OK ==>
            && Valid() && dev.chip.memory == old(dev.chip).memory
            && old(dev.chip).SameOtherRegs(dev.chip) && dev.chip.PowerSave())
      && (chipId == CHIP_ID && old(AllOk(dev.bus)) ==> rslt == OK && AllOk(dev.bus))
    }

    method ReadConfig(len: byte) returns (rslt: Rslt, config: seq<bv8>)
      requires Valid() && len % 2 == 0 && len <= FEATURE_SIZE && chipId == CHIP_ID
      modifies dev`bus, dev`chip
      ensures Unchanged(rslt) && |config| == len
      ensures rslt == OK ==> config == old(Config())[..len]
    {
      var data;
      rslt, data := dev.ReadRegs(FEATURE_CONFIG_ADDR, len);
      config := FromBytes(data);
      ReadIsPrefix(old(dev.chip).memory, dev.Start(), len, dev.readWriteLen);
    }

    method WriteConfig(config: seq<bv8>, ghost before: Chip, ghost block: Block) returns (rslt: Rslt)
      requires Valid() && chipId == CHIP_ID && before.Valid()
      requires dev.chip.memory == before.memory && before.SameOtherRegs(dev.chip) && before.Pointer() == dev.Start()
      requires |config| <= FEATURE_SIZE && |config| % 2 == 0 && config + Config()[|config|..] == block
      modifies dev`bus, dev`chip
      ensures dev.chip.Valid()
      ensures rslt == OK ==> Valid() && Updated(before, dev.chip, dev.Start(), block)
      ensures old(AllOk(dev.bus)) ==> rslt == OK && AllOk(dev.bus)
    {
      rslt := dev.WriteRegs(FEATURE_CONFIG_ADDR, ToBytes(config));
      WriteIsUpdate(before.memory, dev.Start(), config, dev.readWriteLen);
    }

    /** Writes back what the buffer of an operation has become. */
    method WriteBack(config: seq<bv8>, ghost before: Chip, ghost op: Op) returns (rslt: Rslt)
      requires Valid() && chipId == CHIP_ID && before.Valid()
      requires dev.chip.memory == before.memory && before.SameOtherRegs(dev.chip) && before.Pointer() == dev.Start()
      requires config == Apply(Config(), op)[..TransferLength(op)]
      modifies dev`bus, dev`chip
      ensures dev.chip.Valid()
      ensures rslt == OK ==> Valid() && Performed(before, dev.chip, dev.Start(), op)
      ensures old(AllOk(dev.bus)) ==> rslt == OK && AllOk(dev.bus)
    {
      UpdateIsPerformed(Config(), op, config);
      rslt := WriteConfig(config, before, Apply(Config(), op));
    }

    method SetAnyMotionConfig(threshold: bv16, nomotion: bv8, duration: bv16) returns (rslt: Rslt)
      requires Valid()
      modifies dev`bus, dev`chip
      ensures Did(rslt, SetAnyMotion(threshold, nomotion, duration))
    {
      if chipId == CHIP_ID {
        var config;
        rslt, config := ReadConfig(4);
        if rslt == OK {
          config := config[0 := Lsb(threshold)];
          config := config[1 := Msb(threshold)];
          config := config[1 := config[1] | (nomotion << 3)];
          var d := Word(config[2], config[3]);
          d := SetLow(d, 0x1FFF, duration);
          config := config[2 := Lsb(d)];
          config := config[3 := Msb(d)];
          var err := WriteBack(config, old(dev.chip), SetAnyMotion(threshold, nomotion, duration));
          rslt := rslt + err;
        }
      } else {
        rslt := E_INVALID_SENSOR;
      }
    }

    method AnyMotionEnableAxis(axes: bv8) returns (rslt: Rslt)
      requires Valid()
      modifies dev`bus, dev`chip
      ensures Did(rslt, EnableAxes(axes))
    {
      if chipId == CHIP_ID {
        var config;
        rslt, config := ReadConfig(4);
        if rslt == OK {
          config := config[3 := SetSlice(config[3], 5, 0xE0, axes)];
          var err := WriteBack(config, old(dev.chip), EnableAxes(axes));
          rslt := rslt + err;
        }
      } else {
        rslt := E_INVALID_SENSOR;
      }
    }

    method SetRemapAxes(remap: Remap) returns (rslt: Rslt)
      requires Valid()
      modifies dev`bus, dev`chip
      ensures Did(rslt, SetRemap(remap))
    {
      if chipId == CHIP_ID {
        var config;
        rslt, config := ReadConfig(64);
        if rslt == OK {
          var xAxis, xSign := remap.x & 0x03, (remap.xSign << 2) & 0x04;
          var yAxis, ySign := (remap.y << 3) & 0x18, (remap.ySign << 5) & 0x20;
          var zAxis := (remap.z << 6) & 0xC0;
          config := config[62 := xAxis | xSign | yAxis | ySign | zAxis];
          config := config[63 := remap.zSign & 0x01];
          var err := WriteBack(config, old(dev.chip), SetRemap(remap));
          rslt := rslt + err;
        }
      } else {
        rslt := E_INVALID_SENSOR;
      }
    }

    method StepCounterSetWatermark(watermark: bv16) returns (rslt: Rslt)
      requires Valid()
      modifies dev`bus, dev`chip
      ensures Did(rslt, SetWatermark(watermark))
    {
      if chipId == CHIP_ID {
        var config;
        rslt, config := ReadConfig(64);
        if rslt == OK {
          var d := Word(config[54], config[55]);
          d := SetLow(d, 0x03FF, watermark);
          config := config[54 := Lsb(d)];
          config := config[55 := Msb(d)];
          var err := WriteBack(config, old(dev.chip), SetWatermark(watermark));
          rslt := rslt + err;
        }
      } else {
        rslt := E_INVALID_SENSOR;
      }
    }

    method ResetSteps() returns (rslt: Rslt)
      requires Valid()
      modifies dev`bus, dev`chip
      ensures Did(rslt, ResetStepCounter)
    {
      if chipId == CHIP_ID {
        var config;
        rslt, config := ReadConfig(64);
        if rslt == OK {
          config := config[55 := SetSlice(config[55], 2, 0x04, 1)];
          var err := WriteBack(config, old(dev.chip), ResetStepCounter);
          rslt := rslt + err;
        }
      } else {
        rslt := E_INVALID_SENSOR;
      }
    }

    method StepDetectorEnable(on: bv8) returns (rslt: Rslt)
      requires Valid()
      modifies dev`bus, dev`chip
      ensures Did(rslt, StepDetector(on))
    {
      if chipId == CHIP_ID {
        var config;
        rslt, config := ReadConfig(64);
        if rslt == OK {
          config := config[55 := SetSlice(config[55], 3, 0x08, on)];
          var err := WriteBack(config, old(dev.chip), StepDetector(on));
          rslt := rslt + err;
        }
      } else {
        rslt := E_INVALID_SENSOR;
      }
    }

    method StepCounterSetParameter(params: Parameters) returns (rslt: Rslt)
      requires Valid()
      modifies dev`bus, dev`chip
      ensures Did(rslt, SetParameters(params))
    {
      if chipId == CHIP_ID {
        var config;
        rslt, config := ReadConfig(64);
        if rslt == OK {
          config := WithParameters(config, params);
          var err := WriteBack(config, old(dev.chip), SetParameters(params));
          rslt := rslt + err;
        }
      } else {
        rslt := E_INVALID_SENSOR;
      }
    }

    method WakeupSetSensitivity(sensitivity: bv8) returns (rslt: Rslt)
      requires Valid()
      modifies dev`bus, dev`chip
      ensures Did(rslt, SetSensitivity(sensitivity))
    {
      if chipId == CHIP_ID {
        var config;
        rslt, config := ReadConfig(64);
        if rslt == OK {
          config := config[56 := SetSlice(config[56], 1, 0x0E, sensitivity)];
          var err := WriteBack(config, old(dev.chip), SetSensitivity(sensitivity));
          rslt := rslt + err;
        }
      } else {
        rslt := E_INVALID_SENSOR;
      }
    }

    method TapSelection(tap: bv8) returns (rslt: Rslt)
      requires Valid()
      modifies dev`bus, dev`chip
      ensures Did(rslt, SelectTap(tap))
    {
      if chipId == CHIP_ID {
        var config;
        rslt, config := ReadConfig(64);
        if rslt == OK {
          config := config[56 := SetSlice(config[56], 4, 0x10, tap)];
          var err := WriteBack(config, old(dev.chip), SelectTap(tap));
          rslt := rslt + err;
        }
      } else {
        rslt := E_INVALID_SENSOR;
      }
    }

    /** How many bytes are transferred to switch a feature. */
    method UpdateLen(feature: bv8, enable: bv8) returns (len: byte)
      ensures len == FeatureLength(feature, enable)
    {
      len := FEATURE_SIZE;
      if feature == ANY_MOTION || feature == NO_MOTION {
        len := 2;
        if enable == 0 {
          len := len + 2;
        }
      }
    }

    /** The bits of the step counter, activity, wake-up and tilt features in the buffer. */
    method SwitchBits(buffer: Block, feature: bv8, on: bool) returns (config: Block)
      ensures config[55] == StepByte(buffer[55], feature, on)
      ensures config[56] == if Selects(feature, WAKEUP) then SetBit(buffer[56], 0x01, on) else buffer[56]
      ensures config[58] == if Selects(feature, WRIST_TILT) then SetBit(buffer[58], 0x01, on) else buffer[58]
      ensures forall k :: 0 <= k < FEATURE_SIZE && k !in {55, 56, 58} ==> config[k] == buffer[k]
    {
      config := buffer;
      if Selects(feature, STEP_CNTR) {
        config := config[55 := SetBit(config[55], 0x10, on)];
      }
      if Selects(feature, ACTIVITY) {
        config := config[55 := SetBit(config[55], 0x20, on)];
      }
      if Selects(feature, WAKEUP) {
        config := config[56 := SetBit(config[56], 0x01, on)];
      }
      if Selects(feature, WRIST_TILT) {
        config := config[58 := SetBit(config[58], 0x01, on)];
      }
    }

    /** The feature bits in the buffer; bytes beyond what was read are zero and not written back. */
    method FeatureBuffer(buffer: Block, feature: bv8, enable: bv8) returns (config: Block)
      ensures Buffered(config, buffer, feature, enable == 1)
    {
      var on := enable == 1;
      config := SwitchBits(buffer, feature, on);
      if SelectsMotion(feature) {
        config := config[1 := SelectionByte(config[1], feature, on)];
        if !on {
          config := config[3 := config[3] & !0xE0];
        }
      }
    }

    /** Reads, switches and writes back the bytes that the mask calls for. */
    method SwitchFeature(feature: bv8, enable: bv8) returns (rslt: Rslt)
      requires Valid()
      modifies dev`bus, dev`chip
      ensures Did(rslt, SetFeature(feature, enable))
    {
      if chipId == CHIP_ID {
        var len := UpdateLen(feature, enable);
        var config;
        rslt, config := ReadConfig(len);
        if rslt == OK {
          var buffer: Block := config + seq(FEATURE_SIZE - len, _ => 0);
          var changed := FeatureBuffer(buffer, feature, enable);
          BufferedPrefix(changed, buffer, old(Config()), feature, enable);
          var err := WriteBack(changed[..len], old(dev.chip), SetFeature(feature, enable));
          rslt := rslt + err;
        }
      } else {
        rslt := E_INVALID_SENSOR;
      }
    }

    method FeatureEnable(feature: bv8, enable: bv8) returns (rslt: Rslt)
      requires Valid()
      modifies dev`bus, dev`chip
      ensures Did(rslt, SetFeature(feature, enable))
      ensures rslt == OK && (feature & 0x02 > 0 || feature & 0x04 > 0) ==>
                Valid() && (enable == 0 ==> Abs(Config()).motion.axes == 0)
                && (enable == 1 ==> Abs(Config()).motion.axes == Abs(old(Config())).motion.axes)
    {
      if feature & 0x02 > 0 || feature & 0x04 > 0 {
        MotionSwitchAndAxes(Config(), feature, enable);
      }
      rslt := SwitchFeature(feature, enable);
    }

    /** The getters read the whole block, or its first four bytes, and decode their fields. */
    method GetAnyMotionConfig() returns (rslt: Rslt, threshold: bv16, nomotion: bv8, duration: bv16)
      requires Valid()
      modifies dev`bus, dev`chip
      ensures Unchanged(rslt)
      ensures rslt == OK ==>
                var m := Abs(old(Config())).motion;
                threshold == m.threshold && nomotion == m.nomotion && duration == m.duration
    {
      threshold, nomotion, duration := 0, 0, 0;
      if chipId == CHIP_ID {
        var config;
        rslt, config := ReadConfig(4);
        if rslt == OK {
          threshold := Word(config[0], config[1]) & 0x07FF;
          var anymotion := ((Word(config[0], config[1]) >> 8) as bv8) & 0x08;
          nomotion := anymotion >> 3;
          duration := Word(config[2], config[3]) & 0x1FFF;
        }
      } else {
        rslt := E_INVALID_SENSOR;
      }
    }

    method GetRemapAxes() returns (rslt: Rslt, remap: Remap)
      requires Valid()
      modifies dev`bus, dev`chip
      ensures Unchanged(rslt) && (rslt == OK ==> remap == Abs(old(Config())).remap)
    {
      remap := Remap(0, 0, 0, 0, 0, 0);
      if chipId == CHIP_ID {
        var config;
        rslt, config := ReadConfig(64);
        if rslt == OK {
          remap := remap.(x := config[62] & 0x03, xSign := (config[62] & 0x04) >> 2);
          remap := remap.(y := (config[62] & 0x18) >> 3, ySign := (config[62] & 0x20) >> 5);
          remap := remap.(z := (config[62] & 0xC0) >> 6, zSign := config[63] & 0x01);
        }
      } else {
        rslt := E_INVALID_SENSOR;
      }
    }

    method StepCounterGetWatermark() returns (rslt: Rslt, watermark: bv16)
      requires Valid()
      modifies dev`bus, dev`chip
      ensures Unchanged(rslt) && (rslt == OK ==> watermark == Abs(old(Config())).steps.watermark)
    {
      watermark := 0;
      if chipId == CHIP_ID {
        var config;
        rslt, config := ReadConfig(64);
        if rslt == OK {
          watermark := Word(config[54], config[55]) & 0x03FF;
        }
      } else {
        rslt := E_INVALID_SENSOR;
      }
    }

    method StepCounterGetParameter() returns (rslt: Rslt, params: Parameters)
      requires Valid()
      modifies dev`bus, dev`chip
      ensures Unchanged(rslt) && (rslt == OK ==> params == Abs(old(Config())).params)
    {
      params := seq(PARAMETERS, _ => 0);
      if chipId == CHIP_ID {
        var config;
        rslt, config := ReadConfig(64);
        if rslt == OK {
          params := ParamsOf(config);
        }
      } else {
        rslt := E_INVALID_SENSOR;
      }
    }

    method WakeupGetSensitivity() returns (rslt: Rslt, sensitivity: bv8)
      requires Valid()
      modifies dev`bus, dev`chip
      ensures Unchanged(rslt) && (rslt == OK ==> sensitivity == Abs(old(Config())).wakeup.sensitivity)
    {
      sensitivity := 0;
      if chipId == CHIP_ID {
        var config;
        rslt, config := ReadConfig(64);
        if rslt == OK {
          sensitivity := GetSlice(config[56], 1, 0x0E);
        }
      } else {
        rslt := E_INVALID_SENSOR;
      }
    }
  }

  /** The buffer after the driver set the feature bits in it. */
  predicate Buffered(config: Block, buffer: Block, feature: bv8, on: bool) {
    && config[1] == SelectionByte(buffer[1], feature, on)
    && config[3] == (if SelectsMotion(feature) && !on then buffer[3] & !0xE0 else buffer[3])
    && config[55] == StepByte(buffer[55], feature, on)
    && config[56] == (if Selects(feature, WAKEUP) then SetBit(buffer[56], 0x01, on) else buffer[56])
    && config[58] == (if Selects(feature, WRIST_TILT) then SetBit(buffer[58], 0x01, on) else buffer[58])
    && forall k :: 0 <= k < FEATURE_SIZE && k !in {1, 3, 55, 56, 58} ==> config[k] == buffer[k]
  }

  /** What is written back of the buffer is what the operation makes of the whole block. */
  lemma BufferedPrefix(config: Block, buffer: Block, b: Block, feature: bv8, enable: bv8)
    requires Buffered(config, buffer, feature, enable == 1)
    requires forall k :: 0 <= k < FeatureLength(feature, enable) ==> buffer[k] == b[k]
    ensures config[..FeatureLength(feature, enable)]
         == WithFeature(b, feature, enable)[..FeatureLength(feature, enable)]
  {
    var n, r := FeatureLength(feature, enable), WithFeature(b, feature, enable);
    forall k | 0 <= k < n
      ensures config[k] == r[k]
    {
      if k in {1, 3, 55, 56, 58} {
      } else {
        assert config[k] == buffer[k];
      }
    }
  }
}

/** The sensor's side of the FIFO: how frames are laid out in the read-out, byte for byte. */
module FifoEncoder {
  import opened MachineInts
  import opened FifoFrames

  /** An acceleration as the application sees it. */
  datatype Vector = Vector(x: int, y: int, z: int)

  /** The number of raw units per delivered unit: the 12- and 14-bit values sit left-aligned in 16 bits. */
  function Unit(resolution: byte): int {
    if resolution == 12 then 16 else if resolution == 14 then 4 else 1
  }

  predicate AxisFits(v: int, resolution: byte) {
    -0x8000 <= v * Unit(resolution) < 0x8000
  }

  predicate Fits(v: Vector, resolution: byte) {
    AxisFits(v.x, resolution) && AxisFits(v.y, resolution) && AxisFits(v.z, resolution)
  }

  function AxisBytes(v: int, resolution: byte): (r: seq<byte>)
    ensures |r| == 2
  {
    var raw := U16(v * Unit(resolution));
    [raw % 0x100, raw / 0x100]
  }

  function VectorBytes(v: Vector, resolution: byte): (r: seq<byte>)
    ensures |r| == FIFO_A_LENGTH
  {
    AxisBytes(v.x, resolution) + AxisBytes(v.y, resolution) + AxisBytes(v.z, resolution)
  }

  /** The given bytes are in the data from index i on. */
  predicate At(d: seq<byte>, i: nat, bytes: seq<byte>) {
    i + |bytes| <= |d| && forall k :: 0 <= k < |bytes| ==> d[i + k] == bytes[k]
  }

  lemma AtSplits(d: seq<byte>, i: nat, a: seq<byte>, b: seq<byte>)
    requires At(d, i, a + b)
    ensures At(d, i, a) && At(d, i + |a|, b)
  {
    forall k | 0 <= k < |a|
      ensures d[i + k] == a[k]
    {
      assert (a + b)[k] == a[k];
    }
    forall k | 0 <= k < |b|
      ensures d[i + |a| + k] == b[k]
    {
      assert d[i + (|a| + k)] == (a + b)[|a| + k] == b[k];
    }
  }

  /** Two's complement: the raw value survives its two bytes. */
  lemma RawSurvives(raw: int16)
    ensures I16(U16(raw) % 0x100 + 0x100 * (U16(raw) / 0x100)) == raw
  {
    var u := U16(raw);
    assert u % 0x100 + 0x100 * (u / 0x100) == u;
    assert u == if raw < 0 then raw + 0x1_0000 else raw;
  }

  /** Scaling undoes the left alignment. */
  lemma ScalingInverts(v: int, resolution: byte)
    requires AxisFits(v, resolution)
    ensures Scaled(v * Unit(resolution), resolution) == v
  {
  }

  /** Whatever the unused low bits hold, the value is rounded toward zero. */
  lemma ScalingTruncates(raw: int16, resolution: byte)
    ensures var v, unit := Scaled(raw, resolution), Unit(resolution);
            if raw >= 0 then v * unit <= raw < (v + 1) * unit else (v - 1) * unit < raw <= v * unit
  {
  }

  lemma AxisRoundTrip(d: seq<byte>, j: nat, v: int, resolution: byte)
    requires AxisFits(v, resolution) && At(d, j, AxisBytes(v, resolution))
    ensures Scaled(RawAxis(d, j), resolution) == v
  {
    var raw := v * Unit(resolution);
    var bytes := AxisBytes(v, resolution);
    assert d[j + 0] == bytes[0] && d[j + 1] == bytes[1];
    RawSurvives(raw);
    ScalingInverts(v, resolution);
  }

  lemma VectorRoundTrip(d: seq<byte>, j: nat, v: Vector, resolution: byte)
    requires Fits(v, resolution) && At(d, j, VectorBytes(v, resolution))
    ensures AccelSample(d, j, resolution) == Accel(v.x, v.y, v.z)
  {
    var x, y, z := AxisBytes(v.x, resolution), AxisBytes(v.y, resolution), AxisBytes(v.z, resolution);
    AtSplits(d, j, x + y, z);
    AtSplits(d, j, x, y);
    AxisRoundTrip(d, j, v.x, resolution);
    AxisRoundTrip(d, j + 2, v.y, resolution);
    AxisRoundTrip(d, j + 4, v.z, resolution);
  }
}

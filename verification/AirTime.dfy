/** The time a LoRa packet is on the air (sx1262.c), in scaled integers. */
module AirTime {
  import opened MachineInts
  import opened Quotients

  type uint64 = x: int | 0 <= x < 0x1_0000_0000_0000_0000

  function U64(x: int): uint64 {
    x % 0x1_0000_0000_0000_0000
  }

  datatype RadioParam = RadioParam(sf: byte, bandwidth: byte, coderate: byte, preambleLen: uint16, crcOn: bool,
                                   headerMode: bool)

  /** The spreading factors of the modem, and the bandwidth codes whose frequency is a whole number of hertz. */
  predicate Supported(p: RadioParam) {
    5 <= p.sf <= 12 && p.bandwidth in {0x02, 0x03, 0x04, 0x05, 0x06}
  }

  /** Bandwidth codes the driver does not know; the remaining ones are rounded in floating point. */
  predicate UnknownBandwidth(code: byte) {
    code == 0x07 || code > 0x0A
  }

  function Hertz(code: byte): nat {
    if code == 0x02 then 31250
    else if code == 0x03 then 62500
    else if code == 0x04 then 125000
    else if code == 0x05 then 250000
    else 500000
  }

  /** Chips per symbol. */
  function Chips(sf: byte): nat {
    if sf == 0 then 1 else 2 * Chips(sf - 1)
  }

  /** The numerator of the payload's symbol count, which the driver computes in 32 bits. */
  function Numerator(p: RadioParam, len: byte): int {
    8 * len - 4 * p.sf + 28 + (if p.crcOn then 16 else 0) - (if p.headerMode then 0 else 20)
  }

  /** The payload's symbols beyond the first eight, in millionths, from the numerator as the driver has it. */
  function PayloadMillionths(num: uint32, sf: byte, coderate: byte): uint64
    requires sf > 0
  {
    var tmp := U64(num * 1000000) / (4 * sf);
    if tmp > 0 then
      if tmp % 1000000 < 10000 then U64(tmp / 1000000 * (coderate + 4) * 1000000)
      else U64((1 + tmp / 1000000) * (coderate + 4) * 1000000)
    else 0
  }

  /** The two parts of the duration, in microseconds, from the symbol time. */
  function TPreamble(preambleLen: uint16, ts: nat): uint64 {
    U64((preambleLen * 1000000 + 4250000) * ts) / 1000000
  }

  function TPayload(millionths: nat, ts: nat): uint64 {
    U64((8 * 1000000 + millionths) * ts) / 1000000
  }

  function Milliseconds(micros: nat): uint32 {
    U32(1 + micros / 1000)
  }

  /** The driver's result, in milliseconds. */
  function TimeOnAir(p: RadioParam, len: byte): int
    requires Supported(p) || UnknownBandwidth(p.bandwidth)
  {
    if UnknownBandwidth(p.bandwidth) then 0
    else
      var ts := U64(Chips(p.sf) * 1000000) / Hertz(p.bandwidth);
      var tmp := PayloadMillionths(U32(Numerator(p, len)), p.sf, p.coderate);
      Milliseconds(TPreamble(p.preambleLen, ts) + TPayload(tmp, ts))
  }

  /** The exact ceiling of a quotient. */
  function CeilDiv(a: nat, b: nat): nat
    requires b > 0
  {
    if a % b == 0 then a / b else a / b + 1
  }

  lemma CeilDivIsLeast(a: nat, b: nat)
    requires b > 0
    ensures var c := CeilDiv(a, b); c * b >= a && (c > 0 ==> (c - 1) * b < a)
  {
  }

  lemma CeilDivGrows(a1: nat, a2: nat, b: nat)
    requires b > 0 && a1 <= a2
    ensures CeilDiv(a1, b) <= CeilDiv(a2, b)
  {
    Division(a1, b);
    Division(a2, b);
    var d := a1 / b - a2 / b;
    assert d * b == a1 / b * b - a2 / b * b;
    if d >= 1 {
      MultipleAtLeast(d, b);
    }
  }

  /** The number of coded groups; none for a negative number of bits. */
  function TrueCount(num: int, b: nat): nat
    requires b > 0
  {
    if num < 0 then 0 else CeilDiv(num, b)
  }

  /** The bits that are spread over the coded groups: the payload, a checksum of 16 bits, a header of 20, and 8 more,
      less the 4 for each unit of the spreading factor that the first eight symbols carry. */
  function CodedBits(p: RadioParam, len: byte, header: bool): int {
    8 * len + (if p.crcOn then 16 else 0) + (if header then 20 else 0) + 8 - 4 * p.sf
  }

  /** The symbols of header, payload and checksum: each group of four times the spreading factor bits takes four symbols
      and as many more as the coding rate says. */
  function Symbols(p: RadioParam, len: byte, header: bool): nat
    requires p.sf > 0
  {
    8 + TrueCount(CodedBits(p, len, header), 4 * p.sf) * (4 + p.coderate)
  }

  /** The driver's numerator: it counts the header bits if the header mode is not zero. */
  lemma NumeratorIsBits(p: RadioParam, len: byte)
    ensures Numerator(p, len) == CodedBits(p, len, p.headerMode)
  {
  }

  function Times(a: real, b: real): real {
    a * b
  }

  /** The true duration over the rationals, in microseconds: the preamble, four and a quarter symbols, and those. */
  function SymbolCount(p: RadioParam, len: byte, header: bool): real
    requires p.sf > 0
  {
    p.preambleLen as real + 4.25 + Symbols(p, len, header) as real
  }

  function SymbolMicros(p: RadioParam): real {
    Chips(p.sf) as real * 1000000.0 / Hertz(p.bandwidth) as real
  }

  function Duration(p: RadioParam, len: byte, header: bool): real
    requires p.sf > 0
  {
    Times(SymbolCount(p, len, header), SymbolMicros(p))
  }

  /** The remainder test of the driver recognises exact divisibility: a proper fraction of a symbol is never below one
      hundredth. */
  lemma RemainderTestIsDivisibility(num: nat, sf: byte)
    requires 5 <= sf <= 12
    ensures var tmp := num * 1000000 / (4 * sf);
            && tmp / 1000000 == num / (4 * sf)
            && (tmp % 1000000 < 10000 <==> num % (4 * sf) == 0)
            && (tmp == 0 <==> num == 0)
  {
    var b := 4 * sf;
    var q, r := num / b, num % b;
    Division(num, b);
    var f, g := r * 1000000 / b, r * 1000000 % b;
    Division(r * 1000000, b);
    FractionBounds(r, b, f, g);
    assert num * 1000000 == (q * 1000000 + f) * b + g;
    Quotient(q * 1000000 + f, b, g);
    Quotient(q, 1000000, f);
  }

  lemma BelowMillion(f: nat, b: nat)
    requires b > 0 && f * b < 1000000 * b
    ensures f < 1000000
  {
    if f >= 1000000 {
      MultipleAtLeast(f - 999999, b);
    }
  }

  lemma BelowHundredth(f: nat, b: nat)
    requires b <= 48
    ensures f < 10000 ==> f * b < 480000
  {
    if f < 10000 {
      assert f * b <= f * 48;
    }
  }

  lemma FractionBounds(r: nat, b: nat, f: nat, g: nat)
    requires r < b <= 48 && f * b + g == r * 1000000 && g < b
    ensures f < 1000000 && (f < 10000 <==> r == 0) && (r == 0 ==> f == 0) && (f == 0 ==> r == 0)
  {
    BelowMillion(f, b);
    BelowHundredth(f, b);
    if r == 0 && f >= 1 {
      MultipleAtLeast(f, b);
    }
  }

  /** So the driver's count is the ceiling for the numerator it has in its 32 bits, without a further wrap. */
  lemma PayloadOfUnsigned(num: uint32, sf: byte, coderate: byte)
    requires 5 <= sf <= 12
    ensures PayloadMillionths(num, sf, coderate) == CeilDiv(num, 4 * sf) * (coderate + 4) * 1000000
  {
    var b := 4 * sf;
    RemainderTestIsDivisibility(num, sf);
    assert U64(num * 1000000) == num * 1000000;
    CeilDivBound(num, b);
    var c := CeilDiv(num, b);
    assert 0 <= c * (coderate + 4) <= 0x1_0000_0000 * 0x104 by {
      ProductBound(c, 0x1_0000_0000, coderate + 4, 0x104);
    }
    assert U64(c * (coderate + 4) * 1000000) == c * (coderate + 4) * 1000000;
  }

  /** The driver's count is the true one if and only if the numerator is not negative. */
  lemma PayloadIsCeilingIff(num: int, sf: byte, coderate: byte)
    requires 5 <= sf <= 12 && -0x8000_0000 <= num < 0x8000_0000
    ensures PayloadMillionths(U32(num), sf, coderate) == TrueCount(num, 4 * sf) * (coderate + 4) * 1000000
       <==> num >= 0
  {
    PayloadOfUnsigned(U32(num), sf, coderate);
    if num < 0 {
      var c := CeilDiv(U32(num), 4 * sf);
      CeilDivIsLeast(U32(num), 4 * sf);
      MultipleAtLeast(c, coderate + 4);
    }
  }

  lemma CeilDivBound(a: nat, b: nat)
    requires b > 0
    ensures CeilDiv(a, b) <= a
  {
    Division(a, b);
    var q := a / b;
    if q >= 1 {
      MultipleAtLeast(b, q);
    }
  }

  lemma ProductBound(a: nat, am: nat, b: nat, bm: nat)
    requires a <= am && b <= bm
    ensures 0 <= a * b <= am * bm
  {
    assert a * b <= am * b <= am * bm;
  }

  /** The symbol time in microseconds is a whole number for these bandwidths. */
  function SymbolTime(p: RadioParam): nat
    requires Supported(p)
  {
    Chips(p.sf) * (1000000 / Hertz(p.bandwidth))
  }

  lemma ChipsBound(sf: byte)
    requires 5 <= sf <= 12
    ensures 32 <= Chips(sf) <= 4096 && (sf == 12 ==> Chips(sf) == 4096)
  {
    assert Chips(5) == 32 && Chips(6) == 64 && Chips(7) == 128 && Chips(8) == 256;
    assert Chips(9) == 512 && Chips(10) == 1024;
    assert Chips(11) == 2048 && Chips(12) == 4096;
  }

  lemma WholeSymbolTime(chips: nat, hertz: nat)
    requires 0 < chips <= 4096 && hertz in {31250, 62500, 125000, 250000, 500000}
    ensures chips * 1000000 / hertz == chips * (1000000 / hertz)
    ensures 0 < chips * (1000000 / hertz) <= 0x2_0000
    ensures chips * (1000000 / hertz) * hertz == chips * 1000000
  {
    if hertz == 31250 {
    } else if hertz == 62500 {
    } else if hertz == 125000 {
    } else if hertz == 250000 {
    } else {
    }
  }

  lemma SymbolTimeIsExact(p: RadioParam)
    requires Supported(p)
    ensures U64(Chips(p.sf) * 1000000) / Hertz(p.bandwidth) == SymbolTime(p) && 0 < SymbolTime(p) <= 0x2_0000
    ensures SymbolTime(p) * Hertz(p.bandwidth) == Chips(p.sf) * 1000000
  {
    ChipsBound(p.sf);
    var chips, hertz := Chips(p.sf), Hertz(p.bandwidth);
    assert U64(chips * 1000000) == chips * 1000000;
    WholeSymbolTime(chips, hertz);
  }

  lemma PreambleTime(preambleLen: uint16, ts: nat)
    requires ts <= 0x2_0000
    ensures TPreamble(preambleLen, ts) == (4 * preambleLen + 17) * ts / 4
  {
    var n := (4 * preambleLen + 17) * ts;
    ProductBound(4 * preambleLen + 17, 4 * 0x1_0000 + 17, ts, 0x2_0000);
    assert (preambleLen * 1000000 + 4250000) * ts == 250000 * n;
  }

  lemma PayloadTime(symbols: nat, ts: nat)
    requires symbols >= 8 && symbols * ts < 0x1_0000_0000_0000_0000 / 1000000
    ensures TPayload((symbols - 8) * 1000000, ts) == symbols * ts
  {
    assert (8 * 1000000 + (symbols - 8) * 1000000) * ts == symbols * ts * 1000000;
  }

  lemma SymbolsBound(p: RadioParam, len: byte)
    requires 5 <= p.sf <= 12 && Numerator(p, len) >= 0
    ensures Symbols(p, len, p.headerMode) <= 0x20_0000
  {
    CeilDivBound(Numerator(p, len), 4 * p.sf);
    ProductBound(CeilDiv(Numerator(p, len), 4 * p.sf), 0x1000, p.coderate + 4, 0x104);
  }

  lemma MillisecondsFit(preambleLen: uint16, symbols: nat, ts: nat)
    requires ts <= 0x2_0000 && symbols <= 0x20_0000
    ensures var micros := (4 * preambleLen + 17) * ts / 4 + symbols * ts;
            Milliseconds(micros) == 1 + micros / 1000 && symbols * ts < 0x1_0000_0000_0000_0000 / 1000000
  {
    ProductBound(4 * preambleLen + 17, 4 * 0x1_0000 + 17, ts, 0x2_0000);
    ProductBound(symbols, 0x20_0000, ts, 0x2_0000);
  }

  lemma PayloadOfSymbols(p: RadioParam, len: byte)
    requires 5 <= p.sf <= 12 && Numerator(p, len) >= 0
    ensures PayloadMillionths(U32(Numerator(p, len)), p.sf, p.coderate) == (Symbols(p, len, p.headerMode) - 8) * 1000000
  {
    PayloadIsCeilingIff(Numerator(p, len), p.sf, p.coderate);
  }

  /** The result in whole numbers: no step wraps around and nothing is lost but quarters of a symbol. */
  lemma TimeOnAirInWholeNumbers(p: RadioParam, len: byte)
    requires Supported(p) && Numerator(p, len) >= 0
    ensures var ts := SymbolTime(p);
            TimeOnAir(p, len) == 1 + ((4 * p.preambleLen + 17) * ts / 4 + Symbols(p, len, p.headerMode) * ts) / 1000
  {
    var ts, symbols := SymbolTime(p), Symbols(p, len, p.headerMode);
    SymbolTimeIsExact(p);
    PayloadOfSymbols(p, len);
    PreambleTime(p.preambleLen, ts);
    SymbolsBound(p, len);
    MillisecondsFit(p.preambleLen, symbols, ts);
    PayloadTime(symbols, ts);
  }

  /** The true duration in quarters of a microsecond. */
  function QuarterMicros(p: RadioParam, len: byte): int
    requires Supported(p) && Numerator(p, len) >= 0
  {
    (4 * p.preambleLen + 17 + 4 * Symbols(p, len, p.headerMode)) * SymbolTime(p)
  }

  lemma SymbolMicrosIsWhole(p: RadioParam)
    requires Supported(p)
    ensures SymbolMicros(p) == SymbolTime(p) as real
  {
    SymbolTimeIsExact(p);
    RealQuotient(SymbolTime(p), Hertz(p.bandwidth), Chips(p.sf) * 1000000);
    assert Chips(p.sf) as real * 1000000.0 == (Chips(p.sf) * 1000000) as real;
  }

  lemma DurationInQuarters(p: RadioParam, len: byte)
    requires Supported(p) && Numerator(p, len) >= 0
    ensures 4.0 * Duration(p, len, p.headerMode) == QuarterMicros(p, len) as real
  {
    SymbolMicrosIsWhole(p);
    var n := 4 * p.preambleLen + 17 + 4 * Symbols(p, len, p.headerMode);
    assert 4.0 * SymbolCount(p, len, p.headerMode) == n as real;
    FourTimes(SymbolCount(p, len, p.headerMode), SymbolMicros(p), n, SymbolTime(p));
    assert QuarterMicros(p, len) == n * SymbolTime(p);
  }

  lemma FourTimes(a: real, b: real, n: nat, m: nat)
    requires 4.0 * a == n as real && b == m as real
    ensures 4.0 * Times(a, b) == (n * m) as real
  {
    RealProduct(n, m);
    assert 4.0 * (a * b) == (4.0 * a) * b;
  }

  lemma RealQuotient(q: nat, b: nat, a: nat)
    requires b > 0 && q * b == a
    ensures a as real / b as real == q as real
  {
    RealProduct(q, b);
  }

  lemma RealProduct(a: nat, b: nat)
    ensures (a * b) as real == a as real * b as real
  {
  }

  lemma WholeQuarters(preamble4: nat, symbols: nat, ts: nat)
    ensures var micros := preamble4 * ts / 4 + symbols * ts;
            4 * micros <= (preamble4 + 4 * symbols) * ts < 4 * micros + 4
  {
    assert (preamble4 + 4 * symbols) * ts == preamble4 * ts + 4 * (symbols * ts);
  }

  /** The driver's result is the duration it means, rounded up to the next whole millisecond, never short of it. */
  lemma TimeOnAirIsExact(p: RadioParam, len: byte)
    requires Supported(p) && Numerator(p, len) >= 0
    ensures 1000.0 * (TimeOnAir(p, len) - 1) as real <= Duration(p, len, p.headerMode)
    ensures Duration(p, len, p.headerMode) < 1000.0 * TimeOnAir(p, len) as real
  {
    var ts, t4 := SymbolTime(p), QuarterMicros(p, len);
    TimeOnAirInWholeNumbers(p, len);
    DurationInQuarters(p, len);
    WholeQuarters(4 * p.preambleLen + 17, Symbols(p, len, p.headerMode), ts);
    assert 4000 * (TimeOnAir(p, len) - 1) <= t4 < 4000 * TimeOnAir(p, len);
  }

  lemma GroupsOf(q: nat, b: nat, r: nat)
    requires r < b
    ensures CeilDiv(q * b + r, b) == if r > 0 then q + 1 else q
  {
    Quotient(q, b, r);
  }

  /** The place in its group of the last of the bits. */
  lemma LastPlace(q: nat, b: nat, r: nat)
    requires r < b && q * b + r > 0
    ensures (q * b + r - 1) % b == if r > 0 then r - 1 else b - 1
  {
    if r > 0 {
      Quotient(q, b, r - 1);
    } else {
      assert q == 0 ==> q * b == 0;
      assert (q - 1) * b == q * b - b;
      Quotient(q - 1, b, b - 1);
    }
  }

  lemma TwentyBitsOn(q: nat, b: nat, r: nat)
    requires r < b && 20 <= b
    ensures CeilDiv(q * b + r + 20, b) == if r == 0 then q + 1 else if r + 20 <= b then q + 1 else q + 2
  {
    if r + 20 < b {
      GroupsOf(q, b, r + 20);
    } else {
      assert (q + 1) * b == q * b + b;
      GroupsOf(q + 1, b, r + 20 - b);
    }
  }

  /** Twenty bits more need one more group, unless they fit into the last one. */
  lemma TwentyBitsMore(bits: nat, b: nat)
    requires 20 <= b
    ensures CeilDiv(bits + 20, b)
         == CeilDiv(bits, b) + if bits > 0 && (bits - 1) % b + 20 < b then 0 else 1
  {
    Division(bits, b);
    var q, r := bits / b, bits % b;
    TwentyBitsOn(q, b, r);
    GroupsOf(q, b, r);
    if bits > 0 {
      LastPlace(q, b, r);
    }
  }

  lemma OneGroupMore(g: nat, symbols: nat)
    ensures (g + 1) * symbols == g * symbols + symbols
  {
  }

  /** In the driver's settings the header mode 0 is the explicit one, which has a header, and 1 the implicit one, which
      has none: so the driver counts the header bits in the wrong mode. Its number of groups is the true one if and only
      if the last group has room for them; else it is one too small with a header, and one too large without. */
  lemma HeaderMiscounted(p: RadioParam, len: byte)
    requires 5 <= p.sf <= 12 && CodedBits(p, len, false) >= 0
    ensures var bits, group, explicit := CodedBits(p, len, false), 4 * p.sf, !p.headerMode;
            var room := bits > 0 && (bits - 1) % group + 20 < group;
            && (room <==> Symbols(p, len, explicit) == Symbols(p, len, p.headerMode))
            && (!room && explicit ==> Symbols(p, len, explicit) == Symbols(p, len, p.headerMode) + 4 + p.coderate)
            && (!room && !explicit ==> Symbols(p, len, explicit) == Symbols(p, len, p.headerMode) - 4 - p.coderate)
  {
    var bits, group := CodedBits(p, len, false), 4 * p.sf;
    TwentyBitsMore(bits, group);
    OneGroupMore(CeilDiv(bits, group), 4 + p.coderate);
    assert CodedBits(p, len, true) == bits + 20;
  }

  /** The firmware's own settings: an explicit header and a checksum. */
  const FIRMWARE_PARAM: RadioParam := RadioParam(7, 0x05, 1, 14, true, false)

  /** With them a packet of 51 bytes takes 54.4 milliseconds, and the driver says 52. */
  lemma FirmwarePacketIsShort()
    ensures TimeOnAir(FIRMWARE_PARAM, 51) == 52
    ensures Duration(FIRMWARE_PARAM, 51, true) == 54400.0
  {
    var p := FIRMWARE_PARAM;
    assert Chips(7) == 128;
    assert Numerator(p, 51) == 404 && CodedBits(p, 51, true) == 424;
    assert Symbols(p, 51, false) == 83 && Symbols(p, 51, true) == 88;
    assert SymbolTime(p) == 512;
    TimeOnAirInWholeNumbers(p, 51);
    SymbolMicrosIsWhole(p);
    assert SymbolCount(p, 51, true) == 106.25;
  }

  /** The bandwidth codes, of which each doubles the one before. */
  lemma BandwidthDoubles(code: byte)
    requires 0x02 <= code < 0x06
    ensures Hertz(code + 1) == 2 * Hertz(code) && Hertz(0x06) == 500000
  {
  }

  /** A longer packet is never shorter on the air. */
  lemma TimeOnAirGrows(p: RadioParam, len1: byte, len2: byte)
    requires Supported(p) && Numerator(p, len1) >= 0 && len1 <= len2
    ensures TimeOnAir(p, len1) <= TimeOnAir(p, len2)
  {
    var ts := SymbolTime(p);
    TimeOnAirInWholeNumbers(p, len1);
    TimeOnAirInWholeNumbers(p, len2);
    CeilDivGrows(Numerator(p, len1), Numerator(p, len2), 4 * p.sf);
    ProductBound(CeilDiv(Numerator(p, len1), 4 * p.sf), CeilDiv(Numerator(p, len2), 4 * p.sf),
                 p.coderate + 4, p.coderate + 4);
    ProductBound(Symbols(p, len1, p.headerMode), Symbols(p, len2, p.headerMode), ts, ts);
  }

  /** For a negative numerator the 32-bit subtraction wraps around, and the payload is given 89 million groups where it
      has none. */
  lemma NegativeNumeratorWraps(p: RadioParam, len: byte)
    requires 5 <= p.sf <= 12 && Numerator(p, len) < 0
    ensures PayloadMillionths(U32(Numerator(p, len)), p.sf, p.coderate) >= 89000000 * (p.coderate + 4) * 1000000
  {
    var num, b := U32(Numerator(p, len)), 4 * p.sf;
    PayloadOfUnsigned(num, p.sf, p.coderate);
    var c := CeilDiv(num, b);
    CeilDivIsLeast(num, b);
    ProductBound(c, c, b, 48);
    ProductBound(89000000, c, p.coderate + 4, p.coderate + 4);
  }

  const EMPTY_PACKET: RadioParam := RadioParam(12, 0x06, 1, 8, false, false)

  lemma EmptyPacketPayload()
    ensures Numerator(EMPTY_PACKET, 0) == -40 && PayloadMillionths(U32(-40), 12, 1) == 447392425 * 1000000
  {
    PayloadOfUnsigned(4294967256, 12, 1);
    assert CeilDiv(4294967256, 4 * 12) == 89478485;
  }

  lemma EmptyPacketSymbol()
    ensures U64(Chips(12) * 1000000) / Hertz(0x06) == 8192
  {
    ChipsBound(12);
    SymbolTimeIsExact(EMPTY_PACKET);
  }

  /** For instance, an empty packet at the largest spreading factor is given more than a month on the air. */
  lemma EmptyPacketForAMonth()
    ensures Numerator(EMPTY_PACKET, 0) < 0 && TimeOnAir(EMPTY_PACKET, 0) > 3000000000
  {
    EmptyPacketPayload();
    EmptyPacketSymbol();
    PreambleTime(8, 8192);
    PayloadTime(447392433, 8192);
  }

  const FULL_CIRCLE: RadioParam := RadioParam(8, 0x05, 121, 8, false, true)

  lemma FullCirclePayload()
    ensures Numerator(FULL_CIRCLE, 0) == -4 && PayloadMillionths(U32(-4), 8, 121) == 16777216000 * 1000000
  {
    PayloadOfUnsigned(4294967292, 8, 121);
    assert CeilDiv(4294967292, 4 * 8) == 134217728;
  }

  lemma FullCircleSymbol()
    ensures U64(Chips(8) * 1000000) / Hertz(0x05) == 1024
  {
    assert Chips(8) == 256;
    SymbolTimeIsExact(FULL_CIRCLE);
  }

  /** The duration as a whole wraps around 32 bits once more, and can so come out right again: here it is that of the
      preamble and of eight symbols without a payload. The coding rate is one the modem does not have. */
  lemma WrapsCanCancel()
    ensures Numerator(FULL_CIRCLE, 0) < 0
    ensures TimeOnAir(FULL_CIRCLE, 0) == 1 + ((4 * 8 + 17) * 1024 / 4 + 8 * 1024) / 1000
  {
    FullCirclePayload();
    FullCircleSymbol();
    PreambleTime(8, 1024);
    PayloadTime(16777216008, 1024);
  }
}

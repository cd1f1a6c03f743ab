/** Layout of the reply to the status query: the fields `parse_status` unpacks
    from the buffer, their offsets and widths, and an encoder that lays the same
    fields out one after another, so that the offsets can be checked against a
    gap-free layout. */
module StatusLayout {
  import opened Bytes

  /** Bytes the decoder needs: the last field read is the u32 at offset 100. */
  const FrameSize: nat := 104
  /** Bytes the first unpack (two u32 at offset 8) needs. */
  const HeaderSize: nat := 16
  /** Number of u16 cell-voltage slots, at offsets 16, 18, ..., 46. */
  const SlotCount: nat := 16
  const FirstSlot: nat := 16

  /** The `struct.error` raised when the buffer is shorter than an unpack needs. */
  datatype DecodeError = StructError(required: nat)

  datatype Result<T> = Success(value: T) | Failure(error: DecodeError)

  /** Every raw field of one status reply, in the units the device sends. */
  datatype StatusFrame = StatusFrame(
    totalVoltageMv: nat,        // u32 at 8
    cellSumVoltageMv: nat,      // u32 at 12
    cellSlotsMv: seq<nat>,      // 16 x u16 at 16..46, zero = slot unused
    currentMa: int,             // i32 at 48
    cellTemp: int,              // i16 at 52
    mosfetTemp: int,            // i16 at 54
    unknownTemp: int,           // i16 at 56
    unknown1: nat,              // u16 at 58
    unknown2: nat,              // u16 at 60
    remainingCah: nat,          // u16 at 62, centi-amp-hours
    fullChargeCah: nat,         // u16 at 64, centi-amp-hours
    unknown3: nat,              // u16 at 66
    heat: nat,                  // u32 at 68
    unknown4: nat,              // u32 at 72
    protectionState: nat,       // u32 at 76
    failureState: nat,          // u32 at 80
    balancingMask: nat,         // u32 at 84, bit i = i-th present cell balancing
    batteryState: nat,          // u16 at 88
    soc: nat,                   // u16 at 90
    soh: nat,                   // u32 at 92
    fullDischarges: nat,        // u32 at 96
    dischargedAh: nat           // u32 at 100
  )

  predicate IsU16(x: nat) { x < TwoTo16 }
  predicate IsU32(x: nat) { x < TwoTo32 }
  predicate IsI16(x: int) { -0x8000 <= x < 0x8000 }
  predicate IsI32(x: int) { -0x8000_0000 <= x < 0x8000_0000 }

  /** Every field fits the width it has on the wire. */
  predicate WellFormed(f: StatusFrame) {
    && IsU32(f.totalVoltageMv) && IsU32(f.cellSumVoltageMv)
    && |f.cellSlotsMv| == SlotCount && (forall k :: 0 <= k < |f.cellSlotsMv| ==> IsU16(f.cellSlotsMv[k]))
    && IsI32(f.currentMa) && IsI16(f.cellTemp) && IsI16(f.mosfetTemp) && IsI16(f.unknownTemp)
    && IsU16(f.unknown1) && IsU16(f.unknown2) && IsU16(f.remainingCah) && IsU16(f.fullChargeCah)
    && IsU16(f.unknown3)
    && IsU32(f.heat) && IsU32(f.unknown4) && IsU32(f.protectionState) && IsU32(f.failureState)
    && IsU32(f.balancingMask) && IsU16(f.batteryState) && IsU16(f.soc) && IsU32(f.soh)
    && IsU32(f.fullDischarges) && IsU32(f.dischargedAh)
  }

  /** The sixteen u16 cell slots, read one by one at offsets 16, 18, ..., 46. */
  function CellSlots(data: seq<byte>): (slots: seq<nat>)
    requires |data| >= FirstSlot + 2 * SlotCount
    ensures |slots| == SlotCount
    ensures forall k :: 0 <= k < SlotCount ==> IsU16(slots[k]) && slots[k] == U16At(data, FirstSlot + 2 * k)
  {
    seq(SlotCount, k requires 0 <= k < SlotCount => U16At(data, FirstSlot + 2 * k))
  }

  /** What the unpacks of `parse_status` read: first the two u32 at 8 (which
      fail on fewer than 16 bytes), then the block at 68 (which fails on fewer
      than 104); once those succeed every other read is in range. */
  function Decode(data: seq<byte>): (r: Result<StatusFrame>)
    ensures r.Failure? <==> |data| < FrameSize
    ensures r.Failure? ==> r.error.required == (if |data| < HeaderSize then HeaderSize else FrameSize)
    ensures r.Failure? ==> |data| < r.error.required
    ensures r.Success? ==> WellFormed(r.value)
  {
    if |data| < HeaderSize then Failure(StructError(HeaderSize))
    else if |data| < FrameSize then Failure(StructError(FrameSize))
    else
      Success(StatusFrame(
        U32At(data, 8), U32At(data, 12),
        CellSlots(data),
        I32At(data, 48), I16At(data, 52), I16At(data, 54), I16At(data, 56),
        U16At(data, 58), U16At(data, 60), U16At(data, 62), U16At(data, 64), U16At(data, 66),
        U32At(data, 68), U32At(data, 72), U32At(data, 76), U32At(data, 80), U32At(data, 84),
        U16At(data, 88), U16At(data, 90),
        U32At(data, 92), U32At(data, 96), U32At(data, 100)))
  }

  /** Consecutive u16 encodings of the slot values. */
  function SlotBytes(v: seq<nat>): (b: seq<byte>)
    requires forall k :: 0 <= k < |v| ==> IsU16(v[k])
    ensures |b| == 2 * |v|
  {
    if |v| == 0 then [] else
      assert IsU16(v[0]);
      Le16(v[0]) + SlotBytes(v[1..])
  }

  /** A reply that carries the fields of `f`, laid out back to back after
      eight bytes the decoder never looks at. */
  function Encode(f: StatusFrame): (b: seq<byte>)
    requires WellFormed(f)
  {
    [0, 0, 0, 0, 0, 0, 0, 0]
    + Le32(f.totalVoltageMv) + Le32(f.cellSumVoltageMv)
    + SlotBytes(f.cellSlotsMv)
    + MeasurementBytes(f)
    + StateBytes(f)
  }

  /** Offsets 48..68: current, three temperatures, five u16 words. */
  function MeasurementBytes(f: StatusFrame): (b: seq<byte>)
    requires WellFormed(f)
    ensures |b| == 20
  {
    ReadingBytes(f) + WordBytes(f)
  }

  /** Offsets 48..58: current and the three temperatures. */
  function ReadingBytes(f: StatusFrame): (b: seq<byte>)
    requires WellFormed(f)
    ensures |b| == 10
  {
    Le32(FromI32(f.currentMa))
    + Le16(FromI16(f.cellTemp)) + Le16(FromI16(f.mosfetTemp)) + Le16(FromI16(f.unknownTemp))
  }

  /** Offsets 58..68: two unknown words, the two capacities, one unknown word. */
  function WordBytes(f: StatusFrame): (b: seq<byte>)
    requires WellFormed(f)
    ensures |b| == 10
  {
    Le16(f.unknown1) + Le16(f.unknown2) + Le16(f.remainingCah) + Le16(f.fullChargeCah)
    + Le16(f.unknown3)
  }

  /** Offsets 68..104: five u32 status words, two u16, three u32. */
  function StateBytes(f: StatusFrame): (b: seq<byte>)
    requires WellFormed(f)
    ensures |b| == 36
  {
    StatusWordBytes(f) + CounterBytes(f)
  }

  /** Offsets 68..88: heat, unknown, protection, failure, balancing mask. */
  function StatusWordBytes(f: StatusFrame): (b: seq<byte>)
    requires WellFormed(f)
    ensures |b| == 20
  {
    Le32(f.heat) + Le32(f.unknown4) + Le32(f.protectionState) + Le32(f.failureState)
    + Le32(f.balancingMask)
  }

  /** Offsets 88..104: battery state, SOC, SOH and the two lifetime counters. */
  function CounterBytes(f: StatusFrame): (b: seq<byte>)
    requires WellFormed(f)
    ensures |b| == 16
  {
    Le16(f.batteryState) + Le16(f.soc)
    + Le32(f.soh) + Le32(f.fullDischarges) + Le32(f.dischargedAh)
  }

  /** The k-th u16 of the slot block decodes to the k-th slot value. */
  lemma {:induction false} SlotBytesRead(v: seq<nat>, k: nat)
    requires forall j :: 0 <= j < |v| ==> IsU16(v[j])
    requires k < |v|
    ensures U16At(SlotBytes(v), 2 * k) == v[k]
  {
    if k > 0 {
      SlotBytesRead(v[1..], k - 1);
      assert SlotBytes(v) == Le16(v[0]) + SlotBytes(v[1..]);
      assert SlotBytes(v)[2 * k] == SlotBytes(v[1..])[2 * (k - 1)];
      assert SlotBytes(v)[2 * k + 1] == SlotBytes(v[1..])[2 * (k - 1) + 1];
    }
  }

  /** Encoding the slot values that were read from a buffer rebuilds the
      buffer's bytes: each of the 32 bytes at 16..48 belongs to exactly one slot. */
  lemma {:induction false} SlotBytesOfRead(data: seq<byte>, from: nat, v: seq<nat>)
    requires from + 2 * |v| <= |data|
    requires forall k :: 0 <= k < |v| ==> v[k] == U16At(data, from + 2 * k)
    ensures forall k :: 0 <= k < |v| ==> IsU16(v[k])
    ensures SlotBytes(v) == data[from..from + 2 * |v|]
    decreases |v|
  {
    if |v| > 0 {
      SlotBytesOfRead(data, from + 2, v[1..]);
      Le16OfRead(data, from);
      Join(data, from, from + 2, from + 2 * |v|);
    }
  }

  /** Decoding an encoded reply gives back every field: the offsets the
      decoder uses are exactly where the back-to-back layout puts each field. */
  lemma DecodeEncode(f: StatusFrame)
    requires WellFormed(f)
    ensures |Encode(f)| == FrameSize
    ensures Decode(Encode(f)) == Success(f)
  {
    var e := Encode(f);
    var head := [0, 0, 0, 0, 0, 0, 0, 0] + Le32(f.totalVoltageMv) + Le32(f.cellSumVoltageMv);
    var slots := SlotBytes(f.cellSlotsMv);
    var m := MeasurementBytes(f);
    var st := StateBytes(f);
    assert e == head + slots + m + st;
    assert e[..16] == head;
    assert e[16..48] == slots;
    assert e[48..68] == m;
    assert e[68..] == st;
    assert U32At(e, 8) == f.totalVoltageMv;
    assert U32At(e, 12) == f.cellSumVoltageMv;
    forall k | 0 <= k < SlotCount
      ensures CellSlots(e)[k] == f.cellSlotsMv[k]
    {
      SlotBytesRead(f.cellSlotsMv, k);
      assert U16At(e, 16 + 2 * k) == U16At(slots, 2 * k);
    }
    assert CellSlots(e) == f.cellSlotsMv;
    MeasurementRead(f, e);
    StateRead(f, e);
  }

  lemma MeasurementRead(f: StatusFrame, e: seq<byte>)
    requires WellFormed(f) && |e| == FrameSize && e[48..68] == MeasurementBytes(f)
    ensures I32At(e, 48) == f.currentMa
    ensures I16At(e, 52) == f.cellTemp && I16At(e, 54) == f.mosfetTemp && I16At(e, 56) == f.unknownTemp
    ensures U16At(e, 58) == f.unknown1 && U16At(e, 60) == f.unknown2
    ensures U16At(e, 62) == f.remainingCah && U16At(e, 64) == f.fullChargeCah
    ensures U16At(e, 66) == f.unknown3
  {
    var m := ReadingBytes(f);
    var w := WordBytes(f);
    assert e[48..68] == m + w;
    assert e[48..58] == (m + w)[..10] == m;
    assert e[58..68] == (m + w)[10..] == w;
    assert U32At(e, 48) == U32At(m, 0) == FromI32(f.currentMa);
    assert U16At(e, 52) == U16At(m, 4) == FromI16(f.cellTemp);
    assert U16At(e, 54) == U16At(m, 6) == FromI16(f.mosfetTemp);
    assert U16At(e, 56) == U16At(m, 8) == FromI16(f.unknownTemp);
    assert U16At(e, 58) == U16At(w, 0);
    assert U16At(e, 60) == U16At(w, 2);
    assert U16At(e, 62) == U16At(w, 4);
    assert U16At(e, 64) == U16At(w, 6);
    assert U16At(e, 66) == U16At(w, 8);
  }

  lemma StateRead(f: StatusFrame, e: seq<byte>)
    requires WellFormed(f) && |e| == FrameSize && e[68..] == StateBytes(f)
    ensures U32At(e, 68) == f.heat && U32At(e, 72) == f.unknown4
    ensures U32At(e, 76) == f.protectionState && U32At(e, 80) == f.failureState
    ensures U32At(e, 84) == f.balancingMask
    ensures U16At(e, 88) == f.batteryState && U16At(e, 90) == f.soc
    ensures U32At(e, 92) == f.soh && U32At(e, 96) == f.fullDischarges && U32At(e, 100) == f.dischargedAh
  {
    var s := StatusWordBytes(f);
    var c := CounterBytes(f);
    assert e[68..] == s + c;
    assert e[68..88] == (s + c)[..20] == s;
    assert e[88..104] == (s + c)[20..] == c;
    assert U32At(e, 68) == U32At(s, 0);
    assert U32At(e, 72) == U32At(s, 4);
    assert U32At(e, 76) == U32At(s, 8);
    assert U32At(e, 80) == U32At(s, 12);
    assert U32At(e, 84) == U32At(s, 16);
    assert U16At(e, 88) == U16At(c, 0);
    assert U16At(e, 90) == U16At(c, 2);
    assert U32At(e, 92) == U32At(c, 4);
    assert U32At(e, 96) == U32At(c, 8);
    assert U32At(e, 100) == U32At(c, 12);
  }

  /** Re-encoding a decoded reply rebuilds bytes 8..104 of it: the decoder
      reads every one of those bytes, and each into exactly one field. */
  lemma EncodeDecode(data: seq<byte>)
    requires |data| >= FrameSize
    ensures Decode(data).Success?
    ensures Encode(Decode(data).value)[8..] == data[8..FrameSize]
  {
    var f := Decode(data).value;
    HeadOfRead(data, f);
    SlotBytesOfRead(data, 16, f.cellSlotsMv);
    ReadingsOfRead(data, f);
    WordsOfRead(data, f);
    StatusWordsOfRead(data, f);
    CountersOfRead(data, f);
    EncodeBlocks(f);
    BlocksJoin(data);
  }

  /** Bytes 8.. of an encoded reply are the blocks of the layout, in order. */
  lemma EncodeBlocks(f: StatusFrame)
    requires WellFormed(f)
    ensures Encode(f)[8..] == Le32(f.totalVoltageMv) + Le32(f.cellSumVoltageMv)
                              + SlotBytes(f.cellSlotsMv) + ReadingBytes(f) + WordBytes(f)
                              + StatusWordBytes(f) + CounterBytes(f)
  {
  }

  /** The blocks at 8, 16, 48, 58, 68 and 88 tile bytes 8..104. */
  lemma BlocksJoin(data: seq<byte>)
    requires |data| >= FrameSize
    ensures data[8..12] + data[12..16] + data[16..48] + data[48..58] + data[58..68]
            + data[68..88] + data[88..104] == data[8..FrameSize]
  {
    Join(data, 8, 12, 16);
    Join(data, 8, 16, 48);
    Join(data, 8, 48, 58);
    Join(data, 8, 58, 68);
    Join(data, 8, 68, 88);
    Join(data, 8, 88, 104);
  }

  /** The two u32 totals re-encode to bytes 8..16. */
  lemma HeadOfRead(data: seq<byte>, f: StatusFrame)
    requires |data| >= FrameSize && WellFormed(f)
    requires f.totalVoltageMv == U32At(data, 8) && f.cellSumVoltageMv == U32At(data, 12)
    ensures Le32(f.totalVoltageMv) == data[8..12] && Le32(f.cellSumVoltageMv) == data[12..16]
  {
    Le32OfRead(data, 8);
    Le32OfRead(data, 12);
  }

  /** Adjacent slices join up. */
  lemma Join(s: seq<byte>, i: nat, j: nat, k: nat)
    requires i <= j <= k <= |s|
    ensures s[i..j] + s[j..k] == s[i..k]
  {
  }

  lemma FromI16OfRead(data: seq<byte>, off: nat)
    requires off + 2 <= |data|
    ensures FromI16(I16At(data, off)) == U16At(data, off)
  {
  }

  lemma FromI32OfRead(data: seq<byte>, off: nat)
    requires off + 4 <= |data|
    ensures FromI32(I32At(data, off)) == U32At(data, off)
  {
  }

  /** The readings block of a decoded frame re-encodes to bytes 48..58. */
  lemma ReadingsOfRead(data: seq<byte>, f: StatusFrame)
    requires |data| >= FrameSize && WellFormed(f)
    requires f.currentMa == I32At(data, 48) && f.cellTemp == I16At(data, 52)
    requires f.mosfetTemp == I16At(data, 54) && f.unknownTemp == I16At(data, 56)
    ensures ReadingBytes(f) == data[48..58]
  {
    FromI32OfRead(data, 48);
    FromI16OfRead(data, 52);
    FromI16OfRead(data, 54);
    FromI16OfRead(data, 56);
    Le32OfRead(data, 48);
    Le16OfRead(data, 52);
    Le16OfRead(data, 54);
    Le16OfRead(data, 56);
    Join(data, 48, 52, 54);
    Join(data, 48, 54, 56);
    Join(data, 48, 56, 58);
  }

  /** The capacity block of a decoded frame re-encodes to bytes 58..68. */
  lemma WordsOfRead(data: seq<byte>, f: StatusFrame)
    requires |data| >= FrameSize && WellFormed(f)
    requires f.unknown1 == U16At(data, 58) && f.unknown2 == U16At(data, 60)
    requires f.remainingCah == U16At(data, 62) && f.fullChargeCah == U16At(data, 64)
    requires f.unknown3 == U16At(data, 66)
    ensures WordBytes(f) == data[58..68]
  {
    Le16OfRead(data, 58);
    Le16OfRead(data, 60);
    Le16OfRead(data, 62);
    Le16OfRead(data, 64);
    Le16OfRead(data, 66);
    Join(data, 58, 60, 62);
    Join(data, 58, 62, 64);
    Join(data, 58, 64, 66);
    Join(data, 58, 66, 68);
  }

  /** The status-word block of a decoded frame re-encodes to bytes 68..88. */
  lemma StatusWordsOfRead(data: seq<byte>, f: StatusFrame)
    requires |data| >= FrameSize && WellFormed(f)
    requires f.heat == U32At(data, 68) && f.unknown4 == U32At(data, 72)
    requires f.protectionState == U32At(data, 76) && f.failureState == U32At(data, 80)
    requires f.balancingMask == U32At(data, 84)
    ensures StatusWordBytes(f) == data[68..88]
  {
    Le32OfRead(data, 68);
    Le32OfRead(data, 72);
    Le32OfRead(data, 76);
    Le32OfRead(data, 80);
    Le32OfRead(data, 84);
    Join(data, 68, 72, 76);
    Join(data, 68, 76, 80);
    Join(data, 68, 80, 84);
    Join(data, 68, 84, 88);
  }

  /** The counter block of a decoded frame re-encodes to bytes 88..104. */
  lemma CountersOfRead(data: seq<byte>, f: StatusFrame)
    requires |data| >= FrameSize && WellFormed(f)
    requires f.batteryState == U16At(data, 88) && f.soc == U16At(data, 90)
    requires f.soh == U32At(data, 92) && f.fullDischarges == U32At(data, 96)
    requires f.dischargedAh == U32At(data, 100)
    ensures CounterBytes(f) == data[88..104]
  {
    Le16OfRead(data, 88);
    Le16OfRead(data, 90);
    Le32OfRead(data, 92);
    Le32OfRead(data, 96);
    Le32OfRead(data, 100);
    Join(data, 88, 90, 92);
    Join(data, 88, 92, 96);
    Join(data, 88, 96, 100);
    Join(data, 88, 100, 104);
  }
}

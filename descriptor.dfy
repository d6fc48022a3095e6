/**
 * The hardware descriptor stored in the bridge's ROM (`struct vc_rom_table`):
 * a fixed 166-byte record that identifies the module and gives, for each
 * semantic register role, the sensor register address that plays it on
 * this variant (0 when the role does not exist).
 */
module Descriptor {
  import opened Bus

  /** Size of the record and the offsets of its fields (no padding: every u16 is at an even offset). */
  const ROM_SIZE: nat := 166
  const MAGIC_AT: nat := 0
  const MANUF_AT: nat := 12
  const MANUF_ID_AT: nat := 44
  const SEN_MANUF_AT: nat := 46
  const SEN_TYPE_AT: nat := 54
  const MOD_ID_AT: nat := 70
  const MOD_REV_AT: nat := 72
  const REGS_AT: nat := 74
  const NR_MODES_AT: nat := 130
  const BYTES_PER_MODE_AT: nat := 132
  const MODE1_AT: nat := 134
  const MODE2_AT: nat := 150

  /** The ROM record lives at this offset in the bridge's register space. */
  const ROM_BASE: nat := 0x1000

  const IMX273_MOD_ID: nat := 0x0273
  const COLOR_SUFFIX: u8 := 0x43  // 'C'

  datatype Descriptor = Descriptor(
    magic: seq<u8>,
    manuf: seq<u8>,
    manufId: u16,
    senManuf: seq<u8>,
    senType: seq<u8>,
    modId: u16,
    modRev: u16,
    regs: seq<u8>,
    nrModes: u16,
    bytesPerMode: u16,
    mode1: seq<u8>,
    mode2: seq<u8>)

  /** The character arrays have the sizes the record declares. */
  ghost predicate WellFormed(d: Descriptor)
  {
    && |d.magic| == 12 && |d.manuf| == 32 && |d.senManuf| == 8 && |d.senType| == 16
    && |d.regs| == 56 && |d.mode1| == 16 && |d.mode2| == 16
  }

  /** The semantic register roles (`enum vc_rom_table_sreg_names`), in table order. */
  datatype Role =
    | ModelIdHigh | ModelIdLow | ChipRev | Idle
    | HStartHigh | HStartLow | VStartHigh | VStartLow
    | HSizeHigh | HSizeLow | VSizeHigh | VSizeLow
    | HOutputHigh | HOutputLow | VOutputHigh | VOutputLow
    | ExposureHigh | ExposureMiddle | ExposureLow
    | GainHigh | GainLow
    | Reserved1 | Reserved2 | Reserved3 | Reserved4 | Reserved5 | Reserved6 | Reserved7
  {
    /** The role's position in the regs table. */
    function Index(): (i: nat)
      ensures i < 28
    {
      match this
      case ModelIdHigh => 0 case ModelIdLow => 1 case ChipRev => 2 case Idle => 3
      case HStartHigh => 4 case HStartLow => 5 case VStartHigh => 6 case VStartLow => 7
      case HSizeHigh => 8 case HSizeLow => 9 case VSizeHigh => 10 case VSizeLow => 11
      case HOutputHigh => 12 case HOutputLow => 13 case VOutputHigh => 14 case VOutputLow => 15
      case ExposureHigh => 16 case ExposureMiddle => 17 case ExposureLow => 18
      case GainHigh => 19 case GainLow => 20
      case Reserved1 => 21 case Reserved2 => 22 case Reserved3 => 23 case Reserved4 => 24
      case Reserved5 => 25 case Reserved6 => 26 case Reserved7 => 27
    }
  }

  /** Distinct roles occupy distinct slots of the table. */
  lemma RoleIndexInjective(r1: Role, r2: Role)
    requires r1.Index() == r2.Index()
    ensures r1 == r2
  {
  }

  /** A little-endian u16 stored at byte offset `at`. */
  function LoadU16(b: seq<u8>, at: nat): (v: u16)
    requires at + 2 <= |b|
  {
    b[at] as int + 256 * (b[at + 1] as int)
  }

  function StoreU16(v: u16): (b: seq<u8>)
    ensures |b| == 2
  {
    [v % 256, v / 256]
  }

  lemma LoadStoreU16(v: u16)
    ensures LoadU16(StoreU16(v), 0) == v
  {
  }

  /** Reinterprets the 166 ROM bytes as the record. */
  function Decode(b: seq<u8>): (d: Descriptor)
    requires |b| == ROM_SIZE
    ensures WellFormed(d)
  {
    Descriptor(
      b[MAGIC_AT..MANUF_AT],
      b[MANUF_AT..MANUF_ID_AT],
      LoadU16(b, MANUF_ID_AT),
      b[SEN_MANUF_AT..SEN_TYPE_AT],
      b[SEN_TYPE_AT..MOD_ID_AT],
      LoadU16(b, MOD_ID_AT),
      LoadU16(b, MOD_REV_AT),
      b[REGS_AT..NR_MODES_AT],
      LoadU16(b, NR_MODES_AT),
      LoadU16(b, BYTES_PER_MODE_AT),
      b[MODE1_AT..MODE2_AT],
      b[MODE2_AT..ROM_SIZE])
  }

  /** Lays a record out as the ROM stores it. */
  function Encode(d: Descriptor): (b: seq<u8>)
    requires WellFormed(d)
    ensures |b| == ROM_SIZE
  {
    d.magic + d.manuf + StoreU16(d.manufId) + d.senManuf + d.senType
    + StoreU16(d.modId) + StoreU16(d.modRev) + d.regs
    + StoreU16(d.nrModes) + StoreU16(d.bytesPerMode) + d.mode1 + d.mode2
  }

  lemma {:induction false} DecodeEncode(d: Descriptor)
    requires WellFormed(d)
    ensures Decode(Encode(d)) == d
  {
    var b := Encode(d);
    assert b[MAGIC_AT..MANUF_AT] == d.magic;
    assert b[MANUF_AT..MANUF_ID_AT] == d.manuf;
    assert b[SEN_MANUF_AT..SEN_TYPE_AT] == d.senManuf;
    assert b[SEN_TYPE_AT..MOD_ID_AT] == d.senType;
    assert b[REGS_AT..NR_MODES_AT] == d.regs;
    assert b[MODE1_AT..MODE2_AT] == d.mode1;
    assert b[MODE2_AT..ROM_SIZE] == d.mode2;
  }

  lemma {:induction false} EncodeDecode(b: seq<u8>)
    requires |b| == ROM_SIZE
    ensures Encode(Decode(b)) == b
  {
    var e := Encode(Decode(b));
    forall i | 0 <= i < ROM_SIZE
      ensures e[i] == b[i]
    {
    }
  }

  /** `sen_reg`: the register address of a role, as the u16 at regs[2r], regs[2r+1]. */
  function SenReg(table: seq<u8>, r: Role): u16
    requires |table| == ROM_SIZE
  {
    LoadU16(table, REGS_AT + 2 * r.Index())
  }

  /** The address of a role in the decoded record. */
  function RegAddr(d: Descriptor, r: Role): u16
    requires WellFormed(d)
  {
    LoadU16(d.regs, 2 * r.Index())
  }

  /** Reading the raw table in place agrees with reading the decoded record. */
  lemma SenRegIsRegAddr(table: seq<u8>, r: Role)
    requires |table| == ROM_SIZE
    ensures SenReg(table, r) == RegAddr(Decode(table), r)
    ensures SenReg(table, r) == table[REGS_AT + 2 * r.Index()] as int + 256 * (table[REGS_AT + 2 * r.Index() + 1] as int)
  {
  }

  /** The ROM bytes 8F 02 in the EXPOSURE_HIGH slot name sensor register 0x028F. */
  lemma ExposureHighExample(table: seq<u8>)
    requires |table| == ROM_SIZE
    requires table[0x6A] == 0x8F && table[0x6B] == 0x02
    ensures SenReg(table, ExposureHigh) == 0x028F
  {
  }

  /** `strnlen`: the length of the NUL-terminated prefix, looking at no more than `max` bytes. */
  function StrnLen(s: seq<u8>, max: nat): (n: nat)
    ensures n <= max && n <= |s|
  {
    if max == 0 || |s| == 0 || s[0] == 0 then 0 else 1 + StrnLen(s[1..], max - 1)
  }

  /** The length counts the non-NUL bytes before the first NUL, stopping at `max` or the end. */
  lemma {:induction false} StrnLenSpec(s: seq<u8>, max: nat)
    ensures var n := StrnLen(s, max);
      && (forall i :: 0 <= i < n ==> s[i] != 0)
      && (n < max && n < |s| ==> s[n] == 0)
    decreases max
  {
    if !(max == 0 || |s| == 0 || s[0] == 0) {
      StrnLenSpec(s[1..], max - 1);
      var n := StrnLen(s, max);
      forall i | 1 <= i < n ensures s[i] != 0 {
        assert s[i] == s[1..][i - 1];
      }
    }
  }

  datatype Model = NoModel | Monochrome | Color

  /** The model check of board setup: module id 0x0273, colour iff the sensor type ends in 'C'. */
  function Classify(d: Descriptor): Model
  {
    var len := StrnLen(d.senType, 16);
    if len > 0 && d.modId == IMX273_MOD_ID then
      if d.senType[len - 1] == COLOR_SUFFIX then Color else Monochrome
    else
      NoModel
  }

  /** Colour exactly when the module is 0x0273 and the type string is non-empty and ends in 'C'. */
  lemma ClassifySpec(d: Descriptor)
    ensures var len := StrnLen(d.senType, 16);
      && (Classify(d) == Color <==>
            d.modId == IMX273_MOD_ID && len > 0 && d.senType[len - 1] == COLOR_SUFFIX)
      && (Classify(d) == Monochrome <==>
            d.modId == IMX273_MOD_ID && len > 0 && d.senType[len - 1] != COLOR_SUFFIX)
      && (Classify(d) == NoModel <==> d.modId != IMX273_MOD_ID || len == 0)
  {
  }

  /** An empty type string (first byte NUL) is never a known model. */
  lemma EmptyTypeIsUnknown(d: Descriptor)
    requires |d.senType| > 0 && d.senType[0] == 0
    ensures Classify(d) == NoModel
  {
  }

  /** The magic tag takes no part in the classification: a corrupted tag is accepted. */
  lemma ClassifyIgnoresMagic(d: Descriptor, magic: seq<u8>)
    ensures Classify(d.(magic := magic)) == Classify(d)
  {
  }
}

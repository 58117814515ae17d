/**
 * Fixed-offset field decoding: the boot-record layout (BR_DICT) and the
 * 32-byte directory-slot layout (DENTRY_DICT), each field read the way
 * Python's struct.unpack reads it from a slice of the buffer.
 */
module Layout {
  import opened Bytes

  /** struct formats used by the layouts: 'B', '<H', '<I' and 'Ns'. */
  datatype Format = U8 | U16LE | U32LE | Str(n: nat)

  /** An unpacked field: a number, or the characters of an 's' format as bytes. */
  datatype Value = Num(n: nat) | Chars(b: seq<byte>)

  /** One layout entry: [offset, size, format]. */
  datatype Field = Field(offset: nat, size: nat, format: Format)

  function Width(fmt: Format): nat
  {
    match fmt
    case U8 => 1
    case U16LE => 2
    case U32LE => 4
    case Str(n) => n
  }

  /** Python's slice buf[lo:hi], which clips both ends to the buffer. */
  function Slice(buf: seq<byte>, lo: nat, hi: nat): (s: seq<byte>)
    requires lo <= hi
    ensures |s| == Min(hi, |buf|) - Min(lo, |buf|)
  {
    buf[Min(lo, |buf|)..Min(hi, |buf|)]
  }

  /** struct.unpack: fails (None) unless the string has exactly the format's width. */
  function Unpack(fmt: Format, s: seq<byte>): (r: Option<Value>)
    ensures r.Some? <==> |s| == Width(fmt)
    ensures r.Some? ==> (fmt.Str? <==> r.value.Chars?)
  {
    if |s| != Width(fmt) then None
    else if fmt.Str? then Some(Chars(s))
    else Some(Num(LittleEndian(s)))
  }

  function Decode(f: Field, buf: seq<byte>): Option<Value>
  {
    Unpack(f.format, Slice(buf, f.offset, f.offset + f.size))
  }

  /** A non-empty layout entry whose size agrees with its format and that lies inside buf. */
  predicate Fits(f: Field, buf: seq<byte>)
  {
    f.size == Width(f.format) && 0 < f.size && f.offset + f.size <= |buf|
  }

  /**
   * A well-formed field decodes exactly when it lies inside the buffer, and
   * then to the bytes at [offset, offset+size), read little-endian if numeric.
   */
  lemma DecodeField(f: Field, buf: seq<byte>)
    requires f.size == Width(f.format) && f.size > 0
    ensures Decode(f, buf).Some? <==> f.offset + f.size <= |buf|
    ensures Decode(f, buf).Some? ==>
      Decode(f, buf).value ==
        if f.format.Str? then Chars(buf[f.offset..f.offset + f.size])
        else Num(LittleEndian(buf[f.offset..f.offset + f.size]))
  {
  }

  function NumField(f: Field, buf: seq<byte>): nat
    requires Fits(f, buf) && !f.format.Str?
  {
    DecodeField(f, buf);
    Decode(f, buf).value.n
  }

  function StrField(f: Field, buf: seq<byte>): seq<byte>
    requires Fits(f, buf) && f.format.Str?
  {
    DecodeField(f, buf);
    Decode(f, buf).value.b
  }

  // BR_DICT
  const BR_BPS := Field(0x0B, 2, U16LE)
  const BR_SPC := Field(0x0D, 1, U8)
  const BR_RSVD_SECTS := Field(0x0E, 2, U16LE)
  const BR_N_FATS := Field(0x10, 1, U8)
  const BR_RDENTS := Field(0x11, 2, U16LE)
  const BR_SPF := Field(0x16, 2, U16LE)
  const BR_SPT := Field(0x18, 2, U16LE)
  const BR_HEADS := Field(0x1A, 2, U16LE)
  const BR_MAGIC := Field(0x1FE, 2, U16LE)

  /** The boot-record fields: bytes per sector, sectors per cluster, and so on. */
  datatype BootRecord = BootRecord(
    bps: nat, spc: nat, rsvdSects: nat, nFats: nat, rdents: nat,
    spf: nat, spt: nat, heads: nat, magic: nat)

  /**
   * `parse(BR_DICT, buf)`: every field is unpacked, so the parse fails as
   * soon as the buffer does not reach the end of the signature at 0x1FE.
   */
  function ParseBootRecord(buf: seq<byte>): (r: Option<BootRecord>)
    ensures r.Some? <==> |buf| >= 0x200
    ensures r.Some? ==>
      && r.value.bps == buf[0x0B] as int + 256 * (buf[0x0C] as int)
      && r.value.spc == buf[0x0D]
      && r.value.rsvdSects == buf[0x0E] as int + 256 * (buf[0x0F] as int)
      && r.value.nFats == buf[0x10]
      && r.value.rdents == buf[0x11] as int + 256 * (buf[0x12] as int)
      && r.value.spf == buf[0x16] as int + 256 * (buf[0x17] as int)
      && r.value.spt == buf[0x18] as int + 256 * (buf[0x19] as int)
      && r.value.heads == buf[0x1A] as int + 256 * (buf[0x1B] as int)
      && r.value.magic == buf[0x1FE] as int + 256 * (buf[0x1FF] as int)
  {
    if Fits(BR_BPS, buf) && Fits(BR_SPC, buf) && Fits(BR_RSVD_SECTS, buf)
       && Fits(BR_N_FATS, buf) && Fits(BR_RDENTS, buf) && Fits(BR_SPF, buf)
       && Fits(BR_SPT, buf) && Fits(BR_HEADS, buf) && Fits(BR_MAGIC, buf)
    then
      LittleEndian16(buf[0x0B..0x0D]);
      LittleEndian16(buf[0x0E..0x10]);
      LittleEndian16(buf[0x11..0x13]);
      LittleEndian16(buf[0x16..0x18]);
      LittleEndian16(buf[0x18..0x1A]);
      LittleEndian16(buf[0x1A..0x1C]);
      LittleEndian16(buf[0x1FE..0x200]);
      assert LittleEndian(buf[0x0D..0x0E]) == buf[0x0D];
      assert LittleEndian(buf[0x10..0x11]) == buf[0x10];
      Some(BootRecord(
        NumField(BR_BPS, buf), NumField(BR_SPC, buf), NumField(BR_RSVD_SECTS, buf),
        NumField(BR_N_FATS, buf), NumField(BR_RDENTS, buf), NumField(BR_SPF, buf),
        NumField(BR_SPT, buf), NumField(BR_HEADS, buf), NumField(BR_MAGIC, buf)))
    else
      None
  }

  // DENTRY_DICT
  const DE_NAM := Field(0x00, 8, Str(8))
  const DE_EXT := Field(0x08, 3, Str(3))
  const DE_SIZE := Field(0x1C, 4, U32LE)
  const DE_CLUSTER := Field(0x1A, 2, U16LE)
  const DE_FLAGS := Field(0x0B, 1, U8)
  const DE_LFNCKSUM := Field(0x0D, 1, U8)
  const DE_NT := Field(0x0C, 1, U8)
  const DE_LFNF := Field(0x00, 1, U8)
  const DE_LFN1 := Field(0x01, 10, Str(10))
  const DE_LFN2 := Field(0x0E, 12, Str(12))
  const DE_LFN3 := Field(0x1C, 4, Str(4))

  const SLOT_SIZE: nat := 32

  /** One parsed 32-byte directory slot, with its raw bytes. */
  datatype Slot = Slot(
    raw: seq<byte>, nam: seq<byte>, ext: seq<byte>, size: nat, cluster: nat,
    flags: byte, lfncksum: byte, nt: byte, lfnf: byte,
    lfn1: seq<byte>, lfn2: seq<byte>, lfn3: seq<byte>)

  /**
   * `parse(DENTRY_DICT, de_buf)` on a full slot: the 8.3 name, attribute
   * byte, first cluster and size of a short entry, and the sequence byte
   * and 26 name bytes of a long-name slot, which overlay the same bytes.
   */
  function ParseSlot(buf: seq<byte>): (s: Slot)
    requires |buf| == SLOT_SIZE
    ensures s.raw == buf
    ensures s.nam == buf[0..8] && s.ext == buf[8..11]
    ensures s.lfnf == buf[0] && s.flags == buf[0x0B] && s.nt == buf[0x0C]
    ensures s.lfncksum == buf[0x0D]
    ensures s.cluster == buf[0x1A] as int + 256 * (buf[0x1B] as int)
    ensures s.size == buf[0x1C] as int + 256 * (buf[0x1D] as int)
                      + 65536 * (buf[0x1E] as int) + 16777216 * (buf[0x1F] as int)
    ensures s.lfn1 == buf[1..11] && s.lfn2 == buf[14..26] && s.lfn3 == buf[28..32]
  {
    LittleEndian16(buf[0x1A..0x1C]);
    LittleEndian32(buf[0x1C..0x20]);
    assert LittleEndian(buf[0x0B..0x0C]) == buf[0x0B];
    assert LittleEndian(buf[0x0C..0x0D]) == buf[0x0C];
    assert LittleEndian(buf[0x0D..0x0E]) == buf[0x0D];
    assert LittleEndian(buf[0x00..0x01]) == buf[0x00];
    Slot(buf, StrField(DE_NAM, buf), StrField(DE_EXT, buf),
         NumField(DE_SIZE, buf), NumField(DE_CLUSTER, buf),
         NumField(DE_FLAGS, buf), NumField(DE_LFNCKSUM, buf),
         NumField(DE_NT, buf), NumField(DE_LFNF, buf),
         StrField(DE_LFN1, buf), StrField(DE_LFN2, buf), StrField(DE_LFN3, buf))
  }
}

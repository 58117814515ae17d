/**
 * The directory-slot scanner: classify each 32-byte slot, render its
 * attributes, and rebuild long file names from the long-name slots that
 * precede a short entry.
 */
module Directory {
  import opened Bytes
  import opened Layout
  import opened BlockChain

  const ATTR_READ_ONLY: byte := 0x01
  const ATTR_HIDDEN: byte := 0x02
  const ATTR_SYSTEM: byte := 0x04
  const ATTR_VOLUME: byte := 0x08
  const ATTR_DIR: byte := 0x10
  const ATTR_ARCHIVE: byte := 0x20
  /** The attribute byte of a long-name slot. */
  const LFN_ATTRS: byte := 0x0F
  /** First name byte of a deleted slot. */
  const DELETED_MARK: byte := 0xE5
  /** Sequence-byte flag of the long-name slot with the highest index. */
  const LFN_LAST: byte := 0x40
  const MAX_LFN_INDEX: nat := 20
  const DOT: byte := 0x2E

  /** ATTR_MASK_LIST: the letter and mask of each attribute, in display order. */
  const ATTR_MASKS: seq<(char, byte)> :=
    [('v', ATTR_VOLUME), ('d', ATTR_DIR), ('r', ATTR_READ_ONLY),
     ('h', ATTR_HIDDEN), ('s', ATTR_SYSTEM), ('a', ATTR_ARCHIVE)]

  /** The `type` a slot gets: 'lfn', 'deln', 'vol', 'delf', 'deld', 'dir', 'file'. */
  datatype Kind = Lfn | DelLfn | Vol | DelFile | DelDir | Dir | File

  /**
   * A short name is made of bytes; a long name is kept as the fragments it
   * was joined from, by index (see LongName for its text).
   */
  datatype Name = Short(chars: seq<byte>) | Long(parts: map<nat, seq<byte>>)

  /**
   * One entry of the listing: its kind, the parsed slot, the slot's device
   * offset `ofs`, the reported offset `offs` (that of the first long-name
   * slot when the name is long), the attribute string and the name (none for
   * deleted entries).
   */
  datatype DirEntry = DirEntry(kind: Kind, slot: Slot, ofs: nat, offs: nat, attrs: string, name: Option<Name>)

  /** A failed read of the directory, or one of the scanner's asserts. */
  datatype DirError =
    | ReadFailed(io: IoError)
    | LfnClusterNotZero(ofs: nat)
    | BadLfnIndex(ofs: nat, index: nat)
    | ChecksumMismatch(ofs: nat)
    | FragmentCountMismatch(ofs: nat)

  /**
   * The pending long name: fragments by index, the expected checksum, the
   * highest index, and the offset of the first fragment seen.
   */
  datatype LfnAcc = LfnAcc(parts: map<nat, seq<byte>>, cksum: Option<byte>, maxnum: Option<nat>, offs: Option<nat>)

  const NO_LFN := LfnAcc(map[], None, None, None)

  /** Indices stay in 1..20, and a first-fragment offset is kept exactly while fragments are pending. */
  predicate AccValid(acc: LfnAcc)
  {
    && (forall k :: k in acc.parts ==> 1 <= k <= MAX_LFN_INDEX)
    && (acc.parts == map[] <==> acc.offs.None?)
  }

  datatype StepOut = StepOut(acc: LfnAcc, entry: Option<DirEntry>)

  /** `x & mask` is non-zero, for a single-bit mask (every mask the scanner uses is one). */
  predicate HasBit(x: byte, mask: byte)
  {
    mask != 0 && (x / mask) % 2 == 1
  }

  /** For each single-bit mask, HasBit agrees with the bitwise and. */
  lemma HasBitIsAnd(x: byte)
    ensures HasBit(x, 0x01) == ((x as bv8) & 0x01 != 0)
    ensures HasBit(x, 0x02) == ((x as bv8) & 0x02 != 0)
    ensures HasBit(x, 0x04) == ((x as bv8) & 0x04 != 0)
    ensures HasBit(x, 0x08) == ((x as bv8) & 0x08 != 0)
    ensures HasBit(x, 0x10) == ((x as bv8) & 0x10 != 0)
    ensures HasBit(x, 0x20) == ((x as bv8) & 0x20 != 0)
    ensures HasBit(x, 0x40) == ((x as bv8) & 0x40 != 0)
  {
  }

  function AttrsFrom(flags: byte, masks: seq<(char, byte)>): seq<char>
  {
    if masks == [] then ""
    else [if HasBit(flags, masks[0].1) then masks[0].0 else '-'] + AttrsFrom(flags, masks[1..])
  }

  /** One character per mask: its letter when the bit is set, '-' otherwise. */
  lemma {:induction false} AttrsFromSpec(flags: byte, masks: seq<(char, byte)>)
    ensures var s := AttrsFrom(flags, masks);
      && |s| == |masks|
      && forall i :: 0 <= i < |masks| ==> s[i] == if HasBit(flags, masks[i].1) then masks[i].0 else '-'
  {
    if masks != [] {
      AttrsFromSpec(flags, masks[1..]);
      var s := AttrsFrom(flags, masks);
      forall i | 1 <= i < |masks|
        ensures s[i] == if HasBit(flags, masks[i].1) then masks[i].0 else '-'
      {
        assert s[i] == AttrsFrom(flags, masks[1..])[i - 1];
        assert masks[i] == masks[1..][i - 1];
      }
    }
  }

  /** The 6-character attribute string: v, d, r, h, s, a, with '-' for an absent bit. */
  function AttrString(flags: byte): string
  {
    AttrsFrom(flags, ATTR_MASKS)
  }

  lemma AttrStringShape(flags: byte)
    ensures var s := AttrString(flags);
      && |s| == 6
      && (s[0] == (if HasBit(flags, ATTR_VOLUME) then 'v' else '-'))
      && (s[1] == (if HasBit(flags, ATTR_DIR) then 'd' else '-'))
      && (s[2] == (if HasBit(flags, ATTR_READ_ONLY) then 'r' else '-'))
      && (s[3] == (if HasBit(flags, ATTR_HIDDEN) then 'h' else '-'))
      && (s[4] == (if HasBit(flags, ATTR_SYSTEM) then 's' else '-'))
      && (s[5] == (if HasBit(flags, ATTR_ARCHIVE) then 'a' else '-'))
  {
    AttrsFromSpec(flags, ATTR_MASKS);
  }

  /** The loop that builds `attrs`, one character per mask. */
  method RenderAttrs(flags: byte) returns (attrs: string)
    ensures attrs == AttrString(flags)
  {
    attrs := "";
    for i := 0 to |ATTR_MASKS|
      invariant |attrs| == i
      invariant forall k :: 0 <= k < i ==>
        attrs[k] == if HasBit(flags, ATTR_MASKS[k].1) then ATTR_MASKS[k].0 else '-'
    {
      var (letter, mask) := ATTR_MASKS[i];
      if HasBit(flags, mask) {
        attrs := attrs + [letter];
      } else {
        attrs := attrs + "-";
      }
    }
    AttrsFromSpec(flags, ATTR_MASKS);
  }

  /** The bytes Python's str.isspace() accepts. */
  predicate IsSpace(c: byte)
  {
    c == 0x20 || 0x09 <= c <= 0x0D
  }

  /** str.rstrip(): the longest prefix that does not end in white space. */
  function RStrip(s: seq<byte>): seq<byte>
  {
    if s == [] || !IsSpace(s[|s| - 1]) then s else RStrip(s[..|s| - 1])
  }

  /** RStrip keeps a prefix that ends in a non-space and drops only white space. */
  lemma {:induction false} RStripSpec(s: seq<byte>)
    ensures var r := RStrip(s);
      && |r| <= |s| && r == s[..|r|]
      && (r == [] || !IsSpace(r[|r| - 1]))
      && forall i :: |r| <= i < |s| ==> IsSpace(s[i])
  {
    if s != [] && IsSpace(s[|s| - 1]) {
      var t := s[..|s| - 1];
      RStripSpec(t);
      var r := RStrip(t);
      assert t[..|r|] == s[..|r|];
    }
  }

  /** The 8.3 name: trimmed name, then '.' and the trimmed extension if there is one. */
  function ShortName(nam: seq<byte>, ext: seq<byte>): seq<byte>
  {
    RStrip(nam) + (if RStrip(ext) != [] then [DOT] + RStrip(ext) else [])
  }

  /** A volume label: trimmed name and trimmed extension, with no dot. */
  function VolumeName(nam: seq<byte>, ext: seq<byte>): seq<byte>
  {
    RStrip(nam) + RStrip(ext)
  }

  /** `lfnf & ~0x40`: the sequence number with the last-slot flag cleared. */
  function LfnIndex(lfnf: byte): byte
  {
    if HasBit(lfnf, LFN_LAST) then lfnf - LFN_LAST else lfnf
  }

  /**
   * LfnIndex is `lfnf & ~0x40`: it keeps the bits above 0x40 and the bits
   * below it, and clears bit 0x40.
   */
  lemma LfnIndexBits(lfnf: byte)
    ensures LfnIndex(lfnf) == (lfnf / 0x80) * 0x80 + lfnf % 0x40
    ensures !HasBit(LfnIndex(lfnf), LFN_LAST)
  {
  }

  /** `nam[:1] == '\xe5'`. */
  predicate DeletedName(nam: seq<byte>)
  {
    |nam| >= 1 && nam[0] == DELETED_MARK
  }

  function Classify(s: Slot): Kind
  {
    if s.flags == LFN_ATTRS then (if DeletedName(s.nam) then DelLfn else Lfn)
    else if s.flags == ATTR_VOLUME then Vol
    else if DeletedName(s.nam) then (if HasBit(s.flags, ATTR_DIR) then DelDir else DelFile)
    else if HasBit(s.flags, ATTR_DIR) then Dir
    else File
  }

  /** The fragments with indices i..20, in ascending index order. */
  function JoinFrom(parts: map<nat, seq<byte>>, i: nat): seq<byte>
    decreases MAX_LFN_INDEX + 1 - i
  {
    if i > MAX_LFN_INDEX then []
    else (if i in parts then parts[i] else []) + JoinFrom(parts, i + 1)
  }

  /** The fragments joined by ascending index (`sorted(cur_lfn_parts.keys())`). */
  function JoinParts(parts: map<nat, seq<byte>>): seq<byte>
  {
    JoinFrom(parts, 1)
  }

  /** The joined fragments read as little-endian 16-bit units, up to the first zero unit. */
  function LfnUnits(b: seq<byte>): seq<nat>
    decreases |b|
  {
    if |b| < 2 then []
    else
      var unit := b[0] as int + 256 * (b[1] as int);
      if unit == 0 then [] else [unit] + LfnUnits(b[2..])
  }

  /**
   * Every unit of the decoded name is non-zero and is read little-endian from
   * its two bytes, and decoding stopped at a zero unit or at the end.
   */
  lemma {:induction false} LfnUnitsSpec(b: seq<byte>)
    ensures var u := LfnUnits(b);
      && 2 * |u| <= |b|
      && (forall k :: 0 <= k < |u| ==> u[k] == b[2 * k] as int + 256 * (b[2 * k + 1] as int) && u[k] != 0)
      && (2 * |u| + 2 <= |b| ==> b[2 * |u|] == 0 && b[2 * |u| + 1] == 0)
    decreases |b|
  {
    if |b| >= 2 && b[0] as int + 256 * (b[1] as int) != 0 {
      LfnUnitsSpec(b[2..]);
      var u := LfnUnits(b);
      assert u == [u[0]] + LfnUnits(b[2..]);
      forall k | 1 <= k < |u|
        ensures u[k] == b[2 * k] as int + 256 * (b[2 * k + 1] as int)
      {
        assert u[k] == LfnUnits(b[2..])[k - 1];
        assert b[2..][2 * (k - 1)] == b[2 * k];
        assert b[2..][2 * (k - 1) + 1] == b[2 * k + 1];
      }
    }
  }

  /** The unit at 2*i decides whether decoding stops there or goes on from 2*(i+1). */
  lemma LfnUnitsAt(b: seq<byte>, i: nat)
    requires 2 * i + 2 <= |b|
    ensures var u := b[2 * i] as int + 256 * (b[2 * i + 1] as int);
      LfnUnits(b[2 * i..]) == if u == 0 then [] else [u] + LfnUnits(b[2 * (i + 1)..])
  {
    assert b[2 * i..][2..] == b[2 * (i + 1)..];
  }

  lemma AppendAssoc<T>(a: seq<T>, b: seq<T>, c: seq<T>)
    ensures a + (b + c) == (a + b) + c
  {
  }

  /** The loop that appends one character per non-zero unit. */
  method DecodeLongName(namu: seq<byte>) returns (name: seq<nat>)
    ensures name == LfnUnits(namu)
  {
    name := [];
    var i := 0;
    while i < |namu| / 2
      invariant 0 <= i <= |namu| / 2
      invariant LfnUnits(namu) == name + LfnUnits(namu[2 * i..])
    {
      var l, h := namu[2 * i], namu[2 * i + 1];
      LfnUnitsAt(namu, i);
      if l == 0 && h == 0 {
        break;
      }
      var unit := h as int * 256 + l as int;
      AppendAssoc(name, [unit], LfnUnits(namu[2 * (i + 1)..]));
      name := name + [unit];
      i := i + 1;
    }
    assert LfnUnits(namu[2 * i..]) == [] && name + [] == name;
  }

  /** The text of a long name: `namu`, the joined fragments, decoded (the `name` the source stores). */
  function LongName(parts: map<nat, seq<byte>>): seq<nat>
  {
    LfnUnits(JoinParts(parts))
  }

  /** The decoding loop run on the fragments a long name was joined from. */
  method DecodeParts(parts: map<nat, seq<byte>>) returns (name: seq<nat>)
    ensures name == LongName(parts)
  {
    var namu := JoinParts(parts);
    name := DecodeLongName(namu);
  }

  /**
   * One slot of the scan. A long-name slot (attribute byte 0x0F) must have
   * cluster 0; unless deleted it adds its 26 name bytes under its index and
   * emits nothing. Every other slot resets the pending long name and is
   * emitted: a volume label, a deleted file or directory, or a live entry
   * that takes the pending long name if there is one.
   */
  function Step(acc: LfnAcc, s: Slot, ofs: nat): (r: Result<StepOut, DirError>)
    requires AccValid(acc)
    ensures r.Ok? ==> AccValid(r.value.acc)
  {
    var kind := Classify(s);
    var attrs := AttrString(s.flags);
    if kind == Lfn || kind == DelLfn then
      if s.cluster != 0 then Err(LfnClusterNotZero(ofs))
      else if kind == DelLfn then Ok(StepOut(acc, None))
      else
        var index := LfnIndex(s.lfnf);
        var maxnum := if HasBit(s.lfnf, LFN_LAST) then Some(index as nat) else acc.maxnum;
        if !(0 < index <= MAX_LFN_INDEX && (maxnum.None? || index <= maxnum.value)) then
          Err(BadLfnIndex(ofs, index))
        else if !(acc.cksum.None? || acc.cksum.value == s.lfncksum) then
          Err(ChecksumMismatch(ofs))
        else
          var parts := acc.parts[index as nat := s.lfn1 + s.lfn2 + s.lfn3];
          var offs := if acc.offs.None? then Some(ofs) else acc.offs;
          assert index as nat in parts;
          Ok(StepOut(LfnAcc(parts, acc.cksum, maxnum, offs), None))
    else if kind == Vol then
      Ok(StepOut(NO_LFN, Some(DirEntry(Vol, s, ofs, ofs, attrs, Some(Short(VolumeName(s.nam, s.ext)))))))
    else if kind == DelFile || kind == DelDir then
      Ok(StepOut(NO_LFN, Some(DirEntry(kind, s, ofs, ofs, attrs, None))))
    else if acc.parts != map[] then
      if acc.maxnum != Some(|acc.parts|) then Err(FragmentCountMismatch(ofs))
      else
        var name := Long(acc.parts);
        Ok(StepOut(NO_LFN, Some(DirEntry(kind, s, ofs, acc.offs.value, attrs, Some(name)))))
    else
      Ok(StepOut(NO_LFN, Some(DirEntry(kind, s, ofs, ofs, attrs, Some(Short(ShortName(s.nam, s.ext)))))))
  }

  /**
   * A slot emits nothing exactly when it is a long-name slot; an emitted
   * entry is the slot with its kind, offset and attribute string, named unless
   * deleted, reported at its own offset unless it took a long name, and it
   * clears the pending long name.
   */
  lemma StepSpec(acc: LfnAcc, s: Slot, ofs: nat)
    requires AccValid(acc)
    ensures var r := Step(acc, s, ofs);
      && (r.Ok? ==> (r.value.entry.None? <==> Classify(s) in {Lfn, DelLfn}))
      && (r.Ok? && r.value.entry.Some? ==>
            var e := r.value.entry.value;
            && r.value.acc == NO_LFN
            && e.kind == Classify(s) && e.slot == s && e.ofs == ofs && e.attrs == AttrString(s.flags)
            && (e.name.None? <==> e.kind in {DelFile, DelDir})
            && (e.offs != ofs ==> e.name.Some? && e.name.value.Long?))
  {
  }

  /**
   * A long-name slot (attribute byte 0x0F). With a non-zero cluster it is
   * rejected. A deleted one changes nothing. A live one first takes its index
   * as the maximum when bit 0x40 is set; it is rejected when the index is 0,
   * above 20 or above that maximum, or when a pending checksum differs;
   * otherwise its 26 name bytes are stored under its index, replacing any
   * earlier fragment with that index, the first fragment's offset is kept,
   * and nothing is emitted.
   */
  lemma LfnSlotStep(acc: LfnAcc, s: Slot, ofs: nat)
    requires AccValid(acc) && s.flags == LFN_ATTRS
    ensures s.cluster != 0 ==> Step(acc, s, ofs) == Err(LfnClusterNotZero(ofs))
    ensures s.cluster == 0 && DeletedName(s.nam) ==> Step(acc, s, ofs) == Ok(StepOut(acc, None))
    ensures s.cluster == 0 && !DeletedName(s.nam) ==>
      var index := LfnIndex(s.lfnf);
      var maxnum := if HasBit(s.lfnf, LFN_LAST) then Some(index as nat) else acc.maxnum;
      var indexOk := 0 < index <= MAX_LFN_INDEX && (maxnum.None? || index <= maxnum.value);
      && (!indexOk ==> Step(acc, s, ofs) == Err(BadLfnIndex(ofs, index)))
      && (indexOk && acc.cksum.Some? && acc.cksum.value != s.lfncksum ==> Step(acc, s, ofs) == Err(ChecksumMismatch(ofs)))
      && (indexOk && (acc.cksum.None? || acc.cksum.value == s.lfncksum) ==>
            Step(acc, s, ofs) == Ok(StepOut(LfnAcc(acc.parts[index as nat := s.lfn1 + s.lfn2 + s.lfn3], acc.cksum, maxnum,
                                                    if acc.offs.None? then Some(ofs) else acc.offs), None)))
  {
  }

  /**
   * Any other slot clears the pending long name and is emitted. A volume
   * label is named by its trimmed name and extension without a dot; a deleted
   * file or directory has no name; a live file or directory with fragments
   * pending is rejected unless their number of indices equals the maximum
   * (see StepTakesLongName for the accepted case), and without fragments
   * pending it gets its 8.3 name. It is a directory exactly when bit 0x10 is set.
   */
  lemma TerminalSlotStep(acc: LfnAcc, s: Slot, ofs: nat)
    requires AccValid(acc) && s.flags != LFN_ATTRS
    ensures var attrs := AttrString(s.flags);
      && (s.flags == ATTR_VOLUME ==>
            Step(acc, s, ofs) == Ok(StepOut(NO_LFN, Some(DirEntry(Vol, s, ofs, ofs, attrs, Some(Short(VolumeName(s.nam, s.ext))))))))
      && (s.flags != ATTR_VOLUME && DeletedName(s.nam) ==>
            Step(acc, s, ofs) == Ok(StepOut(NO_LFN, Some(DirEntry(if HasBit(s.flags, ATTR_DIR) then DelDir else DelFile,
                                                                  s, ofs, ofs, attrs, None)))))
      && (s.flags != ATTR_VOLUME && !DeletedName(s.nam) && acc.parts != map[] && acc.maxnum != Some(|acc.parts|) ==>
            Step(acc, s, ofs) == Err(FragmentCountMismatch(ofs)))
      && (s.flags != ATTR_VOLUME && !DeletedName(s.nam) && acc.parts == map[] ==>
            Step(acc, s, ofs) == Ok(StepOut(NO_LFN, Some(DirEntry(if HasBit(s.flags, ATTR_DIR) then Dir else File,
                                                                  s, ofs, ofs, attrs, Some(Short(ShortName(s.nam, s.ext))))))))
  {
  }

  /**
   * The 8.3 name: the name with trailing white space removed, then, only when
   * the trimmed extension is not empty, a dot and that extension.
   */
  lemma ShortNameParts(nam: seq<byte>, ext: seq<byte>)
    ensures var n, a, b := ShortName(nam, ext), RStrip(nam), RStrip(ext);
      && a <= nam && b <= ext
      && (a == [] || !IsSpace(a[|a| - 1])) && (b == [] || !IsSpace(b[|b| - 1]))
      && (b == [] ==> n == a)
      && (b != [] ==> |n| == |a| + 1 + |b| && n[..|a|] == a && n[|a|] == DOT && n[|a| + 1..] == b)
  {
    RStripSpec(nam);
    RStripSpec(ext);
    var a, b := RStrip(nam), RStrip(ext);
    if b != [] {
      var n := ShortName(nam, ext);
      assert n == a + ([DOT] + b);
      assert n[..|a|] == a;
      assert n[|a| + 1..] == b;
    }
  }

  /** A volume label: the trimmed name followed directly by the trimmed extension. */
  lemma VolumeNameParts(nam: seq<byte>, ext: seq<byte>)
    ensures var n, a, b := VolumeName(nam, ext), RStrip(nam), RStrip(ext);
      && a <= nam && b <= ext
      && |n| == |a| + |b| && n[..|a|] == a && n[|a|..] == b
  {
    RStripSpec(nam);
    RStripSpec(ext);
    var n, a := VolumeName(nam, ext), RStrip(nam);
    assert n[..|a|] == a;
  }

  function Zeros(n: nat): seq<byte>
  {
    seq(n, _ => 0)
  }

  /** `len(d_chain) / 32`: how many slots the scan may visit. */
  function SlotCount(c: BChain): nat
  {
    c.Length() / SLOT_SIZE
  }

  /** The device offset of slot j, `d_chain.offs(j * 32)`. */
  function SlotOfs(c: BChain, j: nat): nat
    requires j < SlotCount(c)
  {
    c.InChainIff(j * SLOT_SIZE);
    c.Offs(j * SLOT_SIZE)
  }

  /**
   * The slots `read_dir` visits, as it reads them: slot j is the 32 bytes at
   * chain position j*32, parsed, or the error reading them raised.
   */
  function SlotReads(c: BChain): (rs: seq<Result<Slot, IoError>>)
    ensures |rs| == SlotCount(c)
  {
    seq(SlotCount(c), j requires 0 <= j < SlotCount(c) =>
      match c.ReadSpec(j * SLOT_SIZE, SLOT_SIZE)
      case Err(e) => Err(e)
      case Ok(buf) => Ok(ParseSlot(buf)))
  }

  /** The device offset of every slot. */
  function SlotOffsets(c: BChain): (os: seq<nat>)
    ensures |os| == SlotCount(c)
  {
    seq(SlotCount(c), j requires 0 <= j < SlotCount(c) => SlotOfs(c, j))
  }

  function Prepend(e: Option<DirEntry>, r: Result<seq<DirEntry>, DirError>): Result<seq<DirEntry>, DirError>
  {
    match r
    case Err(err) => Err(err)
    case Ok(es) => Ok(if e.Some? then [e.value] + es else es)
  }

  /**
   * What `read_dir`'s loop returns or raises from slot i on, with pending long
   * name acc, given the slot reads rs and slot offsets os.
   */
  function ScanFrom(rs: seq<Result<Slot, IoError>>, os: seq<nat>, i: nat, acc: LfnAcc): Result<seq<DirEntry>, DirError>
    requires |rs| == |os| && AccValid(acc)
    decreases |rs| - i
  {
    if i >= |rs| then Ok([])
    else
      match rs[i]
      case Err(e) => Err(ReadFailed(e))
      case Ok(s) =>
        if s.raw == Zeros(SLOT_SIZE) then Ok([])
        else
          match Step(acc, s, os[i])
          case Err(e) => Err(e)
          case Ok(out) => Prepend(out.entry, ScanFrom(rs, os, i + 1, out.acc))
  }

  /** What `read_dir(d_chain)` returns or raises. */
  function ReadDirSpec(c: BChain): Result<seq<DirEntry>, DirError>
  {
    ScanFrom(SlotReads(c), SlotOffsets(c), 0, NO_LFN)
  }

  function PrependAll(es: seq<DirEntry>, r: Result<seq<DirEntry>, DirError>): Result<seq<DirEntry>, DirError>
  {
    match r
    case Err(err) => Err(err)
    case Ok(rest) => Ok(es + rest)
  }

  /**
   * The body of `read_dir`'s loop for one non-zero slot: the long-name
   * bookkeeping on the pending name, or the terminal entry it completes.
   */
  method FeedSlot(acc: LfnAcc, s: Slot, ofs: nat) returns (r: Result<StepOut, DirError>)
    requires AccValid(acc)
    ensures r == Step(acc, s, ofs)
  {
    var parts, cksum, maxnum, lfnOffs := acc.parts, acc.cksum, acc.maxnum, acc.offs;
    var attrs := RenderAttrs(s.flags);
    if s.flags == LFN_ATTRS {
      if s.cluster != 0 {
        return Err(LfnClusterNotZero(ofs));
      }
      if !DeletedName(s.nam) {
        var index := LfnIndex(s.lfnf);
        if HasBit(s.lfnf, LFN_LAST) {
          maxnum := Some(index as nat);
        }
        if !(0 < index <= MAX_LFN_INDEX && (maxnum.None? || index <= maxnum.value)) {
          return Err(BadLfnIndex(ofs, index));
        }
        if !(cksum.None? || cksum.value == s.lfncksum) {
          return Err(ChecksumMismatch(ofs));
        }
        parts := parts[index as nat := s.lfn1 + s.lfn2 + s.lfn3];
        if lfnOffs.None? {
          lfnOffs := Some(ofs);
        }
      }
      return Ok(StepOut(LfnAcc(parts, cksum, maxnum, lfnOffs), None));
    }
    var kind: Kind;
    var name: Option<Name>;
    var offs := ofs;
    if s.flags == ATTR_VOLUME {
      kind := Vol;
      name := Some(Short(VolumeName(s.nam, s.ext)));
    } else if DeletedName(s.nam) {
      kind := if HasBit(s.flags, ATTR_DIR) then DelDir else DelFile;
      name := None;
    } else {
      if parts != map[] {
        if maxnum != Some(|parts|) {
          return Err(FragmentCountMismatch(ofs));
        }
        name := Some(Long(parts));
        offs := lfnOffs.value;
      } else {
        name := Some(Short(ShortName(s.nam, s.ext)));
      }
      kind := if HasBit(s.flags, ATTR_DIR) then Dir else File;
    }
    return Ok(StepOut(NO_LFN, Some(DirEntry(kind, s, ofs, offs, attrs, name))));
  }

  /** One slot further: the entries found so far absorb the one this slot emits. */
  lemma PrependAllStep(es: seq<DirEntry>, e: Option<DirEntry>, rest: Result<seq<DirEntry>, DirError>)
    ensures PrependAll(es, Prepend(e, rest)) == PrependAll(if e.Some? then es + [e.value] else es, rest)
  {
    if rest.Ok? && e.Some? {
      assert es + ([e.value] + rest.value) == (es + [e.value]) + rest.value;
    }
  }

  /**
   * `read_dir`: scan the slots in order, stop at an all-zero slot, keep the
   * pending long name in a local and collect the terminal entries.
   */
  method ReadDir(c: BChain) returns (r: Result<seq<DirEntry>, DirError>)
    ensures r == ReadDirSpec(c)
  {
    var count := c.Length() / SLOT_SIZE;
    var entries: seq<DirEntry> := [];
    var acc := NO_LFN;
    var i := 0;
    assert PrependAll([], ReadDirSpec(c)) == ReadDirSpec(c) by {
      if ReadDirSpec(c).Ok? {
        assert [] + ReadDirSpec(c).value == ReadDirSpec(c).value;
      }
    }
    while i < count
      invariant AccValid(acc)
      invariant ReadDirSpec(c) == PrependAll(entries, ScanFrom(SlotReads(c), SlotOffsets(c), i, acc))
    {
      var rd := c.Read(i * SLOT_SIZE, SLOT_SIZE);
      if rd.Err? {
        assert SlotReads(c)[i] == Err(rd.error);
        return Err(ReadFailed(rd.error));
      }
      var buf := rd.value;
      if buf == Zeros(SLOT_SIZE) {
        assert SlotReads(c)[i] == Ok(ParseSlot(buf));
        break;
      }
      var s := ParseSlot(buf);
      var ofs := SlotOfs(c, i);
      assert SlotReads(c)[i] == Ok(s) && SlotOffsets(c)[i] == ofs;
      var out := FeedSlot(acc, s, ofs);
      if out.Err? {
        return Err(out.error);
      }
      PrependAllStep(entries, out.value.entry, ScanFrom(SlotReads(c), SlotOffsets(c), i + 1, out.value.acc));
      if out.value.entry.Some? {
        entries := entries + [out.value.entry.value];
      }
      acc := out.value.acc;
      i := i + 1;
    }
    assert entries + [] == entries;
    return Ok(entries);
  }

  /** `ls_dir` lists volume labels, directories and files only. */
  predicate Listable(e: DirEntry)
  {
    e.kind !in {DelFile, DelDir, Lfn, DelLfn}
  }

  /** The entries `ls_dir` prints, in order. */
  function Listing(es: seq<DirEntry>): (r: seq<DirEntry>)
    ensures |r| <= |es|
    ensures forall e :: e in r <==> e in es && Listable(e)
  {
    if es == [] then []
    else
      if Listable(es[0]) then [es[0]] + Listing(es[1..])
      else Listing(es[1..])
  }

  /** Each listable entry is printed as many times as `read_dir` returned it; the others never. */
  lemma {:induction false} ListingCount(es: seq<DirEntry>, e: DirEntry)
    ensures multiset(Listing(es))[e] == if Listable(e) then multiset(es)[e] else 0
    decreases |es|
  {
    if es != [] {
      ListingCount(es[1..], e);
      assert es == [es[0]] + es[1..];
      assert multiset(es) == multiset([es[0]]) + multiset(es[1..]);
      if Listable(es[0]) {
        assert multiset(Listing(es)) == multiset([es[0]]) + multiset(Listing(es[1..]));
      }
    }
  }

  /**
   * The listing of two lists one after the other is their listings one after
   * the other; with Listing([e]) being [e] or [], this fixes the order: the
   * entries are printed in the order `read_dir` returned them.
   */
  lemma {:induction false} ListingConcat(a: seq<DirEntry>, b: seq<DirEntry>)
    ensures Listing(a + b) == Listing(a) + Listing(b)
    decreases |a|
  {
    if a != [] {
      ListingConcat(a[1..], b);
      var ab := a + b;
      assert ab[0] == a[0] && ab[1..] == a[1..] + b;
      if Listable(a[0]) {
        assert Listing(ab) == [a[0]] + Listing(a[1..] + b);
        assert Listing(a) == [a[0]] + Listing(a[1..]);
        AppendAssoc([a[0]], Listing(a[1..]), Listing(b));
      } else {
        assert Listing(ab) == Listing(a[1..] + b);
        assert Listing(a) == Listing(a[1..]);
      }
    } else {
      assert a + b == b;
    }
  }
}

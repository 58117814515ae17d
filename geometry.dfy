/**
 * Boot-record checks and the byte offsets derived from it: the two FATs,
 * the root directory, and the cluster area; and the root-directory chain.
 */
module Geometry {
  import opened Bytes
  import opened Layout
  import opened BlockChain

  const BOOT_MAGIC: nat := 0xAA55
  const BOOT_SECTOR_SIZE: nat := 512
  const DIR_ENTRY_SIZE: nat := 32

  /** Why a volume cannot be read: a short boot sector, a bad signature, an unsupported sector size. */
  datatype FormatError = ShortBootSector(got: nat) | BadMagic(magic: nat) | BadSectorSize(bps: nat)

  /** The boot record with the offsets the program derives from it. */
  datatype Volume = Volume(
    br: BootRecord,
    fat1Offs: nat,   // first FAT
    fat2Offs: nat,   // second FAT
    bprd: nat,       // bytes in the root directory
    sprd: nat,       // sectors in the root directory, rounded up
    rdOffs: nat,     // root directory
    c2Offs: nat,     // cluster 2, the first data cluster
    c0Offs: int)     // where cluster 0 would start; may lie before the volume

  predicate SupportedSectorSize(bps: nat)
  {
    bps == 256 || bps == 512 || bps == 2048
  }

  /** The two asserts on the boot record, then the offset arithmetic. */
  function Derive(br: BootRecord): (r: Result<Volume, FormatError>)
    ensures r.Ok? <==> br.magic == BOOT_MAGIC && SupportedSectorSize(br.bps)
    ensures r.Err? ==> r.error == if br.magic != BOOT_MAGIC then BadMagic(br.magic) else BadSectorSize(br.bps)
    ensures r.Ok? ==> r.value.br == br
  {
    if br.magic != BOOT_MAGIC then Err(BadMagic(br.magic))
    else if !SupportedSectorSize(br.bps) then Err(BadSectorSize(br.bps))
    else
      var fat1Offs := br.rsvdSects * br.bps;
      var fat2Offs := fat1Offs + br.spf * br.bps;
      var bprd := br.rdents * DIR_ENTRY_SIZE;
      var sprd := (bprd + br.bps - 1) / br.bps;
      var rdOffs := (br.rsvdSects + br.nFats * br.spf) * br.bps;
      var c2Offs := rdOffs + sprd * br.bps;
      var c0Offs := c2Offs - 2 * br.spc * br.bps;
      Ok(Volume(br, fat1Offs, fat2Offs, bprd, sprd, rdOffs, c2Offs, c0Offs))
  }

  /**
   * The derived layout: FAT 2 follows FAT 1, the root directory follows all
   * FATs, the root directory is rounded up to whole sectors (no more),
   * cluster 2 starts right after those sectors, and cluster 0 would start two
   * clusters before cluster 2.
   */
  lemma {:induction false} VolumeLayout(br: BootRecord)
    requires Derive(br).Ok?
    ensures var v := Derive(br).value;
      && v.fat1Offs == br.rsvdSects * br.bps
      && v.fat2Offs == v.fat1Offs + br.spf * br.bps
      && v.rdOffs == v.fat1Offs + br.nFats * (br.spf * br.bps)
      && v.bprd == br.rdents * 32
      && v.sprd * br.bps >= v.bprd
      && v.sprd * br.bps < v.bprd + br.bps
      && v.c2Offs == v.rdOffs + v.sprd * br.bps
      && v.c2Offs >= v.rdOffs + v.bprd
      && v.c0Offs == v.c2Offs - 2 * br.spc * br.bps
  {
    var v := Derive(br).value;
    var bps := br.bps;
    var x := v.bprd + bps - 1;
    assert x == (x / bps) * bps + x % bps;
    assert v.sprd == x / bps;
    assert v.rdOffs == v.fat1Offs + br.nFats * (br.spf * bps) by {
      assert (br.rsvdSects + br.nFats * br.spf) * bps == br.rsvdSects * bps + (br.nFats * br.spf) * bps;
      assert (br.nFats * br.spf) * bps == br.nFats * (br.spf * bps);
    }
  }

  /** Read the boot sector, parse it, check it and derive the offsets. */
  function Boot(dev: Device): (r: Result<Volume, FormatError>)
  {
    var buf := dev.ReadAt(0, BOOT_SECTOR_SIZE);
    match ParseBootRecord(buf)
    case None => Err(ShortBootSector(|buf|))
    case Some(br) => Derive(br)
  }

  /**
   * A boot sector is accepted exactly when a whole sector was read, its last
   * two bytes are 0x55 0xAA, and bytes 0x0B-0x0C give 256, 512 or 2048.
   */
  lemma BootAccepts(dev: Device)
    ensures Boot(dev).Ok? <==>
      var buf := dev.ReadAt(0, BOOT_SECTOR_SIZE);
      && |buf| == BOOT_SECTOR_SIZE
      && buf[0x1FE] == 0x55 && buf[0x1FF] == 0xAA
      && buf[0x0B] == 0 && (buf[0x0C] == 1 || buf[0x0C] == 2 || buf[0x0C] == 8)
  {
  }

  /**
   * The start-up sequence: boot record, geometry, and the root-directory
   * chain, one block of bprd bytes at rd_offs.
   */
  method Mount(dev: Device) returns (r: Result<Volume, FormatError>, root: BChain?)
    ensures r == Boot(dev)
    ensures r.Ok? ==> root != null && fresh(root) && root.f == dev && root.blist == [0]
                      && root.bsize == r.value.bprd && root.boffs == r.value.rdOffs
  {
    var buf := dev.ReadAt(0, BOOT_SECTOR_SIZE);
    var br := ParseBootRecord(buf);
    if br.None? {
      return Err(ShortBootSector(|buf|)), null;
    }
    r := Derive(br.value);
    if r.Err? {
      return r, null;
    }
    root := new BChain(dev, [0], r.value.bprd, r.value.rdOffs);
  }

  /**
   * The root chain is contiguous: it is rdents*32 bytes long and logical byte
   * pos is device byte rd_offs + pos.
   */
  lemma RootChainContiguous(v: Volume, root: BChain)
    requires root.blist == [0] && root.bsize == v.bprd && root.boffs == v.rdOffs
    ensures root.Length() == v.bprd
    ensures forall pos: nat :: pos < root.Length() ==> root.InChain(pos) && root.Offs(pos) == v.rdOffs + pos
  {
    forall pos: nat | pos < root.Length()
      ensures root.InChain(pos) && root.Offs(pos) == v.rdOffs + pos
    {
      DivModUnique(pos, v.bprd, 0, pos);
    }
  }
}

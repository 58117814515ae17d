# fat16dir in Dafny

A verified model of `fat16dir.py`, a Python 2 script that lists the root
directory of a FAT16 disk image without mounting it. The model covers:

- the fixed-offset decoding of the boot record (`BR_DICT`) and of the 32-byte
  directory slot (`DENTRY_DICT`) by `parse`;
- the block chain `BChain`, which presents an ordered list of fixed-size
  physical blocks as one logical byte range (`__len__`, `offs`, `_read`,
  `read`);
- the boot-record checks and the offsets derived from them (both FATs, the
  root directory, cluster 2 and cluster 0), and the root-directory chain;
- `read_dir`, the directory-slot scanner with its long-file-name (LFN)
  accumulator, and the type filter of `ls_dir`.

Modules, one per file:

| file | module | contents |
|---|---|---|
| bytes.dfy | `Bytes` | bytes, `Option`/`Result`, unsigned little-endian numbers |
| layout.dfy | `Layout` | struct-style field decoding, `BR_DICT` and `DENTRY_DICT` |
| bchain.dfy | `BlockChain` | the device image and the `BChain` class |
| geometry.dfy | `Geometry` | boot-record checks, derived offsets, mounting the root chain |
| directory.dfy | `Directory` | slot classification, attributes, names, one scan step, `read_dir`, the listing filter |
| scan.dfy | `Scan` | which slots `read_dir` returns and in what order, and what every returned entry satisfies |
| longnames.dfy | `LongNames` | a well-formed run of LFN slots yields one entry with the decoded long name |

The loops that read the device or build a value step by step are methods
with loop invariants, each proved equal to a function that specifies it:
`_read` (`ReadPart`, with its inner loop `ReadRun`), `read` (`Read`), the
attribute loop (`RenderAttrs`), the name-decoding loop (`DecodeLongName`) and
`read_dir` itself (`ReadDir`, whose loop body is `FeedSlot`). The loop of
`parse` only projects fields, so it is the functions `ParseBootRecord` and
`ParseSlot`; the loop of `ls_dir` only filters, so it is the function
`Listing`. The name decoding runs in `DecodeParts`, on the fragments a long
name keeps (see "Left out"). The properties are proved about the
specification functions.

The script's `assert`s and exceptions become error values: `FormatError` for
the boot record, `IoError` for chain reads, and `DirError` for the scanner.

The script departs from the Microsoft FAT specification (fatgen103, section
6 "Directory Structure" and section 7 "Long File Name Implementation"); the
model follows the script:

- A slot is an LFN slot only when its attribute byte is exactly 0x0F.
- The LFN checksum is never compared, because `cur_lfn_cksum` is never
  assigned (`Scan.NoChecksumMismatch`).
- A first name byte of 0x05 is not treated as an escaped 0xE5.

## Model

| member | source | states |
|---|---|---|
| Bytes.LittleEndian | fat16dir.py:42 | the number read from k bytes is below 256^k |
| Bytes.LittleEndianOfEncoding | fat16dir.py:42 | reading back the k-byte little-endian encoding of a number below 256^k gives the number |
| Bytes.EncodingOfLittleEndian | fat16dir.py:42 | encoding the number a byte string denotes, at its length, gives the string back |
| Bytes.LittleEndian16 | fat16dir.py:42 | a '<H' field is b0 + 256*b1 |
| Bytes.LittleEndian32 | fat16dir.py:42 | a '<I' field is b0 + 2^8*b1 + 2^16*b2 + 2^24*b3 |
| Layout.Slice | fat16dir.py:42 | a Python slice clips both ends to the buffer, so its length is min(hi, len) - min(lo, len) |
| Layout.Unpack | fat16dir.py:42 | struct.unpack succeeds exactly when the string has the format's width; 's' formats give bytes, others numbers |
| Layout.DecodeField | fat16dir.py:39-43 | a layout entry decodes exactly when it lies inside the buffer, to its bytes or their little-endian value |
| Layout.ParseBootRecord | fat16dir.py:9-19 | the boot record parses exactly when the buffer reaches 0x200; each field is read at its offset (bps at 0x0B, magic at 0x1FE, ...) |
| Layout.ParseSlot | fat16dir.py:21-33 | each slot field is read at its offset: name 0..8, ext 8..11, flags 0x0B, cluster 0x1A, size 0x1C, LFN parts 1..11, 14..26, 28..32 |
| BlockChain.Device.ReadAt | fat16dir.py:70 | one device read returns at most the bytes asked for, returns nothing only at end of file or for an empty request, and returns the device bytes at the offset |
| BlockChain.BChain.constructor | fat16dir.py:47-51 | the chain keeps its device, block list, block size and area offset |
| BlockChain.BChain.Length | fat16dir.py:52-53 | `len(chain)` is len(blist) * bsize |
| BlockChain.BChain.Offs | fat16dir.py:54-57 | `offs(pos)` is boffs + blist[pos div bsize] * bsize + pos mod bsize, defined where the block index exists |
| BlockChain.BChain.InChainIff | fat16dir.py:52-57 | `offs(pos)` is defined exactly for pos < len(blist)*bsize |
| BlockChain.BChain.OffsInBlock | fat16dir.py:54-57 | offs(pos) lies inside physical block blist[pos div bsize] |
| BlockChain.BChain.OffsWithinBlock | fat16dir.py:54-57 | positions in the same block map to consecutive device offsets |
| BlockChain.BChain.ReadPartSpec | fat16dir.py:58-74 | a successful `_read` returns exactly min(size, bsize - pos mod bsize) bytes |
| BlockChain.BChain.ReadRun | fat16dir.py:68-73 | the inner read loop collects exactly the device bytes of [o, o+want) that exist, however short each read is |
| BlockChain.BChain.ReadPart | fat16dir.py:58-74 | the `_read` method returns or raises what ReadPartSpec says: out of chain, the bytes, or EOF naming the block number and the byte within it |
| BlockChain.BChain.ReadPartOk | fat16dir.py:63-73 | `_read` succeeds exactly when pos is in the chain and the last requested byte of the block is on the device |
| BlockChain.BChain.ReadPartBytes | fat16dir.py:63-73 | byte j returned by `_read(pos, size)` is the device byte at offs(pos + j) |
| BlockChain.BChain.ReadSpec | fat16dir.py:75-81 | a successful `read` returns exactly size bytes |
| BlockChain.BChain.ReadAdvance | fat16dir.py:77-80 | each `_read` call in the loop makes progress and keeps the assembled buffer a prefix of the result |
| BlockChain.BChain.Read | fat16dir.py:75-81 | the `read` method returns or raises what ReadSpec says |
| BlockChain.BChain.ReadOk | fat16dir.py:75-81 | `read(pos, size)` succeeds exactly when every logical byte of [pos, pos+size) is in the chain and on the device |
| BlockChain.BChain.ReadBytes | fat16dir.py:75-81 | byte k of `read(pos, size)` is the device byte at offs(pos + k) |
| BlockChain.BChain.ReadCorrect | fat16dir.py:75-81 | for pos+size <= len with the blocks on the device, `read` returns size bytes, byte k being device[offs(pos+k)] |
| BlockChain.BChain.SpanningReadExample | fat16dir.py:75-81 | blocks [3,7,9], bsize 512: reading 600 bytes at 400 is the tail of block 3 then 488 bytes of block 7, one `_read` each |
| Geometry.Derive | fat16dir.py:160-168 | the geometry is derived exactly when magic is 0xAA55 and bps is 256, 512 or 2048, and otherwise says which check failed |
| Geometry.VolumeLayout | fat16dir.py:162-168 | FAT 2 follows FAT 1, the root directory follows all FATs, its sectors are rdents*32 rounded up to whole sectors, cluster 2 starts at rd_offs + sprd*bps, and c0offs = c2offs - 2*spc*bps |
| Geometry.Boot | fat16dir.py:157-161 | read 512 bytes at offset 0, parse them as the boot record (a short read fails), then check and derive |
| Geometry.BootAccepts | fat16dir.py:158-161 | a boot sector is accepted exactly when 512 bytes were read, bytes 0x1FE-0x1FF are 55 AA and bytes 0x0B-0x0C give 256, 512 or 2048 |
| Geometry.Mount | fat16dir.py:157-170 | on success the root chain is [0] with block size bprd at rd_offs |
| Geometry.RootChainContiguous | fat16dir.py:170 | the root chain is bprd bytes long and maps pos to rd_offs + pos |
| Directory.AttrString | fat16dir.py:95-98 | the attribute string: one character per entry of ATTR_MASK_LIST |
| Directory.HasBitIsAnd | fat16dir.py:97 | the bit test agrees with the bitwise and for every single-bit mask the scanner uses |
| Directory.AttrsFromSpec | fat16dir.py:96-98 | one character per mask: its letter when the bit is set, '-' otherwise |
| Directory.AttrStringShape | fat16dir.py:95-98 | `attrs` is 6 characters in the order v, d, r, h, s, a, with '-' for an absent bit |
| Directory.RenderAttrs | fat16dir.py:95-98 | the attribute loop builds that string |
| Directory.RStrip | fat16dir.py:116 | `str.rstrip()` on bytes: drop trailing white space |
| Directory.RStripSpec | fat16dir.py:116 | rstrip keeps the longest prefix not ending in white space and drops only white space |
| Directory.ShortName | fat16dir.py:133-135 | the 8.3 name: trimmed name, then '.' and the trimmed extension when that is not empty |
| Directory.ShortNameParts | fat16dir.py:133-135 | the 8.3 name is the name's prefix without trailing white space, followed, only when the trimmed extension is not empty, by a dot and that extension |
| Directory.VolumeName | fat16dir.py:116 | a volume label: trimmed name then trimmed extension |
| Directory.VolumeNameParts | fat16dir.py:116 | a volume label is the trimmed name followed directly by the trimmed extension, with no dot |
| Directory.LfnIndex | fat16dir.py:104 | the sequence number with bit 0x40 cleared |
| Directory.LfnIndexBits | fat16dir.py:104 | the LFN index is `lfnf & ~0x40`: bit 0x40 cleared, every other bit kept |
| Directory.JoinFrom | fat16dir.py:123-124 | the fragments with indices i..20 joined in ascending index order |
| Directory.JoinParts | fat16dir.py:123-124 | `namu`: the fragments joined by ascending index over 1..20, which is every key in sorted order because each stored index passed the 1..20 check of line 106 (kept by AccValid) |
| Directory.LfnUnits | fat16dir.py:127-130 | the joined fragments read as 16-bit little-endian units up to the first zero unit |
| Directory.LfnUnitsSpec | fat16dir.py:127-130 | each decoded unit is the non-zero little-endian value of its byte pair, and decoding stops at a zero unit or at the end |
| Directory.LfnUnitsAt | fat16dir.py:127-130 | the unit at pair i ends the name when zero and is appended otherwise |
| Directory.DecodeLongName | fat16dir.py:126-130 | the decoding loop yields the units up to the first zero unit |
| Directory.LongName | fat16dir.py:123-130 | the long `name`: the joined fragments decoded as 16-bit units up to the first zero unit |
| Directory.DecodeParts | fat16dir.py:123-130 | a long name is its fragments joined by ascending index, then decoded |
| Directory.Classify | fat16dir.py:99-119 | the slot type: 'lfn'/'deln' for attribute byte 0x0F (deleted when the name starts with 0xE5), 'vol' for 0x08, 'deld'/'delf' for a deleted entry, 'dir' when bit 0x10 is set, else 'file' |
| Directory.Step | fat16dir.py:99-139 | one slot keeps the pending long name well formed: indices in 1..20, first offset kept exactly while fragments are pending |
| Directory.StepSpec | fat16dir.py:113-140 | only LFN and deleted-LFN slots emit nothing; an emitted entry resets the pending name and carries the slot, kind, offset and attributes; it is unnamed exactly when deleted; its `offs` differs from `ofs` only for a long name |
| Directory.LfnSlotStep | fat16dir.py:99-112 | an LFN slot with cluster != 0 is rejected; a deleted one changes nothing; a live one takes its index as maximum when bit 0x40 is set, is rejected when its index is 0, above 20 or above the maximum, and otherwise stores its 26 bytes under its index (replacing an earlier fragment), keeps the first fragment's offset and emits nothing |
| Directory.TerminalSlotStep | fat16dir.py:113-139 | any other slot resets the pending name; a volume label is named rstrip(nam)+rstrip(ext); a deleted entry is unnamed; a live entry with fragments pending is rejected unless their number of indices equals the maximum; without fragments it gets the 8.3 name; it is a directory exactly when bit 0x10 is set |
| Directory.FeedSlot | fat16dir.py:99-139 | the loop body does what Step says: the LFN asserts, the fragment store, the terminal entry and its name |
| Directory.ScanFrom | fat16dir.py:88-140 | the slot loop from slot i: a failed read raises, an all-zero slot ends the listing, each other slot is one step and its entry, if any, is put in front |
| Directory.ReadDirSpec | fat16dir.py:83-141 | `read_dir`: the slot loop over len(chain) div 32 slots from no pending name |
| Directory.ReadDir | fat16dir.py:83-141 | the `read_dir` method returns or raises what the scan specification says |
| Directory.Listable | fat16dir.py:144-146 | `ls_dir` skips 'delf', 'deld', 'lfn' and 'deln' and prints every other type |
| Directory.Listing | fat16dir.py:143-146 | `ls_dir` shows exactly the entries that are volume labels, directories or files, no more of them than `read_dir` returned |
| Directory.ListingCount | fat16dir.py:143-146 | each listable entry is shown as many times as `read_dir` returned it, the others never |
| Directory.ListingConcat | fat16dir.py:143-146 | the listing of two lists in a row is their listings in a row, so entries are shown in the order returned |
| Scan.ScanLength | fat16dir.py:84-90 | the scan returns at most one entry per remaining slot |
| Scan.ScanTerminal | fat16dir.py:99-140 | every returned entry is a terminal slot with its kind, attribute string and name |
| Scan.ScanCons | fat16dir.py:88-140 | a live slot emits exactly one entry when it is not an LFN slot and none when it is; the entry is that slot with its offset, and the scan continues from the next slot |
| Scan.ScanSlots | fat16dir.py:88-141 | the scan's entries come from strictly increasing slot indices, each with its slot and offset, none at or after the first all-zero slot, and every non-LFN slot before that slot is among them |
| Scan.CoversCons | fat16dir.py:113-140 | a live non-LFN slot is appended, so the slots covered from i are slot i and those covered from i+1 |
| Scan.ScanComplete | fat16dir.py:88-140 | every slot that is not an LFN slot and has no all-zero slot before it is returned, as itself with its offset |
| Scan.ScanOrigin | fat16dir.py:88-93 | every returned entry is a slot read at or after the start, with that slot's offset, and no slot from the start up to it is all zero |
| Scan.ReadDirEntries | fat16dir.py:83-141 | `read_dir` returns at most len(chain) div 32 terminal entries, each the bytes of some slot j read at 32*j, reported at offs(32*j), with no all-zero slot before it |
| Scan.ReadDirComplete | fat16dir.py:83-141 | `read_dir` returns every non-LFN slot before the first all-zero slot, with the bytes read at 32*j and offset offs(32*j) |
| Scan.ReadDirOrder | fat16dir.py:83-141 | `read_dir` returns its entries in slot order: entry k is slot slots[k] read at 32*slots[k] and reported at offs(32*slots[k]), slot numbers increase, every slot up to it was read and is not all zero, and the slot numbers include every non-LFN slot before the first all-zero slot |
| Scan.ReadDirFirstSlotZero | fat16dir.py:89-90 | a chain whose first slot reads as 32 zero bytes lists nothing |
| Scan.NoChecksumMismatch | fat16dir.py:87-109 | with no checksum pending, the scan never stops on a checksum mismatch |
| Scan.ReadDirNoChecksumMismatch | fat16dir.py:108-109 | the checksum assert of `read_dir` never fails |
| LongNames.PartsAfter | fat16dir.py:110-111 | after m slots of a run the pending indices are the m highest |
| LongNames.PartsAfterValues | fat16dir.py:110-111 | index j holds the 26 name bytes of the slot carrying it |
| LongNames.PartsAfterCard | fat16dir.py:121-122 | m slots of a run leave m distinct indices pending |
| LongNames.AccAfter | fat16dir.py:99-112 | the pending state inside a run is well formed |
| LongNames.JoinRun | fat16dir.py:123-124 | joining a run's fragments by ascending index gives its name bytes in name order |
| LongNames.FirstFragment | fat16dir.py:99-112 | the first slot of a run (flag 0x40, index k) opens the pending name with maximum k and its own offset |
| LongNames.NextFragment | fat16dir.py:104-112 | each further fragment adds its bytes under its index and changes nothing else |
| LongNames.StepTakesLongName | fat16dir.py:120-131 | a live entry with as many pending indices as the maximum takes the long name and the first fragment's offset, and resets the pending name |
| LongNames.LastSlot | fat16dir.py:120-131 | the live slot ending a run takes the run's long name |
| LongNames.RunName | fat16dir.py:123-130 | a run's long name decodes from its fragments in name order |
| LongNames.RunSteps | fat16dir.py:99-139 | every slot of a run takes the scan from one pending state to the next |
| LongNames.ScanRun | fat16dir.py:99-140 | a region holding k LFN slots then a live entry yields exactly that entry with the long name, reported at the first LFN slot, and the scan resumes with nothing pending |

## Left out

- Command-line handling, opening the device, `sys.exit`, printing the boot
  record and the `ls_dir` output format: they are process and presentation
  plumbing. `ls_dir` is modelled as the filter `Listing`.
- `os.path.normpath` and `os.path.normcase` on the path arguments: library
  calls whose result is only printed.
- FAT cluster-chain walking, path resolution and subdirectory caching: the
  script does not implement them.
- Real `seek`/`read` on a file handle. The device is one immutable byte image
  whose reads may return fewer bytes than asked (`Device.chunk`). `_read` uses
  the module-global file rather than `self.f`; both are the same device here,
  so the model reads `f` of the chain.
- `unichr` and Python unicode strings: a long name is a sequence of 16-bit
  code units, with no surrogate pairing or UTF-16 validation.
- The assert `not (len(namu) % 1)`, which always holds.
- The fields `spt`, `heads`, `nt`, `lfncksum` and `size` are parsed but used
  for nothing else.
- Directory.DirEntry: a long name is kept as its fragments by index
  (`Long(parts)`); the decoded text is `LongName(parts)`, computed by the
  decoding loop `DecodeLongName`, not stored in the entry.
- Directory.HasBit: tests a single-bit mask, which is every mask the script
  uses (`HasBitIsAnd`), not an arbitrary `&`.
- BlockChain.BChain.ReadRun: returns what it read when a device read returns
  nothing, and `ReadPart` then raises the EOF error; the script raises inside
  the loop. The result and the error are the same.
- BlockChain.BChain.Read: the check `b == ''` in `read` is not modelled,
  because `_read` never returns nothing for a non-empty request (`ReadSpec`
  and `ReadAdvance`).
- Python's errors for a position outside the chain (division by zero when
  bsize is 0, an index past `blist`) are one error, `OutOfChain`.
- `read_dir` accepts a pending long name whose indices are not 1..max, when
  a later 0x40 slot lowers the maximum to the number of stored indices. The
  model reproduces this; `LongNames.ScanRun` covers only well-ordered runs.

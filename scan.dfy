/**
 * What the directory scan as a whole guarantees: it returns, in slot order,
 * exactly the slots before the first all-zero slot that are not long-name
 * slots, each as a terminal entry with its offset, and the long-name
 * checksum is never compared.
 */
module Scan {
  import opened Bytes
  import opened Layout
  import opened BlockChain
  import opened Directory

  /** An entry as the scan emits it: a terminal slot with its kind, attribute string and name. */
  predicate Terminal(e: DirEntry)
  {
    && e.kind !in {Lfn, DelLfn}
    && e.kind == Classify(e.slot)
    && e.attrs == AttrString(e.slot.flags)
    && (e.name.None? <==> e.kind in {DelFile, DelDir})
  }

  /** From slot i on, the scan returns at most one entry per remaining slot. */
  lemma {:induction false} ScanLength(rs: seq<Result<Slot, IoError>>, os: seq<nat>, i: nat, acc: LfnAcc)
    requires |rs| == |os| && AccValid(acc) && i <= |rs|
    ensures ScanFrom(rs, os, i, acc).Ok? ==> |ScanFrom(rs, os, i, acc).value| + i <= |rs|
    decreases |rs| - i
  {
    var r := ScanFrom(rs, os, i, acc);
    if i == |rs| || r.Err? || rs[i].value.raw == Zeros(SLOT_SIZE) {
      return;
    }
    var out := Step(acc, rs[i].value, os[i]).value;
    ScanLength(rs, os, i + 1, out.acc);
  }

  /** From slot i on, every entry the scan returns is a terminal entry. */
  lemma {:induction false} ScanTerminal(rs: seq<Result<Slot, IoError>>, os: seq<nat>, i: nat, acc: LfnAcc)
    requires |rs| == |os| && AccValid(acc)
    ensures ScanFrom(rs, os, i, acc).Ok? ==> forall e :: e in ScanFrom(rs, os, i, acc).value ==> Terminal(e)
    decreases |rs| - i
  {
    var r := ScanFrom(rs, os, i, acc);
    if i >= |rs| || r.Err? || rs[i].value.raw == Zeros(SLOT_SIZE) {
      return;
    }
    StepSpec(acc, rs[i].value, os[i]);
    var out := Step(acc, rs[i].value, os[i]).value;
    ScanTerminal(rs, os, i + 1, out.acc);
  }

  /**
   * Slots i..j were all read and none of them is all zero: the scan, started
   * at slot i, has not stopped before reaching slot j.
   */
  predicate ReadUpTo(rs: seq<Result<Slot, IoError>>, i: nat, j: nat)
  {
    forall t :: i <= t <= j ==> t < |rs| && rs[t].Ok? && rs[t].value.raw != Zeros(SLOT_SIZE)
  }

  /**
   * One slot of a successful scan: a non-zero slot emits one entry exactly
   * when it is not a long-name slot, that entry is the slot with its offset,
   * and the scan goes on from the next slot in a well-formed state.
   */
  lemma ScanCons(rs: seq<Result<Slot, IoError>>, os: seq<nat>, i: nat, acc: LfnAcc)
    returns (e: Option<DirEntry>, next: LfnAcc)
    requires |rs| == |os| && AccValid(acc) && i < |rs| && rs[i].Ok? && rs[i].value.raw != Zeros(SLOT_SIZE)
    requires ScanFrom(rs, os, i, acc).Ok?
    ensures AccValid(next) && ScanFrom(rs, os, i + 1, next).Ok?
    ensures ScanFrom(rs, os, i, acc).value
         == (if e.Some? then [e.value] else []) + ScanFrom(rs, os, i + 1, next).value
    ensures e.Some? <==> Classify(rs[i].value) !in {Lfn, DelLfn}
    ensures e.Some? ==> e.value.slot == rs[i].value && e.value.ofs == os[i]
  {
    StepSpec(acc, rs[i].value, os[i]);
    var out := Step(acc, rs[i].value, os[i]).value;
    e, next := out.entry, out.acc;
  }

  /** Every slot from i on that is not a long-name slot, with no all-zero slot before it, is among idx. */
  predicate Covers(rs: seq<Result<Slot, IoError>>, i: nat, idx: seq<nat>)
  {
    forall t :: i <= t < |rs| && ReadUpTo(rs, i, t) && Classify(rs[t].value) !in {Lfn, DelLfn} ==> t in idx
  }

  /** Slot i, put in front when it is not a long-name slot, extends the slots covered from i + 1 to those from i. */
  lemma CoversCons(rs: seq<Result<Slot, IoError>>, i: nat, rest: seq<nat>)
    requires i < |rs| && rs[i].Ok? && rs[i].value.raw != Zeros(SLOT_SIZE) && Covers(rs, i + 1, rest)
    ensures Covers(rs, i, if Classify(rs[i].value) !in {Lfn, DelLfn} then [i] + rest else rest)
  {
    var idx := if Classify(rs[i].value) !in {Lfn, DelLfn} then [i] + rest else rest;
    forall t | i <= t < |rs| && ReadUpTo(rs, i, t) && Classify(rs[t].value) !in {Lfn, DelLfn}
      ensures t in idx
    {
      if t > i {
        assert ReadUpTo(rs, i + 1, t);
        assert t in rest;
      }
    }
  }

  /**
   * The entries es come, in order, from the slots idx: entry k is slot idx[k]
   * with that slot's offset, the slot indices strictly increase, no slot
   * from i up to idx[k] is all zero.
   */
  predicate SlotsOf(rs: seq<Result<Slot, IoError>>, os: seq<nat>, i: nat, es: seq<DirEntry>, idx: seq<nat>)
  {
    && |rs| == |os| && |idx| == |es|
    && (forall k :: 0 <= k < |idx| ==>
          i <= idx[k] < |rs| && rs[idx[k]] == Ok(es[k].slot) && os[idx[k]] == es[k].ofs && ReadUpTo(rs, i, idx[k]))
    && (forall a, b :: 0 <= a < b < |idx| ==> idx[a] < idx[b])
  }

  /** Putting the entry of a live slot i, if any, in front of the entries of the slots after it. */
  lemma SlotsOfCons(rs: seq<Result<Slot, IoError>>, os: seq<nat>, i: nat, e: Option<DirEntry>,
                    es: seq<DirEntry>, rest: seq<nat>) returns (idx: seq<nat>)
    requires |rs| == |os| && i < |rs| && rs[i].Ok? && rs[i].value.raw != Zeros(SLOT_SIZE)
    requires e.Some? ==> e.value.slot == rs[i].value && e.value.ofs == os[i]
    requires SlotsOf(rs, os, i + 1, es, rest)
    ensures SlotsOf(rs, os, i, (if e.Some? then [e.value] else []) + es, idx)
    ensures idx == if e.Some? then [i] + rest else rest
  {
    forall k | 0 <= k < |rest|
      ensures ReadUpTo(rs, i, rest[k])
    {
      assert ReadUpTo(rs, i + 1, rest[k]);
    }
    if e.Some? {
      idx := [i] + rest;
      var es2 := [e.value] + es;
      forall k | 1 <= k < |idx|
        ensures idx[k] == rest[k - 1] && es2[k] == es[k - 1]
      {
      }
      forall a, b | 0 <= a < b < |idx|
        ensures idx[a] < idx[b]
      {
        if a > 0 {
          assert idx[a] == rest[a - 1];
        }
        assert idx[b] == rest[b - 1];
      }
    } else {
      idx := rest;
      assert [] + es == es;
    }
  }

  /**
   * From slot i on, the scan returns its entries in slot order, each from a
   * slot before the first all-zero slot (SlotsOf), and it returns one for
   * every such slot that is not a long-name slot (Covers).
   */
  lemma {:induction false} ScanSlots(rs: seq<Result<Slot, IoError>>, os: seq<nat>, i: nat, acc: LfnAcc)
    returns (idx: seq<nat>)
    requires |rs| == |os| && AccValid(acc)
    ensures ScanFrom(rs, os, i, acc).Ok? ==> SlotsOf(rs, os, i, ScanFrom(rs, os, i, acc).value, idx) && Covers(rs, i, idx)
    decreases |rs| - i
  {
    if i >= |rs| || ScanFrom(rs, os, i, acc).Err? || rs[i].value.raw == Zeros(SLOT_SIZE) {
      return [];
    }
    var e, next := ScanCons(rs, os, i, acc);
    var rest := ScanSlots(rs, os, i + 1, next);
    idx := SlotsOfCons(rs, os, i, e, ScanFrom(rs, os, i + 1, next).value, rest);
    CoversCons(rs, i, rest);
  }

  /** From slot i on, each entry is a slot read at or after i, before any all-zero slot, with that slot's offset. */
  lemma ScanOrigin(rs: seq<Result<Slot, IoError>>, os: seq<nat>, i: nat, acc: LfnAcc)
    requires |rs| == |os| && AccValid(acc)
    ensures ScanFrom(rs, os, i, acc).Ok? ==>
      forall e :: e in ScanFrom(rs, os, i, acc).value ==>
        exists j :: i <= j < |rs| && rs[j] == Ok(e.slot) && os[j] == e.ofs && ReadUpTo(rs, i, j)
  {
    var idx := ScanSlots(rs, os, i, acc);
    if ScanFrom(rs, os, i, acc).Ok? {
      var es := ScanFrom(rs, os, i, acc).value;
      forall e | e in es
        ensures exists j :: i <= j < |rs| && rs[j] == Ok(e.slot) && os[j] == e.ofs && ReadUpTo(rs, i, j)
      {
        var k :| 0 <= k < |es| && es[k] == e;
        assert rs[idx[k]] == Ok(e.slot);
      }
    }
  }

  /**
   * `read_dir` returns its entries in slot order: entry k is slot slots[k] as
   * read from the chain at 32*slots[k] and reported at offs(32*slots[k]), the
   * slot numbers strictly increase, every slot up to slots[k] was read and
   * is not all zero, and every slot before the first all-zero slot that is
   * not a long-name slot is among them.
   */
  lemma ReadDirOrder(c: BChain) returns (slots: seq<nat>)
    ensures ReadDirSpec(c).Ok? ==>
      var es := ReadDirSpec(c).value;
      && |slots| == |es|
      && (forall k :: 0 <= k < |slots| ==>
            slots[k] < SlotCount(c) && c.ReadSpec(slots[k] * SLOT_SIZE, SLOT_SIZE) == Ok(es[k].slot.raw)
            && es[k].ofs == SlotOfs(c, slots[k]) && ReadUpTo(SlotReads(c), 0, slots[k]))
      && (forall a, b :: 0 <= a < b < |slots| ==> slots[a] < slots[b])
      && (forall j :: 0 <= j < SlotCount(c) && ReadUpTo(SlotReads(c), 0, j) && Classify(SlotReads(c)[j].value) !in {Lfn, DelLfn}
            ==> j in slots)
  {
    var rs, os := SlotReads(c), SlotOffsets(c);
    slots := ScanSlots(rs, os, 0, NO_LFN);
    if ReadDirSpec(c).Ok? {
      var es := ReadDirSpec(c).value;
      forall k | 0 <= k < |slots|
        ensures c.ReadSpec(slots[k] * SLOT_SIZE, SLOT_SIZE) == Ok(es[k].slot.raw)
      {
        assert rs[slots[k]] == Ok(es[k].slot);
      }
    }
  }

  /** The listing: terminal entries, at most one per slot, each read from a slot of the chain before the first all-zero slot. */
  lemma ReadDirEntries(c: BChain)
    ensures ReadDirSpec(c).Ok? ==>
      var es := ReadDirSpec(c).value;
      && |es| <= SlotCount(c)
      && (forall e :: e in es ==> Terminal(e))
      && (forall e :: e in es ==>
            exists j :: 0 <= j < SlotCount(c) && c.ReadSpec(j * SLOT_SIZE, SLOT_SIZE) == Ok(e.slot.raw) && e.ofs == SlotOfs(c, j)
                        && ReadUpTo(SlotReads(c), 0, j))
  {
    ScanLength(SlotReads(c), SlotOffsets(c), 0, NO_LFN);
    ScanTerminal(SlotReads(c), SlotOffsets(c), 0, NO_LFN);
    var rs, os := SlotReads(c), SlotOffsets(c);
    ScanOrigin(rs, os, 0, NO_LFN);
    if ReadDirSpec(c).Ok? {
      var es := ReadDirSpec(c).value;
      forall e | e in es
        ensures exists j :: 0 <= j < SlotCount(c) && c.ReadSpec(j * SLOT_SIZE, SLOT_SIZE) == Ok(e.slot.raw) && e.ofs == SlotOfs(c, j)
                            && ReadUpTo(SlotReads(c), 0, j)
      {
        var j :| 0 <= j < |rs| && rs[j] == Ok(e.slot) && os[j] == e.ofs && ReadUpTo(rs, 0, j);
        assert c.ReadSpec(j * SLOT_SIZE, SLOT_SIZE) == Ok(e.slot.raw);
      }
    }
  }

  /**
   * From slot i on, every slot that is not a long-name slot and has no
   * all-zero slot before it is returned, as itself with its offset.
   */
  lemma ScanComplete(rs: seq<Result<Slot, IoError>>, os: seq<nat>, i: nat, acc: LfnAcc, j: nat)
    requires |rs| == |os| && AccValid(acc) && i <= j
    requires ScanFrom(rs, os, i, acc).Ok? && ReadUpTo(rs, i, j)
    requires j < |rs| && rs[j].Ok? && Classify(rs[j].value) !in {Lfn, DelLfn}
    ensures exists e :: e in ScanFrom(rs, os, i, acc).value && e.slot == rs[j].value && e.ofs == os[j]
  {
    var idx := ScanSlots(rs, os, i, acc);
    var es := ScanFrom(rs, os, i, acc).value;
    assert j in idx;
    var k :| 0 <= k < |idx| && idx[k] == j;
    assert es[k] in es && rs[j] == Ok(es[k].slot);
  }

  /**
   * `read_dir` returns every slot before the first all-zero slot that is not
   * a long-name slot, as read from the chain and reported at offs(32*j).
   */
  lemma ReadDirComplete(c: BChain, j: nat)
    requires j < SlotCount(c) && ReadDirSpec(c).Ok? && ReadUpTo(SlotReads(c), 0, j)
    requires Classify(SlotReads(c)[j].value) !in {Lfn, DelLfn}
    ensures exists e :: e in ReadDirSpec(c).value && e.slot == SlotReads(c)[j].value
                        && c.ReadSpec(j * SLOT_SIZE, SLOT_SIZE) == Ok(e.slot.raw) && e.ofs == SlotOfs(c, j)
  {
    var rs, os := SlotReads(c), SlotOffsets(c);
    ScanComplete(rs, os, 0, NO_LFN, j);
    var e :| e in ScanFrom(rs, os, 0, NO_LFN).value && e.slot == rs[j].value && e.ofs == os[j];
    assert rs[j] == Ok(e.slot);
  }

  /** A chain whose first slot reads as 32 zero bytes lists nothing. */
  lemma ReadDirFirstSlotZero(c: BChain)
    requires SlotCount(c) > 0 && c.ReadSpec(0, SLOT_SIZE) == Ok(Zeros(SLOT_SIZE))
    ensures ReadDirSpec(c) == Ok([])
  {
    assert SlotReads(c)[0] == Ok(ParseSlot(Zeros(SLOT_SIZE)));
  }

  /**
   * The pending checksum starts unset and no slot ever sets it, so the
   * checksum comparison never fails: from a state with no checksum, the scan
   * never stops on a checksum mismatch.
   */
  lemma {:induction false} NoChecksumMismatch(rs: seq<Result<Slot, IoError>>, os: seq<nat>, i: nat, acc: LfnAcc)
    requires |rs| == |os| && AccValid(acc) && acc.cksum.None?
    ensures !(ScanFrom(rs, os, i, acc).Err? && ScanFrom(rs, os, i, acc).error.ChecksumMismatch?)
    decreases |rs| - i
  {
    if i < |rs| && rs[i].Ok? && rs[i].value.raw != Zeros(SLOT_SIZE) {
      var st := Step(acc, rs[i].value, os[i]);
      if st.Ok? {
        NoChecksumMismatch(rs, os, i + 1, st.value.acc);
      }
    }
  }

  lemma ReadDirNoChecksumMismatch(c: BChain)
    ensures !(ReadDirSpec(c).Err? && ReadDirSpec(c).error.ChecksumMismatch?)
  {
    NoChecksumMismatch(SlotReads(c), SlotOffsets(c), 0, NO_LFN);
  }
}

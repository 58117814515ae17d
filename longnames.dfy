/**
 * Long-file-name reconstruction: a run of long-name slots, highest index
 * first, followed by a live short entry, yields one entry whose name is the
 * fragments joined in index order and decoded as 16-bit units, and whose
 * reported offset is that of the first long-name slot.
 */
module LongNames {
  import opened Bytes
  import opened Layout
  import opened BlockChain
  import opened Directory

  /** The 26 name bytes one long-name slot carries. */
  function Fragment(s: Slot): seq<byte>
  {
    s.lfn1 + s.lfn2 + s.lfn3
  }

  /**
   * The name bytes of long-name slots stored in the on-disk order, highest
   * index first: the fragment of the slot nearest the short entry comes first.
   */
  function NameBytes(frags: seq<Slot>): seq<byte>
    decreases |frags|
  {
    if frags == [] then [] else Fragment(frags[|frags| - 1]) + NameBytes(frags[..|frags| - 1])
  }

  /**
   * k long-name slots with indices k, k-1, ..., 1, the first of them flagged
   * as the last one (0x40), then a live file or directory entry.
   */
  predicate LongNameRun(ss: seq<Slot>)
  {
    var k := |ss| - 1;
    && 1 <= k <= MAX_LFN_INDEX
    && (forall m :: 0 <= m < k ==> FragmentSlot(ss[m], k - m, m == 0))
    && Classify(ss[k]) in {Dir, File}
  }

  /** A live long-name slot with cluster 0, the given index, and the last-slot flag set exactly when `last`. */
  predicate FragmentSlot(s: Slot, index: nat, last: bool)
  {
    && s.flags == LFN_ATTRS && s.cluster == 0 && !DeletedName(s.nam)
    && LfnIndex(s.lfnf) == index
    && HasBit(s.lfnf, LFN_LAST) == last
  }

  /** The fragments of the first m slots of a run, by index: slot n carries index k - n. */
  function PartsAfter(ss: seq<Slot>, m: nat): (p: map<nat, seq<byte>>)
    requires 1 <= |ss| && m < |ss|
    ensures forall j :: j in p <==> |ss| - 1 - m < j <= |ss| - 1
  {
    if m == 0 then map[]
    else PartsAfter(ss, m - 1)[|ss| - m := Fragment(ss[m - 1])]
  }

  /** Index j holds the fragment of slot k - j. */
  lemma {:induction false} PartsAfterValues(ss: seq<Slot>, m: nat)
    requires 1 <= |ss| && m < |ss|
    ensures forall j :: j in PartsAfter(ss, m) ==> PartsAfter(ss, m)[j] == Fragment(ss[|ss| - 1 - j])
  {
    if m > 0 {
      PartsAfterValues(ss, m - 1);
    }
  }

  /** The pending long name after the first m slots of a run. */
  function AccAfter(ss: seq<Slot>, first: nat, m: nat): (acc: LfnAcc)
    requires 1 <= m < |ss| <= MAX_LFN_INDEX + 1
    ensures AccValid(acc)
  {
    assert |ss| - 1 in PartsAfter(ss, m);
    LfnAcc(PartsAfter(ss, m), None, Some(|ss| - 1), Some(first))
  }

  /** A run's first m slots carry m distinct indices. */
  lemma {:induction false} PartsAfterCard(ss: seq<Slot>, m: nat)
    requires 1 <= |ss| && m < |ss|
    ensures |PartsAfter(ss, m)| == m
  {
    if m > 0 {
      PartsAfterCard(ss, m - 1);
      assert |ss| - m !in PartsAfter(ss, m - 1);
    }
  }

  lemma {:induction false} JoinFromAbove(parts: map<nat, seq<byte>>, i: nat)
    requires forall j :: j in parts ==> j < i
    ensures JoinFrom(parts, i) == []
    decreases MAX_LFN_INDEX + 1 - i
  {
    if i <= MAX_LFN_INDEX {
      JoinFromAbove(parts, i + 1);
    }
  }

  /** Joining the fragments of a whole run by ascending index gives the name bytes in name order. */
  lemma {:induction false} JoinRun(ss: seq<Slot>, i: nat)
    requires 2 <= |ss| <= MAX_LFN_INDEX + 1 && 1 <= i <= |ss|
    ensures JoinFrom(PartsAfter(ss, |ss| - 1), i) == NameBytes(ss[..|ss| - i])
    decreases |ss| - i
  {
    var k := |ss| - 1;
    var parts := PartsAfter(ss, k);
    PartsAfterValues(ss, k);
    if i == |ss| {
      JoinFromAbove(parts, i);
      assert ss[..0] == [];
    } else {
      JoinRun(ss, i + 1);
      assert i in parts && parts[i] == Fragment(ss[k - i]);
      var t := ss[..|ss| - i];
      assert t[|t| - 1] == ss[k - i] && t[..|t| - 1] == ss[..|ss| - (i + 1)];
    }
  }

  /** The first slot of a run opens the pending name with index k and the highest index k. */
  lemma FirstFragment(ss: seq<Slot>, first: nat)
    requires LongNameRun(ss)
    ensures Step(NO_LFN, ss[0], first).Ok?
    ensures Step(NO_LFN, ss[0], first).value.acc == AccAfter(ss, first, 1)
    ensures Step(NO_LFN, ss[0], first).value.entry.None?
  {
  }

  /** Slot m of the run (0 < m < k) adds fragment k-m and leaves the rest unchanged. */
  lemma NextFragment(ss: seq<Slot>, first: nat, ofs: nat, m: nat)
    requires 0 < m < |ss| - 1 && |ss| <= MAX_LFN_INDEX + 1
    requires FragmentSlot(ss[m], |ss| - 1 - m, false)
    ensures Step(AccAfter(ss, first, m), ss[m], ofs).Ok?
    ensures Step(AccAfter(ss, first, m), ss[m], ofs).value.acc == AccAfter(ss, first, m + 1)
    ensures Step(AccAfter(ss, first, m), ss[m], ofs).value.entry.None?
  {
    assert Classify(ss[m]) == Lfn;
  }

  /** The entry a run ends in: the live slot, named by the run's fragments. */
  function RunEntry(ss: seq<Slot>, first: nat, ofs: nat): DirEntry
    requires 1 <= |ss|
  {
    var k := |ss| - 1;
    DirEntry(Classify(ss[k]), ss[k], ofs, first, AttrString(ss[k].flags), Some(Long(PartsAfter(ss, k))))
  }

  /**
   * A live file or directory entry, when fragments are pending and their
   * number equals the highest index, takes the long name and the offset of
   * the first fragment.
   */
  lemma StepTakesLongName(acc: LfnAcc, s: Slot, ofs: nat)
    requires AccValid(acc) && Classify(s) in {Dir, File}
    requires acc.parts != map[] && acc.maxnum == Some(|acc.parts|)
    ensures Step(acc, s, ofs).Ok?
    ensures Step(acc, s, ofs).value.acc == NO_LFN
    ensures Step(acc, s, ofs).value.entry
         == Some(DirEntry(Classify(s), s, ofs, acc.offs.value, AttrString(s.flags), Some(Long(acc.parts))))
  {
  }

  /** The live entry after all k fragments takes the long name and the first fragment's offset. */
  lemma LastSlot(ss: seq<Slot>, first: nat, ofs: nat)
    requires 2 <= |ss| <= MAX_LFN_INDEX + 1 && Classify(ss[|ss| - 1]) in {Dir, File}
    ensures Step(AccAfter(ss, first, |ss| - 1), ss[|ss| - 1], ofs).Ok?
    ensures Step(AccAfter(ss, first, |ss| - 1), ss[|ss| - 1], ofs).value.acc == NO_LFN
    ensures Step(AccAfter(ss, first, |ss| - 1), ss[|ss| - 1], ofs).value.entry == Some(RunEntry(ss, first, ofs))
  {
    var k := |ss| - 1;
    var acc := AccAfter(ss, first, k);
    assert k in acc.parts;
    PartsAfterCard(ss, k);
    StepTakesLongName(acc, ss[k], ofs);
    assert acc.offs.value == first;
  }

  /** A run's fragments, joined by ascending index, are its name bytes in name order, and decode as those bytes do. */
  lemma RunName(ss: seq<Slot>)
    requires 2 <= |ss| <= MAX_LFN_INDEX + 1
    ensures JoinParts(PartsAfter(ss, |ss| - 1)) == NameBytes(ss[..|ss| - 1])
    ensures LongName(PartsAfter(ss, |ss| - 1)) == LfnUnits(NameBytes(ss[..|ss| - 1]))
  {
    JoinRun(ss, 1);
  }

  /**
   * Step made total, so that it can be passed as a function value: on the
   * states Step accepts it is Step, elsewhere it stops the scan.
   */
  function TotalStep(acc: LfnAcc, s: Slot, ofs: nat): Result<StepOut, DirError>
  {
    if AccValid(acc) then Step(acc, s, ofs) else Err(FragmentCountMismatch(ofs))
  }

  /**
   * The scan loop of ScanFrom with the step as a parameter, so that what
   * the loop does with the steps is proved once, whatever a step does.
   */
  function ScanWith(step: (LfnAcc, Slot, nat) -> Result<StepOut, DirError>,
                    rs: seq<Result<Slot, IoError>>, os: seq<nat>, i: nat, acc: LfnAcc): Result<seq<DirEntry>, DirError>
    requires |rs| == |os|
    decreases |rs| - i
  {
    if i >= |rs| then Ok([])
    else
      match rs[i]
      case Err(e) => Err(ReadFailed(e))
      case Ok(s) =>
        if s.raw == Zeros(SLOT_SIZE) then Ok([])
        else
          match step(acc, s, os[i])
          case Err(e) => Err(e)
          case Ok(out) => Prepend(out.entry, ScanWith(step, rs, os, i + 1, out.acc))
  }

  /** ScanFrom is the loop run with Step. */
  lemma {:induction false} ScanFromWith(rs: seq<Result<Slot, IoError>>, os: seq<nat>, i: nat, acc: LfnAcc)
    requires |rs| == |os| && AccValid(acc)
    ensures ScanFrom(rs, os, i, acc) == ScanWith(TotalStep, rs, os, i, acc)
    decreases |rs| - i
  {
    if i < |rs| && rs[i].Ok? && rs[i].value.raw != Zeros(SLOT_SIZE) && Step(acc, rs[i].value, os[i]).Ok? {
      ScanFromWith(rs, os, i + 1, Step(acc, rs[i].value, os[i]).value.acc);
    }
  }

  /** The scan result r with the emitted entries es[m..] in front, one Prepend each. */
  function PrependFrom(es: seq<Option<DirEntry>>, m: nat, r: Result<seq<DirEntry>, DirError>): Result<seq<DirEntry>, DirError>
    decreases |es| - m
  {
    if m >= |es| then r else Prepend(es[m], PrependFrom(es, m + 1, r))
  }

  /**
   * When slots i.. hold ss, read and not all zero, and the step at slot n
   * takes state accs[n] to accs[n + 1] emitting es[n], the scan from slot
   * i + m emits es[m..] and goes on from slot i + |ss| in the last state.
   */
  lemma {:induction false} FoldSteps(step: (LfnAcc, Slot, nat) -> Result<StepOut, DirError>,
                                     rs: seq<Result<Slot, IoError>>, os: seq<nat>, i: nat, ss: seq<Slot>,
                                     accs: seq<LfnAcc>, es: seq<Option<DirEntry>>, m: nat)
    requires |rs| == |os| && i + |ss| <= |rs| && |accs| == |ss| + 1 && |es| == |ss| && m <= |ss|
    requires forall n :: 0 <= n < |ss| ==> rs[i + n] == Ok(ss[n]) && ss[n].raw != Zeros(SLOT_SIZE)
    requires forall n :: 0 <= n < |ss| ==> step(accs[n], ss[n], os[i + n]) == Ok(StepOut(accs[n + 1], es[n]))
    ensures ScanWith(step, rs, os, i + m, accs[m]) == PrependFrom(es, m, ScanWith(step, rs, os, i + |ss|, accs[|ss|]))
    decreases |ss| - m
  {
    if m < |ss| {
      FoldSteps(step, rs, os, i, ss, accs, es, m + 1);
      assert rs[i + m] == Ok(ss[m]);
      assert step(accs[m], ss[m], os[i + m]) == Ok(StepOut(accs[m + 1], es[m]));
    }
  }

  /** The states a run passes through: none pending, then the fragments of the first n slots, then none again. */
  function RunAccs(ss: seq<Slot>, first: nat): (accs: seq<LfnAcc>)
    requires 2 <= |ss| <= MAX_LFN_INDEX + 1
    ensures |accs| == |ss| + 1
  {
    seq(|ss| + 1, n requires 0 <= n <= |ss| => if n == 0 || n == |ss| then NO_LFN else AccAfter(ss, first, n))
  }

  /** What the slots of a run emit: nothing, then the run's entry from the live slot. */
  function RunEmits(ss: seq<Slot>, first: nat, ofs: nat): (es: seq<Option<DirEntry>>)
    requires 1 <= |ss|
    ensures |es| == |ss|
  {
    seq(|ss|, n => if n == |ss| - 1 then Some(RunEntry(ss, first, ofs)) else None)
  }

  /** Each slot of a run takes the run's state to the next one. */
  lemma RunSteps(ss: seq<Slot>, os: seq<nat>, i: nat)
    requires LongNameRun(ss) && i + |ss| <= |os|
    ensures var accs := RunAccs(ss, os[i]);
      var es := RunEmits(ss, os[i], os[i + |ss| - 1]);
      forall n :: 0 <= n < |ss| ==> TotalStep(accs[n], ss[n], os[i + n]) == Ok(StepOut(accs[n + 1], es[n]))
  {
    var accs := RunAccs(ss, os[i]);
    var es := RunEmits(ss, os[i], os[i + |ss| - 1]);
    forall n | 0 <= n < |ss|
      ensures TotalStep(accs[n], ss[n], os[i + n]) == Ok(StepOut(accs[n + 1], es[n]))
    {
      if n == 0 {
        FirstFragment(ss, os[i]);
      } else if n < |ss| - 1 {
        assert FragmentSlot(ss[n], |ss| - 1 - n, false);
        NextFragment(ss, os[i], os[i + n], n);
      } else {
        LastSlot(ss, os[i], os[i + n]);
      }
    }
  }

  /** Emitting nothing and then e in front of r is emitting e in front of r. */
  lemma {:induction false} PrependLast(es: seq<Option<DirEntry>>, m: nat, r: Result<seq<DirEntry>, DirError>)
    requires m < |es| && forall n :: m <= n < |es| - 1 ==> es[n].None?
    ensures PrependFrom(es, m, r) == Prepend(es[|es| - 1], r)
    decreases |es| - m
  {
    if m < |es| - 1 {
      PrependLast(es, m + 1, r);
    }
  }

  /** Slots that emit nothing and then one entry: the scan over them emits that entry alone. */
  lemma FoldRun(step: (LfnAcc, Slot, nat) -> Result<StepOut, DirError>,
                rs: seq<Result<Slot, IoError>>, os: seq<nat>, i: nat, ss: seq<Slot>,
                accs: seq<LfnAcc>, es: seq<Option<DirEntry>>)
    requires |rs| == |os| && i + |ss| <= |rs| && |accs| == |ss| + 1 && |es| == |ss| && 1 <= |ss|
    requires forall n :: 0 <= n < |ss| ==> rs[i + n] == Ok(ss[n]) && ss[n].raw != Zeros(SLOT_SIZE)
    requires forall n :: 0 <= n < |ss| ==> step(accs[n], ss[n], os[i + n]) == Ok(StepOut(accs[n + 1], es[n]))
    requires forall n :: 0 <= n < |ss| - 1 ==> es[n].None?
    ensures ScanWith(step, rs, os, i, accs[0]) == Prepend(es[|ss| - 1], ScanWith(step, rs, os, i + |ss|, accs[|ss|]))
  {
    FoldSteps(step, rs, os, i, ss, accs, es, 0);
    PrependLast(es, 0, ScanWith(step, rs, os, i + |ss|, accs[|ss|]));
  }

  /** The loop run with TotalStep over a run emits the run's entry alone. */
  lemma RunFold(rs: seq<Result<Slot, IoError>>, os: seq<nat>, i: nat, ss: seq<Slot>)
    requires |rs| == |os| && LongNameRun(ss) && i + |ss| <= |rs|
    requires forall n :: 0 <= n < |ss| ==> rs[i + n] == Ok(ss[n]) && ss[n].raw != Zeros(SLOT_SIZE)
    ensures ScanWith(TotalStep, rs, os, i, NO_LFN)
         == Prepend(Some(RunEntry(ss, os[i], os[i + |ss| - 1])), ScanWith(TotalStep, rs, os, i + |ss|, NO_LFN))
  {
    var accs := RunAccs(ss, os[i]);
    var es := RunEmits(ss, os[i], os[i + |ss| - 1]);
    RunSteps(ss, os, i);
    FoldRun(TotalStep, rs, os, i, ss, accs, es);
  }

  /**
   * A directory region holding a run: k long-name slots then a live entry
   * yields exactly one entry, named by the joined fragments, with the live
   * slot's offset as `ofs` and the first long-name slot's offset as `offs`;
   * the scan then resumes with no pending name.
   */
  lemma ScanRun(rs: seq<Result<Slot, IoError>>, os: seq<nat>, i: nat, ss: seq<Slot>)
    requires |rs| == |os| && LongNameRun(ss) && i + |ss| <= |rs|
    requires forall n :: 0 <= n < |ss| ==> rs[i + n] == Ok(ss[n]) && ss[n].raw != Zeros(SLOT_SIZE)
    ensures ScanFrom(rs, os, i, NO_LFN)
         == Prepend(Some(RunEntry(ss, os[i], os[i + |ss| - 1])), ScanFrom(rs, os, i + |ss|, NO_LFN))
  {
    RunFold(rs, os, i, ss);
    ScanFromWith(rs, os, i, NO_LFN);
    ScanFromWith(rs, os, i + |ss|, NO_LFN);
  }
}

/** Two memory maps that stage 1 can deliver and for which va_init (stage2/mem.c:320-430) does not
    do what it is meant to: pages of base memory lose the caching they want, and the memory map
    itself is not mapped. */
module Delivered {
  import opened Machine
  import opened MemMap
  import opened PageTable
  import opened VaPool
  import opened Holes
  import opened Identity
  import opened Paging
  import opened SecondPass
  import opened PassOrder
  import opened Reach
  import opened VaReady
  import opened ShellSort
  import opened BmemSpec
  import opened HandOver
  import opened Supply
  import opened TableNeeds
  import opened VaNeeds
  import Reporting
  import Bparm
  import BmemInit
  import Init = MemMapInit
  import M = MemInit
  import PhysMap
  import VaInit
  import VaRuns
  import VaSpace

  // ---------------------------------------------------------------------------------------
  // Both are reported from the same state of base memory

  const BASE_TOP := 0x8_0000

  /** The pages below 512 KiB are free when the loader starts. If no usable descriptor goes on from
      there, bmem_init makes one block of them, all but page 0, and puts the watermark at their
      end. */
  lemma OneBlock(free0: set<nat>, v: seq<bool>, w: seq<bool>, gs: seq<BmemInit.Group>, blk: seq<Blk>, ds: seq<Desc>,
                 t: nat)
    requires forall i: nat :: i in free0 <==> i < 0x80
    requires BmemInit.Marks(v, free0, {}) && BmemInit.Grouped(v, gs, BmemInit.BMEM_PAGES)
    requires BmemInit.BlksAre(blk, gs) && BmemInit.MarksAlso(w, v, ds, |ds|) && BmemInit.MarkedUpTo(w, t)
    requires !BmemInit.FreedByFirst(ds, |ds|, 0x80)
    ensures t * PAGE_SIZE == BASE_TOP && blk == [Blk(0x1000, BASE_TOP, BASE_TOP)]
  {
    hide BmemInit.FreedByFirst, BmemInit.BlksAre, BmemInit.Grouped;
    assert forall i: nat :: i < BmemInit.BMEM_PAGES ==> (BmemInit.Marked(v, i) <==> i < 0x80);
    assert forall i: nat :: i < 0x80 ==> BmemInit.Marked(w, i);
    assert !BmemInit.Marked(w, 0x80);
    assert t == 0x80;
    OneGroup(v, gs);
    OneGroupBlock(blk, gs);
  }

  lemma OneGroup(v: seq<bool>, gs: seq<BmemInit.Group>)
    requires |v| == BmemInit.BMEM_PAGES && BmemInit.Grouped(v, gs, BmemInit.BMEM_PAGES)
    requires forall i: nat :: i < BmemInit.BMEM_PAGES ==> (BmemInit.Marked(v, i) <==> i < 0x80)
    ensures gs == [BmemInit.Group(1, 0x80)]
  {
    assert BmemInit.Marked(v, 1) && BmemInit.InGroup(gs, 1);
    forall k | 0 <= k < |gs| ensures gs[k] == BmemInit.Group(1, 0x80) {
      assert BmemInit.MaximalRun(v, gs[k]);
      assert BmemInit.Marked(v, gs[k].first) && !BmemInit.Marked(v, gs[k].last) && BmemInit.Marked(v, gs[k].last - 1);
    }
    assert |gs| > 1 ==> gs[0].last < gs[1].first;
  }

  lemma OneGroupBlock(blk: seq<Blk>, gs: seq<BmemInit.Group>)
    requires BmemInit.BlksAre(blk, gs) && gs == [BmemInit.Group(1, 0x80)]
    ensures blk == [Blk(0x1000, BASE_TOP, BASE_TOP)]
  {
    assert blk[0] == BmemInit.BlkOf(gs[0]);
  }

  /** Then no block above the watermark is reported, however much boot-time memory has been used. */
  lemma NoneAbove(s: seq<Blk>, seen: seq<nat>, num: nat)
    requires Reporting.SameAbove([Blk(0x1000, BASE_TOP, BASE_TOP)], s, BASE_TOP)
    requires Reporting.FewMissed(s, seen, BASE_TOP, num)
    ensures seen == []
  {
    hide SeenFrom, SeenOk;
    var f := FirstAbove(s, BASE_TOP, 0);
    forall i | 0 <= i < |s| ensures s[i].start < BASE_TOP {
      OthersBelow(s, s[i]);
    }
    assert f == |s|;
    NothingSeen(s, seen);
  }

  lemma OthersBelow(s: seq<Blk>, b: Blk)
    requires Reporting.SameAbove([Blk(0x1000, BASE_TOP, BASE_TOP)], s, BASE_TOP) && b in s
    ensures b.start < BASE_TOP
  {
    assert b in [Blk(0x1000, BASE_TOP, BASE_TOP)] ==> b.start == 0x1000;
  }

  lemma NothingSeen(s: seq<Blk>, seen: seq<nat>)
    requires SeenOk(s, seen, |s|)
    ensures seen == []
  {
    if |seen| > 0 {
      SeenIsIn(s, seen, |s|);
    }
  }

  lemma SeenIsIn(s: seq<Blk>, seen: seq<nat>, first: nat)
    requires SeenOk(s, seen, first) && |seen| > 0
    ensures first < |s|
  {
    assert first <= seen[0] < |s|;
  }

  /** What is handed over then, if there was no parameter before: base RAM has the attributes that
      bmem_init gathers from the same descriptors. */
  function Reported(ds: seq<Desc>, segs: Bparm.Data): seq<Init.BootParam> {
    AsParams(Handed([], ds, segs, BASE_TOP, BmemInit.AttrOf(ds, |ds|), []))
  }

  /** That is the list of prepare_to_hand_over. */
  lemma ReportIs(ds: seq<Desc>, segs: Bparm.Data, s: seq<Blk>, seen: seq<nat>, num: nat)
    requires Reporting.SameAbove([Blk(0x1000, BASE_TOP, BASE_TOP)], s, BASE_TOP)
    requires Reporting.FewMissed(s, seen, BASE_TOP, num)
    ensures var attr := BmemInit.AttrOf(ds, |ds|);
            AsParams(Handed([], ds, segs, BASE_TOP, attr, BlksData(s, seen, attr))) == Reported(ds, segs)
  {
    hide Handed, AsParams, Reporting.SameAbove;
    NoneAbove(s, seen, num);
  }

  lemma SinkStops(s: seq<MemRange>, h: nat, j: nat, v: MemRange)
    requires 0 < h && j < |s| && (j < h || s[j - h].start <= v.start)
    ensures Sink(s, h, j, v) == s[j := v]
  {
  }

  lemma SinkMoves(s: seq<MemRange>, h: nat, j: nat, v: MemRange)
    requires 0 < h <= j < |s| && s[j - h].start > v.start
    ensures Sink(s, h, j, v) == Sink(s[j := s[j - h]], h, j - h, v)
  {
  }

  lemma PassStep(s: seq<MemRange>, h: nat, i: nat)
    requires 0 < h
    ensures i >= |s| ==> Pass(s, h, i) == s
    ensures i < |s| ==> Pass(s, h, i) == Pass(Sink(s, h, i, s[i]), h, i + 1)
  {
  }

  lemma GapsOfFour(s: seq<MemRange>)
    requires |s| == 4
    ensures ShellSorted(s) == Pass(Pass(s, 3, 3), 1, 1)
  {
    hide Pass;
    assert FirstGap(1, 4) == 3;
    assert Passes(Pass(Pass(s, 3, 3), 1, 1), 0) == Pass(Pass(s, 3, 3), 1, 1);
  }

  lemma GapsOfFive(s: seq<MemRange>)
    requires |s| == 5
    ensures ShellSorted(s) == Pass(Pass(s, 3, 3), 1, 1)
  {
    PassStep(s, 7, 7);
    hide Pass;
    assert FirstGap(1, 5) == 7;
    assert Passes(Pass(Pass(s, 3, 3), 1, 1), 0) == Pass(Pass(s, 3, 3), 1, 1);
  }

  /** RAM d ends up before the reserved range c that starts where it does. */
  lemma FourSorted(a: MemRange, b: MemRange, c: MemRange, d: MemRange)
    requires d.start == c.start < a.start < b.start
    ensures ShellSorted([a, b, c, d]) == [d, c, a, b]
  {
    hide Sink, Pass;
    GapsOfFour([a, b, c, d]);
    PassStep([a, b, c, d], 3, 3);
    SinkMoves([a, b, c, d], 3, 3, d);
    SinkStops([a, b, c, a], 3, 0, d);
    assert [a, b, c, d][3 := a] == [a, b, c, a] && [a, b, c, a][0 := d] == [d, b, c, a];
    PassStep([d, b, c, a], 3, 4);
    PassStep([d, b, c, a], 1, 1);
    SinkStops([d, b, c, a], 1, 1, b);
    assert [d, b, c, a][1 := b] == [d, b, c, a];
    PassStep([d, b, c, a], 1, 2);
    SinkMoves([d, b, c, a], 1, 2, c);
    assert [d, b, c, a][2 := b] == [d, b, b, a];
    SinkStops([d, b, b, a], 1, 1, c);
    assert [d, b, b, a][1 := c] == [d, c, b, a];
    PassStep([d, c, b, a], 1, 3);
    SinkMoves([d, c, b, a], 1, 3, a);
    assert [d, c, b, a][3 := b] == [d, c, b, b];
    SinkStops([d, c, b, b], 1, 2, a);
    assert [d, c, b, b][2 := a] == [d, c, a, b];
    PassStep([d, c, a, b], 1, 4);
  }

  lemma FiveSorted(a: MemRange, b: MemRange, c: MemRange, d: MemRange, e: MemRange)
    requires d.start == e.start < a.start < b.start < c.start
    ensures ShellSorted([a, b, c, d, e]) == [d, e, a, b, c]
  {
    hide Sink, Pass;
    GapsOfFive([a, b, c, d, e]);
    PassStep([a, b, c, d, e], 3, 3);
    SinkMoves([a, b, c, d, e], 3, 3, d);
    SinkStops([a, b, c, a, e], 3, 0, d);
    assert [a, b, c, d, e][3 := a] == [a, b, c, a, e] && [a, b, c, a, e][0 := d] == [d, b, c, a, e];
    PassStep([d, b, c, a, e], 3, 4);
    SinkMoves([d, b, c, a, e], 3, 4, e);
    SinkStops([d, b, c, a, b], 3, 1, e);
    assert [d, b, c, a, e][4 := b] == [d, b, c, a, b] && [d, b, c, a, b][1 := e] == [d, e, c, a, b];
    PassStep([d, e, c, a, b], 3, 5);
    FiveInserted(a, b, c, d, e);
  }

  lemma FiveInserted(a: MemRange, b: MemRange, c: MemRange, d: MemRange, e: MemRange)
    requires d.start == e.start < a.start < b.start < c.start
    ensures Pass([d, e, c, a, b], 1, 1) == [d, e, a, b, c]
  {
    hide Sink, Pass;
    var s := [d, e, c, a, b];
    PassStep(s, 1, 1);
    SinkStops(s, 1, 1, e);
    assert s[1 := e] == s && s[2 := c] == s;
    PassStep(s, 1, 2);
    SinkStops(s, 1, 2, c);
    PassStep(s, 1, 3);
    SinkMoves(s, 1, 3, a);
    assert s[3 := c] == [d, e, c, c, b];
    SinkStops([d, e, c, c, b], 1, 2, a);
    assert [d, e, c, c, b][2 := a] == [d, e, a, c, b];
    PassStep([d, e, a, c, b], 1, 4);
    SinkMoves([d, e, a, c, b], 1, 4, b);
    assert [d, e, a, c, b][4 := c] == [d, e, a, c, c];
    SinkStops([d, e, a, c, c], 1, 3, b);
    assert [d, e, a, c, c][3 := b] == [d, e, a, b, c];
    PassStep([d, e, a, b, c], 1, 5);
  }

  // ---------------------------------------------------------------------------------------
  // Base memory whose caching is lost

  /** 16 MiB of write-back memory, and base memory, which can only be written through or left
      uncached: the pages that the loader has grabbed are run-time services data, and the
      firmware lists them in one with 64 KiB of its own; 64 KiB more are boot services data. */
  function MergedDescs(): (ds: seq<Desc>)
    ensures DescsOk(ds)
  {
    [Desc(Conventional, 0x10_0000, 0x1000, 0xf), Desc(OtherType(6), 0, 0x90, 5),
     Desc(BootServicesData, 0x9_0000, 0x10, 5)]
  }

  const EXT_RAM := MemRange(0x10_0000, 0x100_0000, E820_RAM, 1, 0xf)
  const BASE_FIRMWARE := MemRange(0, 0x9_0000, E820_RESERVED, 1, 5)
  const BASE_RAM := MemRange(0, BASE_TOP, E820_RAM, 1, 1)

  /** For this firmware, bmem_init's base RAM is uncached, and its watermark is at 512 KiB. */
  lemma MergedAttr()
    ensures BmemInit.AttrOf(MergedDescs(), 3) == 1
    ensures !BmemInit.FreedByFirst(MergedDescs(), 3, 0x80)
  {
    var ds := MergedDescs();
    assert BitAnd(BmemInit.UEFI_ATTR_START, 5) == 1;
    assert BmemInit.AttrOf(ds, 1) == BmemInit.AttrOf(ds, 2) == BmemInit.UEFI_ATTR_START;
  }

  lemma MergedReported(segs: Bparm.Data)
    requires segs.BmemSegs?
    ensures Reported(MergedDescs(), segs)
            == [Init.Mrng(EXT_RAM), Init.Other(0), Init.Mrng(BASE_FIRMWARE), Init.Mrng(BASE_RAM)]
  {
    var ds := MergedDescs();
    MergedAttr();
    hide BmemInit.AttrOf;
    assert ExtendedData(ds, 0) == [] && UefiData(ds, 0) == [];
    assert ExtendedData(ds, 1) == [Bparm.Mrng(EXT_RAM)] && UefiData(ds, 1) == [];
    assert ExtendedData(ds, 2) == [Bparm.Mrng(EXT_RAM)] && UefiData(ds, 2) == [Bparm.Mrng(BASE_FIRMWARE)];
    assert ExtendedData(ds, 3) == [Bparm.Mrng(EXT_RAM)] && UefiData(ds, 3) == [Bparm.Mrng(BASE_FIRMWARE)];
    assert Bparm.RangeData(BASE_RAM) == [Bparm.Mrng(BASE_RAM)];
    assert Handed([], ds, segs, BASE_TOP, 1, [])
        == [Bparm.Mrng(EXT_RAM), segs, Bparm.Mrng(BASE_FIRMWARE), Bparm.Mrng(BASE_RAM)];
  }

  /** The map that stage 2 makes of it. */
  function MergedMap(): (s: seq<MemRange>)
    ensures |s| == 4
  {
    [BASE_RAM, BASE_FIRMWARE, EXT_RAM.(len := 0xff_fe00),
     MemRange(0x10f_fe00, 0x200, E820_RESERVED, 1, 0xf)]
  }

  lemma MergedIsFirst(segs: Bparm.Data, chosen: int, s: seq<MemRange>)
    requires segs.BmemSegs? && M.FirstMap(Reported(MergedDescs(), segs), chosen, s)
    ensures s == MergedMap() && chosen == 0
  {
    var bps := Reported(MergedDescs(), segs);
    MergedReported(segs);
    hide ShellSorted, Reported, MergedDescs;
    CopyOfMerged(bps, chosen);
    FourSorted(MergedMap()[2], MergedMap()[3], BASE_FIRMWARE, BASE_RAM);
  }

  lemma ChoiceOfMerged(bps: seq<Init.BootParam>, chosen: int)
    requires bps == [Init.Mrng(EXT_RAM), Init.Other(0), Init.Mrng(BASE_FIRMWARE), Init.Mrng(BASE_RAM)]
    requires Init.HighestEligible(bps, |bps|, M.Need(bps), chosen) && chosen != -1
    ensures chosen == 0 && M.Need(bps) == 0x200
  {
    assert Init.Count(bps, 0) == 0 && Init.Count(bps, 1) == 1 && Init.Count(bps, 2) == 1;
    assert Init.Count(bps, 3) == 2 && Init.Count(bps, 4) == 3;
    assert Init.Eligible(bps[0], 0x200);
  }

  lemma CopyOfMerged(bps: seq<Init.BootParam>, chosen: int)
    requires bps == [Init.Mrng(EXT_RAM), Init.Other(0), Init.Mrng(BASE_FIRMWARE), Init.Mrng(BASE_RAM)]
    requires Init.HighestEligible(bps, |bps|, M.Need(bps), chosen) && chosen != -1
    ensures chosen == 0 && M.Need(bps) == 0x200
    ensures Init.Copied(bps, 4, 0, 0x200) == [MergedMap()[2], MergedMap()[3], BASE_FIRMWARE, BASE_RAM]
  {
    ChoiceOfMerged(bps, chosen);
    hide M.Need, Init.HighestEligible;
    assert Init.Copied(bps, 0, 0, 0x200) == [];
    assert Init.Copied(bps, 1, 0, 0x200) == [MergedMap()[2], MergedMap()[3]];
    assert Init.Copied(bps, 2, 0, 0x200) == [MergedMap()[2], MergedMap()[3]];
    assert Init.Copied(bps, 3, 0, 0x200) == [MergedMap()[2], MergedMap()[3], BASE_FIRMWARE];
  }

  /** However base RAM has been cut by allocations, the pass steps over the firmware's range. */
  lemma FirmwareIsPassed(s0: seq<MemRange>, cap: nat, had: bool)
    requires MapOk(s0) && |s0| <= cap && Later(MergedMap(), s0)
    ensures !BaseReaches(s0, cap, had, 0x88)
  {
    hide MapOk, Later, SlotMapped, MergedMap;
    var s := MergedMap();
    var t1 := SlotMapped(s0, cap, had);
    SlotMappedOk(s0, cap, had);
    LaterTransitive(s, s0, t1);
    MergedFirst(s0);
    MergedPieces(s0);
    MergedPieces(t1);
    assert FirstSpecial(s0, 0) == 0;
    MapIsBaseFirst(t1);
    var i := AfterStart(t1, 0, 0);
    forall j: nat ensures !ReachedTouch(t1, i, 0x88, j) {
      hide NothingToDo, Touches;
      if ReachedTouch(t1, i, 0x88, j) {
        NotReached(t1, i, j);
      }
    }
  }

  lemma NotReached(t1: seq<MemRange>, i: nat, j: nat)
    requires i == AfterStart(t1, 0, 0) && BaseFirst(t1) && j < |t1| && t1[j].start == 0
    requires forall k :: 0 <= k < |t1| && t1[k].start < BMEM_MAX_ADDR ==> !NothingToDo(t1[k])
    ensures !IsReached(t1, i, j)
  {
    hide NothingToDo;
    if i < j {
      assert t1[j - 1].start < BMEM_MAX_ADDR;
      assert !Rises(t1, j - 1, j);
    }
  }

  lemma MergedFirst(t: seq<MemRange>)
    requires Later(MergedMap(), t)
    ensures t != [] && t[0].start == 0 && t[0].uefiAttr == 1
  {
  }

  /** Ranges of base memory all need special flags, and the only one that touches page 0x88 is the
      firmware's, as it was. */
  lemma MergedPieces(t: seq<MemRange>)
    requires Later(MergedMap(), t)
    ensures forall k :: 0 <= k < |t| && t[k].start < BMEM_MAX_ADDR ==> !NothingToDo(t[k])
    ensures forall k :: 0 <= k < |t| && t[k].start < BMEM_MAX_ADDR && Touches(t[k], 0x88) ==>
              t[k].start == 0 && t[k].uefiAttr == 5
  {
    hide Refines, RamShrinks, Grew, LowRamShrinks;
    var s := MergedMap();
    forall k | 0 <= k < |t| && t[k].start < BMEM_MAX_ADDR
      ensures !NothingToDo(t[k]) && (Touches(t[k], 0x88) ==> t[k].start == 0 && t[k].uefiAttr == 5)
    {
      assert PieceOfSome(t[k], s);
      var i :| 0 <= i < |s| && Piece(t[k], s[i]);
      assert i == 0 || i == 1;
    }
  }

  /** Page 0x88 is to be written through, by the only range that touches it, and ends uncached. */
  lemma WriteThroughIsLost(m: Memory, pdpt: nat, pool: seq<VaRange>, a: Attributes)
    requires Ready(m, pdpt, MergedMap(), pool, a)
    ensures PageFlags(MergedMap(), 0x88, PTE_WT) && Touched(MergedMap(), 0x88)
    ensures WalkPage(m, pdpt, 0x88) == IdPage(0x88, PTE_CD) != IdPage(0x88, PTE_WT)
  {
    hide Later, MapOk, PoolOk, PoolExact, Passed, FromMap, BaseWant, BaseOf, TouchedIn, SpecialTouched, BaseReaches,
      WalkPage;
    var s := MergedMap();
    assert Touches(s[1], 0x88);
    assert PageFlags(s, 0x88, PTE_WT);
    FirmwareIsPassed(a.start, a.cap, a.had);
    BaseFlagsIff(m, pdpt, s, pool, a, 0x88, true);
  }

  lemma LastPageIsFree(pool: seq<VaRange>)
    requires PoolOk(pool) && PoolExact(pool, MergedMap())
    ensures PoolEnd(pool) == XM32_MAX_ADDR
  {
    hide PoolOk;
    assert InSome(pool, 0xf_ffff * 0x1000);
    EndHolds(pool, 0xf_ffff * 0x1000);
  }

  lemma EndHolds(pool: seq<VaRange>, b: nat)
    requires PoolOk(pool) && InSome(pool, b) && b == 0xf_ffff * 0x1000
    ensures PoolEnd(pool) == XM32_MAX_ADDR
  {
    var k :| 0 <= k < |pool| && In(pool[k], b);
    var last := pool[|pool| - 1];
    assert VaPool.Aligned(last);
  }

  lemma FirstHoleHolds(pool: seq<VaRange>)
    requires PoolOk(pool) && pool != []
    ensures pool[0].start <= BMEM_MAX_ADDR ==> InSome(pool, BMEM_MAX_ADDR)
  {
    assert pool[0].start <= BMEM_MAX_ADDR ==> In(pool[0], BMEM_MAX_ADDR);
  }

  /** Page 0x100, and all the RAM after it, is to be cached, and ends uncached. */
  lemma WriteBackIsLost(m: Memory, pdpt: nat, pool: seq<VaRange>, a: Attributes)
    requires Ready(m, pdpt, MergedMap(), pool, a)
    ensures PageFlags(MergedMap(), 0x100, 0)
    ensures WalkPage(m, pdpt, 0x100) == IdPage(0x100, PTE_CD) != IdPage(0x100, 0)
  {
    hide Later, MapOk, Passed, FromMap, BaseWant, BaseOf, TouchedIn, SpecialTouched, WalkPage;
    var s := MergedMap();
    assert Touches(s[2], 0x100);
    assert PageFlags(s, 0x100, 0);
    assert !InSome(pool, 0x100 * 0x1000);
    LastPageIsFree(pool);
    hide PoolExact;
    FirstHoleHolds(pool);
    hide PoolOk, InSome;
    CachedIff(m, pdpt, s, pool, a, 0x100);
  }

  /** Only the slots of base memory and of the end of RAM need page tables. */
  lemma MergedSlots()
    ensures NeededSlots(MergedMap()) <= {0, 8}
  {
    var s := MergedMap();
    forall k | k in NeededSlots(s) ensures k == 0 || k == 8 {
      if MixedSlot(s, k) {
        MergedMixed(k);
      } else {
        var i :| 0 <= i < |s| && CutsSlot(s[i], k);
        MergedCut(i, k);
      }
    }
  }

  lemma MergedMixed(k: nat)
    requires MixedSlot(MergedMap(), k)
    ensures k == 8
  {
    hide Touched;
    var p: nat, q: nat :|
      InSlot(p, k) && InSlot(q, k) && (p < 0x100 || Touched(MergedMap(), p)) && IsHole(MergedMap(), q);
    MergedTouched(p);
    MergedTouched(q);
  }

  lemma MergedTouched(q: nat)
    ensures Touched(MergedMap(), q) <==> q < 0x90 || 0x100 <= q < 0x1100
  {
    var s := MergedMap();
    assert Touches(s[1], q) <==> q < 0x90;
    assert Touches(s[0], q) <==> q < 0x80;
    assert Touches(s[2], q) <==> 0x100 <= q < 0x1100;
    assert Touches(s[3], q) <==> q == 0x10ff;
  }

  lemma MergedCut(i: nat, k: nat)
    requires i < 4 && CutsSlot(MergedMap()[i], k)
    ensures k == 0
  {
    assert i == 0 || i == 1 || i == 2 || i == 3;
  }

  lemma FewSlots(a: set<nat>)
    requires a <= {0, 8}
    ensures |a| <= 2
  {
    var b: set<nat> := {0, 8};
    assert b == a + (b - a);
  }

  /** There is memory enough, and an address space with holes. */
  lemma MergedSuffices()
    ensures Enough(MergedMap(), 16) && !VaInit.NoHole(MergedMap())
  {
    var s, n := MergedMap(), |NeededSlots(MergedMap())|;
    MergedSlots();
    FewSlots(NeededSlots(s));
    hide NeededSlots;
    Bytes(s, 2, (4 + n) * 0x1000 + 32 + 31 + 16 * VaSpace.VA_RANGE_SIZE + 3);
    MergedTouched(0x2000);
    hide Touched;
    assert !VaInit.NoHole(s);
  }

  lemma Bytes(s: seq<MemRange>, i: nat, b: nat)
    requires i < |s| && ExtendedRam(s[i]) && RoundUp(s[i].start) + b <= MemMap.End(s[i])
    ensures HasBytes(s, b)
  {
  }

  lemma MergedIsBootMap(bps: seq<Init.BootParam>)
    requires bps == [Init.Mrng(EXT_RAM), Init.Other(0), Init.Mrng(BASE_FIRMWARE), Init.Mrng(BASE_RAM)]
    ensures Init.BootMapOk(bps) && Init.Room(Init.Count(bps, |bps|)) == 16
    ensures forall c :: Init.HighestEligible(bps, |bps|, M.Need(bps), c) ==> c != -1
  {
    assert Init.Count(bps, 0) == 0 && Init.Count(bps, 1) == 1 && Init.Count(bps, 2) == 1;
    assert Init.Count(bps, 3) == 2 && Init.Count(bps, 4) == 3;
    assert Init.Eligible(bps[0], 0x200);
  }

  /** On that machine mem_init completes, and both happen. */
  method CachingIsLost(segs: Bparm.Data, mem0: Memory) returns (vs: VaSpace.VaSpace, ghost s: seq<MemRange>)
    requires segs.BmemSegs?
    ensures PageFlags(s, 0x88, PTE_WT) && Touched(s, 0x88)
    ensures WalkPage(vs.pg.mem, vs.pg.pdpt, 0x88) == IdPage(0x88, PTE_CD)
    ensures PageFlags(s, 0x100, 0) && WalkPage(vs.pg.mem, vs.pg.pdpt, 0x100) == IdPage(0x100, PTE_CD)
    ensures s == MergedMap()
  {
    hide Ready, MergedMap, Reported, MergedDescs, M.Need, ShellSorted, NoRam, RamEndsBelow, PoolEnd,
      VaInit.ListGoesTo, Later, WalkPage, IdPage, PageFlags, Touched, Init.BootMapOk, Enough, VaInit.NoHole,
      Init.HighestEligible, Init.Copied, SortedByStart, Init.Room, Init.Count;
    var bps := Reported(MergedDescs(), segs);
    MergedReported(segs);
    MergedIsBootMap(bps);
    var r, mm, vs0, chosen;
    ghost var attrs;
    r, mm, vs0, chosen, s, attrs := M.MemInit(bps, mem0);
    MergedIsFirst(segs, chosen, s);
    MergedSuffices();
    vs := vs0;
    WriteThroughIsLost(vs.pg.mem, vs.pg.pdpt, vs.pool, attrs);
    WriteBackIsLost(vs.pg.mem, vs.pg.pdpt, vs.pool, attrs);
  }

  // ---------------------------------------------------------------------------------------
  // A memory map that is out of reach

  /** Write-back memory throughout: 2 GiB - 1 MiB from 1 MiB on, 256 MiB up to 4 GiB, and base
      memory. */
  function HighDescs(): (ds: seq<Desc>)
    ensures DescsOk(ds)
  {
    [Desc(Conventional, 0x10_0000, 0x7_ff00, 8), Desc(Conventional, 0xf000_0000, 0x1_0000, 8),
     Desc(OtherType(6), 0, 0xa0, 8)]
  }

  const LOW_RAM := MemRange(0x10_0000, 0x7ff0_0000, E820_RAM, 1, 8)
  const HIGH_RAM := MemRange(0xf000_0000, 0x1000_0000, E820_RAM, 1, 8)
  const CACHED_FIRMWARE := MemRange(0, 0xa_0000, E820_RESERVED, 1, 8)
  const CACHED_RAM := MemRange(0, BASE_TOP, E820_RAM, 1, BmemInit.UEFI_ATTR_START)

  /** No usable descriptor lies in base memory, so that its RAM may have all attributes. */
  lemma HighAttr()
    ensures BmemInit.AttrOf(HighDescs(), 3) == BmemInit.UEFI_ATTR_START
    ensures !BmemInit.FreedByFirst(HighDescs(), 3, 0x80)
  {
    var ds := HighDescs();
    assert BmemInit.AttrOf(ds, 1) == BmemInit.AttrOf(ds, 2) == BmemInit.UEFI_ATTR_START;
  }

  lemma HighReported(segs: Bparm.Data)
    requires segs.BmemSegs?
    ensures Reported(HighDescs(), segs)
            == [Init.Mrng(LOW_RAM), Init.Mrng(HIGH_RAM), Init.Other(0), Init.Mrng(CACHED_FIRMWARE),
                Init.Mrng(CACHED_RAM)]
  {
    var ds := HighDescs();
    HighAttr();
    hide BmemInit.AttrOf;
    var x := [Bparm.Mrng(LOW_RAM), Bparm.Mrng(HIGH_RAM)];
    assert ExtendedData(ds, 0) == [] && UefiData(ds, 0) == [];
    assert ExtendedData(ds, 1) == [Bparm.Mrng(LOW_RAM)] && UefiData(ds, 1) == [];
    assert ExtendedData(ds, 2) == x && UefiData(ds, 2) == [];
    assert ExtendedData(ds, 3) == x && UefiData(ds, 3) == [Bparm.Mrng(CACHED_FIRMWARE)];
    assert Bparm.RangeData(CACHED_RAM) == [Bparm.Mrng(CACHED_RAM)];
    assert Handed([], ds, segs, BASE_TOP, BmemInit.UEFI_ATTR_START, [])
        == x + [segs, Bparm.Mrng(CACHED_FIRMWARE), Bparm.Mrng(CACHED_RAM)];
  }

  function HighMap(): (s: seq<MemRange>)
    ensures |s| == 5
  {
    [CACHED_FIRMWARE, CACHED_RAM, LOW_RAM, HIGH_RAM.(len := 0xfff_fe00),
     MemRange(0xffff_fe00, 0x200, E820_RESERVED, 1, 8)]
  }

  lemma HighIsFirst(segs: Bparm.Data, chosen: int, s: seq<MemRange>)
    requires segs.BmemSegs? && M.FirstMap(Reported(HighDescs(), segs), chosen, s)
    ensures s == HighMap() && chosen == 1 && M.Need(Reported(HighDescs(), segs)) == 0x200
  {
    var bps := Reported(HighDescs(), segs);
    HighReported(segs);
    hide ShellSorted, Reported, HighDescs;
    CopyOfHigh(bps, chosen);
    FiveSorted(LOW_RAM, HighMap()[3], HighMap()[4], CACHED_FIRMWARE, CACHED_RAM);
  }

  lemma ChoiceOfHigh(bps: seq<Init.BootParam>, chosen: int)
    requires bps == [Init.Mrng(LOW_RAM), Init.Mrng(HIGH_RAM), Init.Other(0), Init.Mrng(CACHED_FIRMWARE),
                     Init.Mrng(CACHED_RAM)]
    requires Init.HighestEligible(bps, |bps|, M.Need(bps), chosen) && chosen != -1
    ensures chosen == 1 && M.Need(bps) == 0x200
  {
    assert Init.Count(bps, 0) == 0 && Init.Count(bps, 1) == 1 && Init.Count(bps, 2) == 2;
    assert Init.Count(bps, 3) == 2 && Init.Count(bps, 4) == 3 && Init.Count(bps, 5) == 4;
    assert Init.Eligible(bps[1], 0x200);
  }

  lemma CopyOfHigh(bps: seq<Init.BootParam>, chosen: int)
    requires bps == [Init.Mrng(LOW_RAM), Init.Mrng(HIGH_RAM), Init.Other(0), Init.Mrng(CACHED_FIRMWARE),
                     Init.Mrng(CACHED_RAM)]
    requires Init.HighestEligible(bps, |bps|, M.Need(bps), chosen) && chosen != -1
    ensures chosen == 1 && M.Need(bps) == 0x200
    ensures Init.Copied(bps, 5, 1, 0x200) == [LOW_RAM, HighMap()[3], HighMap()[4], CACHED_FIRMWARE, CACHED_RAM]
  {
    ChoiceOfHigh(bps, chosen);
    hide M.Need, Init.HighestEligible;
    assert Init.Copied(bps, 0, 1, 0x200) == [];
    assert Init.Copied(bps, 1, 1, 0x200) == [LOW_RAM];
    assert Init.Copied(bps, 2, 1, 0x200) == [LOW_RAM, HighMap()[3], HighMap()[4]];
    assert Init.Copied(bps, 3, 1, 0x200) == [LOW_RAM, HighMap()[3], HighMap()[4]];
    assert Init.Copied(bps, 4, 1, 0x200) == [LOW_RAM, HighMap()[3], HighMap()[4], CACHED_FIRMWARE];
  }

  /** The last hole ends where the high memory starts. */
  lemma HighPoolEnd(pool: seq<VaRange>)
    requires PoolOk(pool) && PoolExact(pool, HighMap()) && pool != []
    ensures PoolEnd(pool) <= 0xf000_0000
  {
    var q := PoolEnd(pool) / 0x1000 - 1;
    LastPageIn(pool, q);
    hide PoolOk, InSome, HighMap;
    HighTouched();
    assert !Touched(HighMap(), q);
  }

  lemma HighTouched()
    ensures forall q: nat :: 0xf_0000 <= q < 0x10_0000 ==> Touched(HighMap(), q)
  {
    forall q: nat | 0xf_0000 <= q < 0x10_0000 ensures Touched(HighMap(), q) {
      assert Touches(HighMap()[3], q);
    }
  }

  lemma LastPageIn(pool: seq<VaRange>, q: int)
    requires PoolOk(pool) && pool != [] && q == PoolEnd(pool) / 0x1000 - 1
    ensures 0x100 <= q < 0x10_0000 && InSome(pool, q * 0x1000) && PoolEnd(pool) == (q + 1) * 0x1000
  {
    var last := pool[|pool| - 1];
    assert VaPool.Aligned(last);
    assert In(last, q * 0x1000);
  }

  /** The page below 4 GiB, which the map describes, is not mapped. */
  lemma TopPageIsAbsent(m: Memory, pdpt: nat, pool: seq<VaRange>, a: Attributes)
    requires Ready(m, pdpt, HighMap(), pool, a)
    ensures WalkPage(m, pdpt, 0xf_ffff) == Absent && !InSome(pool, 0xf_ffff * 0x1000)
  {
    hide Later, MapOk, Passed, FromMap, BaseWant, BaseOf, TouchedIn, WalkPage, PoolOk, InSome;
    var s := HighMap();
    HighPoolEnd(pool);
    assert Touches(s[4], 0xf_ffff);
    hide PoolExact;
    assert !SpecialTouched(s, |s|, 0xf_ffff);
    hide SpecialTouched;
    SelfMappedIff(m, pdpt, s, pool, a, 0xf_ffff);
  }

  /** The list of holes goes to the same page. */
  lemma ListIsHigh(at: nat)
    requires VaInit.ListGoesTo(HighMap(), 16, at)
    ensures 0xffff_fd80 <= at < XM32_MAX_ADDR
  {
    hide MapOk, Alloc, NoBlockAbove;
    AllocIsHighestFit(HighMap(), 16, 0x80, 4, 0);
    assert BlockIn(HighMap()[3], 0xffff_fd80, 0x80, 4, XM32_MAX_ADDR);
    NoneHigher(HighMap(), 0x80, 4, at, 3, 0xffff_fd80);
  }

  lemma HighPages(q: nat)
    ensures Touched(HighMap(), q) <==> q < 0xa0 || 0x100 <= q < 0x8_0000 || 0xf_0000 <= q < 0x10_0000
  {
    var s := HighMap();
    assert Touches(s[0], q) <==> q < 0xa0;
    assert Touches(s[1], q) <==> q < 0x80;
    assert Touches(s[2], q) <==> 0x100 <= q < 0x8_0000;
    assert Touches(s[3], q) <==> 0xf_0000 <= q < 0x10_0000;
    assert Touches(s[4], q) <==> q == 0xf_ffff;
  }

  /** No slot needs a page table. */
  lemma HighSlots()
    ensures NeededSlots(HighMap()) == {}
  {
    var s := HighMap();
    forall k: nat ensures !MixedSlot(s, k) && !CutByOne(s, k) {
      HighUnmixed(k);
      forall i | 0 <= i < |s| ensures !CutsSlot(s[i], k) {
        HighUncut(i);
      }
    }
  }

  lemma HighUnmixed(k: nat)
    ensures !MixedSlot(HighMap(), k)
  {
    hide Touched, HighMap;
    forall p: nat, q: nat | InSlot(p, k) && InSlot(q, k) && (p < 0x100 || Touched(HighMap(), p))
      ensures !IsHole(HighMap(), q)
    {
      HighPages(p);
      HighPages(q);
    }
  }

  lemma HighUncut(i: nat)
    requires i < 5
    ensures NothingToDo(HighMap()[i])
  {
    assert i == 0 || i == 1 || i == 2 || i == 3 || i == 4;
  }

  lemma HighSuffices()
    ensures Enough(HighMap(), 16) && !VaInit.NoHole(HighMap())
  {
    var s := HighMap();
    HighSlots();
    hide NeededSlots;
    Bytes(s, 3, 4 * 0x1000 + 32 + 31 + 16 * VaSpace.VA_RANGE_SIZE + 3);
    HighPages(0x9_0000);
    hide Touched;
    assert !VaInit.NoHole(s);
  }

  lemma HighIsBootMap(bps: seq<Init.BootParam>)
    requires bps == [Init.Mrng(LOW_RAM), Init.Mrng(HIGH_RAM), Init.Other(0), Init.Mrng(CACHED_FIRMWARE),
                     Init.Mrng(CACHED_RAM)]
    ensures Init.BootMapOk(bps) && Init.Room(Init.Count(bps, |bps|)) == 16
    ensures forall c :: Init.HighestEligible(bps, |bps|, M.Need(bps), c) ==> c != -1
  {
    assert Init.Count(bps, 0) == 0 && Init.Count(bps, 1) == 1 && Init.Count(bps, 2) == 2;
    assert Init.Count(bps, 3) == 2 && Init.Count(bps, 4) == 3 && Init.Count(bps, 5) == 4;
    assert Init.Eligible(bps[1], 0x200);
  }

  lemma MapFaults(mm: PhysMap.PhysMap, vs: VaSpace.VaSpace, chosen: int, segs: Bparm.Data, a: Attributes)
    requires segs.BmemSegs? && M.FirstMap(Reported(HighDescs(), segs), chosen, HighMap())
    requires M.Initialised(Reported(HighDescs(), segs), chosen, HighMap(), mm, vs, a)
    ensures mm.at == 0xffff_fe00 && VaRuns.Translate(vs.pg.mem, vs.pg.pdpt, mm.at) == VaRuns.Fault
    ensures VaRuns.Translate(vs.pg.mem, vs.pg.pdpt, vs.listAt) == VaRuns.Fault
    ensures !vs.Reachable()
  {
    hide Ready, HighMap, Reported, HighDescs, M.Need, ShellSorted, NoRam, RamEndsBelow, PoolEnd, VaInit.ListGoesTo,
      Later, WalkPage, VaInit.Covers, Housed;
    HighReported(segs);
    HighIsFirst(segs, chosen, HighMap());
    TopPageIsAbsent(vs.pg.mem, vs.pg.pdpt, vs.pool, a);
    ListIsHigh(vs.listAt);
    assert OnPage(mm.at, vs.MapEnd(), 0xf_ffff);
    assert !PageSafe(vs.base, vs.pg.pdpt, vs.pool, 0xf_ffff);
  }

  /** On that machine mem_init completes; but with paging on, the memory map itself faults, and so
      does the list of holes, which mem_va_map reads first. */
  method MapIsOutOfReach(segs: Bparm.Data, mem0: Memory) returns (mm: PhysMap.PhysMap, vs: VaSpace.VaSpace)
    requires segs.BmemSegs?
    ensures vs.pg.mm == mm && mm.at == 0xffff_fe00
    ensures VaRuns.Translate(vs.pg.mem, vs.pg.pdpt, mm.at) == VaRuns.Fault
    ensures VaRuns.Translate(vs.pg.mem, vs.pg.pdpt, vs.listAt) == VaRuns.Fault
    ensures !vs.Reachable()
  {
    hide Ready, HighMap, Reported, HighDescs, M.Need, ShellSorted, NoRam, RamEndsBelow, PoolEnd, VaInit.ListGoesTo,
      Later, WalkPage, VaInit.Covers, Housed, Init.BootMapOk, Enough, VaInit.NoHole, Init.HighestEligible, Init.Copied,
      SortedByStart, Init.Room, Init.Count, AllSafe;
    var bps := Reported(HighDescs(), segs);
    HighReported(segs);
    HighIsBootMap(bps);
    var r, mm0, vs0, chosen;
    ghost var s, attrs;
    r, mm0, vs0, chosen, s, attrs := M.MemInit(bps, mem0);
    HighIsFirst(segs, chosen, s);
    HighSuffices();
    mm, vs := mm0, vs0;
    MapFaults(mm, vs, chosen, segs, attrs);
  }
}

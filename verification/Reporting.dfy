/** Handing over to stage 2: the loops that report memory while they take memory for their
    reports (stage1/bmem.c:95-154, 331-353, stage1/main.c:438-494). */
module Reporting {
  import opened Machine
  import opened MemMap
  import opened BmemSpec
  import opened Bparm
  import opened HandOver
  import opened Told
  import Bmem
  import Init = MemMapInit

  /** The same blocks lie at or above the watermark. */
  ghost predicate SameAbove(s: seq<Blk>, t: seq<Blk>, top: nat) {
    forall b: Blk :: b.start >= top ==> (b in s <==> b in t)
  }

  lemma EatenIsSameAbove(runs: seq<Run>, s: seq<Blk>, t: seq<Blk>, used: seq<Use>, bot: nat, top: nat)
    requires BmemOk(runs, s, used, bot, top) && Eaten(s, t, top)
    ensures SameAbove(s, t, top)
  {
    if s != t {
      var i: nat, aend: nat :| EatenAt(s, t, top, i, aend);
      assert s[i].end <= top;
      CutSameAbove(s, i, aend, top);
    }
  }

  lemma CutSameAbove(s: seq<Blk>, i: nat, aend: nat, top: nat)
    requires i < |s| && s[i].start <= aend <= s[i].end <= top && s[i].start < top
    ensures SameAbove(s, CutBottom(s, i, aend), top)
  {
    hide CutBottom;
    var t := CutBottom(s, i, aend);
    CutBottomLength(s, i, aend);
    forall b: Blk | b.start >= top ensures b in s <==> b in t {
      if b in s {
        var j :| 0 <= j < |s| && s[j] == b;
        var k := if aend == s[i].end && j > i then j - 1 else j;
        CutBottomEntry(s, i, aend, k);
        assert t[k] == b;
      }
      if b in t {
        var k :| 0 <= k < |t| && t[k] == b;
        CutBottomEntry(s, i, aend, k);
      }
    }
  }

  lemma MoreIsTransitive(u: seq<Use>, v: seq<Use>, w: seq<Use>)
    requires MoreBootTime(u, v) && MoreBootTime(v, w)
    ensures MoreBootTime(u, w)
  {
    assert w[..|u|] == v[..|u|];
    forall k | |u| <= k < |w| ensures !w[k].runTime {
      assert k < |v| ==> w[k] == v[k];
    }
  }

  lemma ClearStays(r: MemRange, u: seq<Use>, v: seq<Use>)
    requires ClearOfRunTime(r, u) && MoreBootTime(u, v)
    ensures ClearOfRunTime(r, v)
  {
    forall k | 0 <= k < |v| && v[k].runTime ensures Apart(v[k].start, v[k].end, r.start, End(r)) {
      assert v[k] == u[k];
    }
  }

  /** What reporting does to base memory: boot-time memory goes, below the watermark. */
  ghost predicate Reported(s: seq<Blk>, u: seq<Use>, t: seq<Blk>, v: seq<Use>, top: nat) {
    SameAbove(s, t, top) && MoreBootTime(u, v)
  }

  lemma ReportedNothing(s: seq<Blk>, u: seq<Use>, top: nat)
    ensures Reported(s, u, s, u, top)
  {
  }

  lemma ReportedMore(runs: seq<Run>, s0: seq<Blk>, u0: seq<Use>, s: seq<Blk>, u: seq<Use>, t: seq<Blk>, v: seq<Use>,
                     bot: nat, top: nat)
    requires Reported(s0, u0, s, u, top) && BmemOk(runs, s, u, bot, top) && Eaten(s, t, top) && MoreBootTime(u, v)
    ensures Reported(s0, u0, t, v, top)
  {
    EatenIsSameAbove(runs, s, t, u, bot, top);
    MoreIsTransitive(u0, u, v);
  }

  lemma ReportedTwice(s0: seq<Blk>, u0: seq<Use>, s: seq<Blk>, u: seq<Use>, t: seq<Blk>, v: seq<Use>, top: nat)
    requires Reported(s0, u0, s, u, top) && Reported(s, u, t, v, top)
    ensures Reported(s0, u0, t, v, top)
  {
    MoreIsTransitive(u0, u, v);
  }

  lemma Assoc(l: seq<Data>, m: seq<Data>, n: seq<Data>)
    ensures l + m + n == l + (m + n)
  {
  }

  lemma DescOf(ds: seq<Desc>, i: nat)
    requires DescsOk(ds) && i < |ds|
    ensures DescOk(ds[i])
  {
  }

  /** No boot-time memory is left for another range. */
  predicate NoRoom(s: seq<Blk>, top: nat) {
    !HasRoom(s, top, NODE_HEADER + MEM_RANGE_DATA)
  }

  /** Adds a range, and says what becomes of base memory. */
  method Report(bp: Bparms, range: MemRange) returns (ok: bool)
    requires bp.Valid()
    modifies bp, bp.bm, bp.bm.blk
    ensures bp.Valid() && bp.bm.top == old(bp.bm.top)
    ensures Reported(old(bp.bm.View()), old(bp.bm.used), bp.bm.View(), bp.bm.used, bp.bm.top)
    ensures ok ==> bp.View() == old(bp.View()) + RangeData(range) && bp.order[..|old(bp.order)|] == old(bp.order)
    ensures !ok ==> NoRoom(bp.bm.View(), bp.bm.top)
  {
    hide BmemOk, Linked, Housed, Eaten, Listed, MoreBootTime, Reported, HasRoom;
    ReportedNothing(bp.bm.View(), bp.bm.used, bp.bm.top);
    ghost var s, u, bot := bp.bm.View(), bp.bm.used, bp.bm.bot;
    ok := bp.AddMemRange(range);
    ReportedMore(bp.bm.runs, s, u, s, u, bp.bm.View(), bp.bm.used, bot, bp.bm.top);
  }

  /** One descriptor of the loop over extended memory, in 64-bit arithmetic. */
  method AddExtendedPart(bp: Bparms, d: Desc) returns (ok: bool)
    requires bp.Valid() && DescOk(d)
    modifies bp, bp.bm, bp.bm.blk
    ensures bp.Valid() && bp.bm.top == old(bp.bm.top)
    ensures Reported(old(bp.bm.View()), old(bp.bm.used), bp.bm.View(), bp.bm.used, bp.bm.top)
    ensures ok ==> bp.View() == old(bp.View()) + ExtendedPart(d) && bp.order[..|old(bp.order)|] == old(bp.order)
    ensures !ok ==> NoRoom(bp.bm.View(), bp.bm.top)
  {
    hide NoRoom, BmemOk, Linked, Housed, Listed, Reported;
    var start, end := d.start, (d.start + d.pages * PAGE_SIZE) % TWO64;
    if end <= BMEM_MAX_ADDR && end != 0 {
      ReportedNothing(bp.bm.View(), bp.bm.used, bp.bm.top);
      return true;
    }
    if start < BMEM_MAX_ADDR {
      start := BMEM_MAX_ADDR;
    }
    ok := Report(bp, MemRange(start, (end - start) % TWO64, E820Of(d.kind), 1, d.attr));
  }

  lemma NoExtended(ds: seq<Desc>)
    ensures ExtendedData(ds, 0) == []
  {
  }

  lemma MoreExtended(before: seq<Data>, ds: seq<Desc>, i: nat)
    requires i < |ds|
    ensures before + ExtendedData(ds, i) + ExtendedPart(ds[i]) == before + ExtendedData(ds, i + 1)
  {
    hide ExtendedPart;
  }

  lemma ExtendedAppended(before: seq<Data>, ds: seq<Desc>)
    ensures before <= before + ExtendedData(ds, |ds|)
    ensures ExtendedPartTold((before + ExtendedData(ds, |ds|))[|before|..], ds)
  {
    hide ExtendedPartTold, BasePartTold, ExtendedData;
    DescriptorsTold(ds);
    assert (before + ExtendedData(ds, |ds|))[|before|..] == ExtendedData(ds, |ds|);
  }

  lemma NoUefi(ds: seq<Desc>)
    ensures UefiData(ds, 0) == []
  {
  }

  lemma MoreUefi(before: seq<Data>, ds: seq<Desc>, i: nat)
    requires i < |ds|
    ensures before + UefiData(ds, i) + UefiPart(ds[i]) == before + UefiData(ds, i + 1)
  {
    hide UefiPart;
  }

  lemma UefiAppended(before: seq<Data>, ds: seq<Desc>)
    ensures before <= before + UefiData(ds, |ds|)
    ensures BasePartTold((before + UefiData(ds, |ds|))[|before|..], ds)
  {
    hide ExtendedPartTold, BasePartTold, UefiData;
    DescriptorsTold(ds);
    assert (before + UefiData(ds, |ds|))[|before|..] == UefiData(ds, |ds|);
  }

  /** Reports extended memory. */
  method AddExtended(bp: Bparms, ds: seq<Desc>) returns (ok: bool)
    requires bp.Valid() && DescsOk(ds)
    modifies bp, bp.bm, bp.bm.blk
    ensures bp.Valid() && bp.bm.top == old(bp.bm.top)
    ensures Reported(old(bp.bm.View()), old(bp.bm.used), bp.bm.View(), bp.bm.used, bp.bm.top)
    ensures ok ==> bp.View() == old(bp.View()) + ExtendedData(ds, |ds|)
    ensures ok ==> old(bp.View()) <= bp.View() && ExtendedPartTold(bp.View()[|old(bp.View())|..], ds)
    ensures !ok ==> NoRoom(bp.bm.View(), bp.bm.top)
  {
    hide ExtendedPartTold, ExtendedData;
    hide NoRoom, BmemOk, Linked, Housed, Listed, Reported, ExtendedPart, DescsOk, DescOk;
    NoExtended(ds);
    ReportedNothing(bp.bm.View(), bp.bm.used, bp.bm.top);
    for i := 0 to |ds|
      invariant bp.Valid() && bp.bm.top == old(bp.bm.top)
      invariant Reported(old(bp.bm.View()), old(bp.bm.used), bp.bm.View(), bp.bm.used, bp.bm.top)
      invariant bp.View() == old(bp.View()) + ExtendedData(ds, i)
    {
      ghost var s, u := bp.bm.View(), bp.bm.used;
      DescOf(ds, i);
      ok := AddExtendedPart(bp, ds[i]);
      ReportedTwice(old(bp.bm.View()), old(bp.bm.used), s, u, bp.bm.View(), bp.bm.used, bp.bm.top);
      if !ok {
        return;
      }
      MoreExtended(old(bp.View()), ds, i);
    }
    ExtendedAppended(old(bp.View()), ds);
    ok := true;
  }

  /** One descriptor of the loop over unusable base memory. */
  method AddUefiPart(bp: Bparms, d: Desc) returns (ok: bool)
    requires bp.Valid() && DescOk(d)
    modifies bp, bp.bm, bp.bm.blk
    ensures bp.Valid() && bp.bm.top == old(bp.bm.top)
    ensures Reported(old(bp.bm.View()), old(bp.bm.used), bp.bm.View(), bp.bm.used, bp.bm.top)
    ensures ok ==> bp.View() == old(bp.View()) + UefiPart(d) && bp.order[..|old(bp.order)|] == old(bp.order)
    ensures !ok ==> NoRoom(bp.bm.View(), bp.bm.top)
  {
    hide NoRoom, BmemOk, Linked, Housed, Listed, Reported;
    if d.start >= BMEM_MAX_ADDR {
      ReportedNothing(bp.bm.View(), bp.bm.used, bp.bm.top);
      return true;
    }
    var sz := d.pages * PAGE_SIZE % TWO64;
    if sz > BMEM_MAX_ADDR - d.start {
      sz := BMEM_MAX_ADDR - d.start;
    }
    if IsUsable(d.kind) {
      ReportedNothing(bp.bm.View(), bp.bm.used, bp.bm.top);
      return true;
    }
    ok := Report(bp, MemRange(d.start, sz, E820Of(d.kind), 1, d.attr));
  }

  /** add_uefi_mem_bparms. */
  method AddUefi(bp: Bparms, ds: seq<Desc>) returns (ok: bool)
    requires bp.Valid() && DescsOk(ds)
    modifies bp, bp.bm, bp.bm.blk
    ensures bp.Valid() && bp.bm.top == old(bp.bm.top)
    ensures Reported(old(bp.bm.View()), old(bp.bm.used), bp.bm.View(), bp.bm.used, bp.bm.top)
    ensures ok ==> bp.View() == old(bp.View()) + UefiData(ds, |ds|) && |bp.order| >= |old(bp.order)|
    ensures ok ==> bp.order[..|old(bp.order)|] == old(bp.order)
    ensures ok ==> old(bp.View()) <= bp.View() && BasePartTold(bp.View()[|old(bp.View())|..], ds)
    ensures !ok ==> NoRoom(bp.bm.View(), bp.bm.top)
  {
    hide BasePartTold, UefiData;
    hide NoRoom, BmemOk, Linked, Housed, Listed, Reported, UefiPart, DescsOk, DescOk;
    NoUefi(ds);
    ReportedNothing(bp.bm.View(), bp.bm.used, bp.bm.top);
    for i := 0 to |ds|
      invariant bp.Valid() && bp.bm.top == old(bp.bm.top)
      invariant Reported(old(bp.bm.View()), old(bp.bm.used), bp.bm.View(), bp.bm.used, bp.bm.top)
      invariant bp.View() == old(bp.View()) + UefiData(ds, i) && |bp.order| >= |old(bp.order)|
      invariant bp.order[..|old(bp.order)|] == old(bp.order)
    {
      ghost var s, u, o := bp.bm.View(), bp.bm.used, bp.order;
      DescOf(ds, i);
      ok := AddUefiPart(bp, ds[i]);
      ReportedTwice(old(bp.bm.View()), old(bp.bm.used), s, u, bp.bm.View(), bp.bm.used, bp.bm.top);
      if !ok {
        return;
      }
      MoreUefi(old(bp.View()), ds, i);
      assert bp.order[..|old(bp.order)|] == o[..|old(bp.order)|];
    }
    UefiAppended(old(bp.View()), ds);
    ok := true;
  }

  // ---------------------------------------------------------------------------------------
  // add_our_mem_bparms

  /** The state of the loop over the blocks s0: block idx of the present table t is next, and
      the blocks numbered in seen have been read. */
  ghost predicate Reading(s0: seq<Blk>, t: seq<Blk>, idx: nat, first: nat, seen: seq<nat>) {
    && TailKept(s0, t, idx) && SeenOk(s0, seen, first) && idx == first + |seen|
    && (seen != [] ==> seen[|seen| - 1] < idx + |s0| - |t|)
  }

  lemma ReadOn(s0: seq<Blk>, t: seq<Blk>, t1: seq<Blk>, t2: seq<Blk>, top: nat, idx: nat, first: nat, seen: seq<nat>)
    requires Reading(s0, t, idx, first, seen) && AllAbove(s0, top, first) && idx < |t|
    requires t[idx].start <= t[idx].end <= t[idx].origEnd
    requires Eaten(t, t1, top) && Eaten(t1, t2, top)
    ensures Reading(s0, t2, idx + 1, first, seen + [idx + |s0| - |t|]) && |t2| <= |s0|
    ensures SeenOk(s0, seen + [idx + |s0| - |t|], first)
    ensures t[idx] == s0[idx + |s0| - |t|]
  {
    hide Eaten;
    var seen1 := seen + [idx + |s0| - |t|];
    assert t[idx] == s0[idx + |s0| - |t|];
    TailStaysKept(s0, t, t1, top, idx, first);
    TailStaysKept(s0, t1, t2, top, idx, first);
    forall i, j | 0 <= i < j < |seen1| ensures seen1[i] < seen1[j] {
      assert i < |seen| - 1 ==> seen[i] < seen[|seen| - 1];
    }
    EatenKeepsTail(t, t1, top, idx);
    assert AllAbove(t1, top, idx);
    EatenKeepsTail(t1, t2, top, idx);
  }

  lemma BlksDataStep(s: seq<Blk>, seen: seq<nat>, k: nat, first: nat, attr: nat, b: Blk, before: seq<Data>)
    requires SeenOk(s, seen, first) && SeenOk(s, seen + [k], first)
    requires k < |s| && b == s[k] && b.start <= b.end <= b.origEnd
    ensures SeenOk(s, seen, 0) && SeenOk(s, seen + [k], 0)
    ensures before + BlksData(s, seen, attr) + BlkData(b, attr) == before + BlksData(s, seen + [k], attr)
  {
    hide BlkData;
    assert (seen + [k])[..|seen|] == seen;
  }

  /** Reports one block, which was read from the table before. */
  method ReportBlk(bp: Bparms, b: Blk, attr: nat) returns (ok: bool, ghost between: seq<Blk>)
    requires bp.Valid() && b.start <= b.end <= b.origEnd
    modifies bp, bp.bm, bp.bm.blk
    ensures bp.Valid() && bp.bm.top == old(bp.bm.top)
    ensures Reported(old(bp.bm.View()), old(bp.bm.used), bp.bm.View(), bp.bm.used, bp.bm.top)
    ensures ok ==> Eaten(old(bp.bm.View()), between, bp.bm.top) && Eaten(between, bp.bm.View(), bp.bm.top)
    ensures ok ==> bp.View() == old(bp.View()) + BlkData(b, attr)
    ensures ok ==> bp.bm.View() == TakeRanges(old(bp.bm.View()), bp.bm.top, PartsOf(b))
    ensures ok ==> bp.order[..|old(bp.order)|] == old(bp.order)
    ensures !ok ==> NoRoom(bp.bm.View(), bp.bm.top)
  {
    hide BmemOk, Linked, Housed, Listed, Eaten, Reported, RangeData, MoreBootTime, HasRoom, TakeNode;
    ReportedNothing(bp.bm.View(), bp.bm.used, bp.bm.top);
    ghost var s, u, bot, o := bp.bm.View(), bp.bm.used, bp.bm.bot, bp.order;
    ok := bp.AddMemRange(MemRange(b.start, b.end - b.start, E820_RAM, 1, attr));
    between := bp.bm.View();
    ghost var u1, bot1 := bp.bm.used, bp.bm.bot;
    ReportedMore(bp.bm.runs, s, u, s, u, between, u1, bot, bp.bm.top);
    if !ok {
      return;
    }
    ghost var o1 := bp.order;
    ok := bp.AddMemRange(MemRange(b.end, b.origEnd - b.end, E820_RESERVED, 1, attr));
    ReportedMore(bp.bm.runs, s, u, between, u1, bp.bm.View(), bp.bm.used, bot1, bp.bm.top);
    if ok {
      assert bp.order[..|o|] == o1[..|o|];
      BlkTakes(s, between, bp.bm.View(), bp.bm.top, b);
    }
  }

  /** The table after the reports of a block. */
  lemma BlkTakes(s: seq<Blk>, t: seq<Blk>, u: seq<Blk>, top: nat, b: Blk)
    requires t == if b.start < b.end then TakeNode(s, top, NODE_HEADER + MEM_RANGE_DATA) else s
    requires u == if b.end < b.origEnd then TakeNode(t, top, NODE_HEADER + MEM_RANGE_DATA) else t
    ensures u == TakeRanges(s, top, PartsOf(b))
  {
    hide TakeNode;
    assert TakeRanges(s, top, 1) == TakeNode(TakeRanges(s, top, 0), top, NODE_HEADER + MEM_RANGE_DATA);
    assert TakeRanges(s, top, 2) == TakeNode(TakeRanges(s, top, 1), top, NODE_HEADER + MEM_RANGE_DATA);
  }

  lemma SeenStep(s: seq<Blk>, t: seq<Blk>, idx: nat, top: nat)
    requires idx < |t| <= |s|
    ensures SeenFrom(s, t, idx, top)
            == [idx + |s| - |t|] + SeenFrom(s, TakeRanges(t, top, PartsOf(t[idx])), idx + 1, top)
  {
    hide TakeRanges, PartsOf;
  }

  lemma SeenEnds(s: seq<Blk>, t: seq<Blk>, idx: nat, top: nat)
    requires |t| <= idx <= |s|
    ensures SeenFrom(s, t, idx, top) == []
  {
  }

  /** Reports the blocks from first on. Each block that is used up for a report makes the loop
      miss one block at most. */
  method ReportBlocks(bp: Bparms, first: nat) returns (ok: bool, ghost seen: seq<nat>)
    requires bp.Valid() && AllAbove(bp.bm.View(), bp.bm.top, first) && first <= |bp.bm.View()|
    modifies bp, bp.bm, bp.bm.blk
    ensures bp.Valid() && bp.bm.top == old(bp.bm.top)
    ensures Reported(old(bp.bm.View()), old(bp.bm.used), bp.bm.View(), bp.bm.used, bp.bm.top)
    ensures SeenOk(old(bp.bm.View()), seen, first) && SeenOk(old(bp.bm.View()), seen, 0)
    ensures ok ==> bp.View() == old(bp.View()) + BlksData(old(bp.bm.View()), seen, bp.bm.attr)
    ensures ok ==> seen == SeenFrom(old(bp.bm.View()), old(bp.bm.View()), first, bp.bm.top)
    ensures ok ==> bp.bm.num <= first + |seen| && bp.bm.num <= old(bp.bm.num) && |bp.order| >= |old(bp.order)|
    ensures ok ==> bp.order[..|old(bp.order)|] == old(bp.order)
    ensures !ok ==> NoRoom(bp.bm.View(), bp.bm.top)
  {
    hide NoRoom, BmemOk, Linked, Housed, Listed, Eaten, AllAbove, BlksData, BlkData, Reading, SeenOk, Reported,
      SeenFrom, TakeRanges, PartsOf;
    ghost var s0, u0, top := bp.bm.View(), bp.bm.used, bp.bm.top;
    seen := [];
    var idx := first;
    ReadingStarts(s0, first, bp.bm.attr);
    ReportedNothing(s0, u0, top);
    while idx < bp.bm.num
      invariant bp.Valid() && bp.bm.top == top && Reported(s0, u0, bp.bm.View(), bp.bm.used, top)
      invariant Reading(s0, bp.bm.View(), idx, first, seen) && SeenOk(s0, seen, first) && SeenOk(s0, seen, 0)
      invariant bp.View() == old(bp.View()) + BlksData(s0, seen, bp.bm.attr)
      invariant idx == first + |seen| && |bp.bm.View()| <= |s0| && idx <= |s0|
      invariant seen + SeenFrom(s0, bp.bm.View(), idx, top) == SeenFrom(s0, s0, first, top)
      invariant |bp.order| >= |old(bp.order)| && bp.order[..|old(bp.order)|] == old(bp.order)
      decreases |s0| - idx
    {
      ghost var t, u, o := bp.bm.View(), bp.bm.used, bp.order;
      ghost var k: nat := idx + |s0| - |t|;
      Bmem.BlockShape(bp.bm.runs, t, u, bp.bm.bot, top, idx);
      ghost var t1;
      ok, t1 := ReportBlk(bp, bp.bm.blk[idx], bp.bm.attr);
      ReportedTwice(s0, u0, t, u, bp.bm.View(), bp.bm.used, top);
      if !ok {
        return;
      }
      ReadOn(s0, t, t1, bp.bm.View(), top, idx, first, seen);
      BlksDataStep(s0, seen, k, first, bp.bm.attr, t[idx], old(bp.View()));
      assert bp.order[..|old(bp.order)|] == o[..|old(bp.order)|];
      SeenStep(s0, t, idx, top);
      seen := seen + [k];
      idx := idx + 1;
    }
    SeenEnds(s0, bp.bm.View(), idx, top);
    ok := true;
  }

  lemma ReadingStarts(s: seq<Blk>, first: nat, attr: nat)
    ensures Reading(s, s, first, first, []) && SeenOk(s, [], first) && SeenOk(s, [], 0)
    ensures BlksData(s, [], attr) == []
  {
  }

  lemma RamClearStays(l: seq<Data>, lo: nat, hi: nat, u: seq<Use>, v: seq<Use>)
    requires RamClear(l, lo, hi, u) && MoreBootTime(u, v)
    ensures RamClear(l, lo, hi, v)
  {
    forall i | 0 <= i < |l| && l[i].Mrng? && IsRam(l[i].range) ensures ClearOfRunTime(l[i].range, v) {
      ClearStays(l[i].range, u, v);
    }
  }

  lemma ReportedIsMore(s: seq<Blk>, u: seq<Use>, t: seq<Blk>, v: seq<Use>, top: nat)
    requires Reported(s, u, t, v, top)
    ensures MoreBootTime(u, v) && SameAbove(s, t, top)
  {
  }

  lemma BlksSorted(runs: seq<Run>, s: seq<Blk>, used: seq<Use>, bot: nat, top: nat)
    requires BmemOk(runs, s, used, bot, top)
    ensures BlksOk(runs, s)
  {
  }

  /** The base memory ranges that add_our_mem_bparms adds. */
  function OurData(s: seq<Blk>, seen: seq<nat>, top: nat, attr: nat): seq<Data>
    requires SeenOk(s, seen, 0)
  {
    RangeData(MemRange(0, top, E820_RAM, 1, attr)) + BlksData(s, seen, attr)
  }

  /** Of the blocks s at or above the watermark, those numbered in seen were read, as the loop
      must read them, and at most as many missed as blocks were used up: num are left. */
  ghost predicate FewMissed(s: seq<Blk>, seen: seq<nat>, top: nat, num: nat) {
    && SeenOk(s, seen, FirstAbove(s, top, 0)) && SeenOk(s, seen, 0)
    && num <= |s| && |s| - FirstAbove(s, top, 0) - |seen| <= |s| - num
    && seen == SeenFrom(s, s, FirstAbove(s, top, 0), top)
  }

  lemma OursStayFit(runs: seq<Run>, s: seq<Blk>, u: seq<Use>, bot: nat, top: nat, seen: seq<nat>, attr: nat,
                    t: seq<Blk>, v: seq<Use>)
    requires BmemOk(runs, s, u, bot, top) && top <= BMEM_MAX_ADDR && Reported(s, u, t, v, top)
    requires SeenOk(s, seen, FirstAbove(s, top, 0)) && SeenOk(s, seen, 0)
    ensures var l := OurData(s, seen, top, attr);
            Fit(l) && AllInBase(l) && RamClear(l, 0, SeenEnd(s, seen, top), v)
  {
    hide BmemOk, BlksOk, BlksData, RangeData, SeenOk, Reported, Fit, AllInBase, RamClear, SeenEnd, AllAbove, FirstAbove;
    BlksSorted(runs, s, u, bot, top);
    SortedAbove(runs, s, top);
    OursFit(runs, s, u, bot, top, seen, FirstAbove(s, top, 0), attr);
    ReportedIsMore(s, u, t, v, top);
    RamClearStays(OurData(s, seen, top, attr), 0, SeenEnd(s, seen, top), u, v);
  }

  /** The first block at or above the watermark. */
  method FindAbove(bm: Bmem.Bmem) returns (idx: nat)
    requires bm.Valid()
    ensures idx == FirstAbove(bm.View(), bm.top, 0) && idx <= bm.num && AllAbove(bm.View(), bm.top, idx)
  {
    hide BmemOk, BlksOk, AllAbove;
    BlksSorted(bm.runs, bm.View(), bm.used, bm.bot, bm.top);
    SortedAbove(bm.runs, bm.View(), bm.top);
    idx := 0;
    while idx < bm.num && bm.blk[idx].start < bm.top
      invariant idx <= bm.num && FirstAbove(bm.View(), bm.top, 0) == FirstAbove(bm.View(), bm.top, idx)
    {
      idx := idx + 1;
    }
  }

  /** add_our_mem_bparms. */
  method AddOurs(bp: Bparms) returns (ok: bool, ghost s: seq<Blk>, ghost seen: seq<nat>)
    requires bp.Valid()
    modifies bp, bp.bm, bp.bm.blk
    ensures bp.Valid() && bp.bm.top == old(bp.bm.top)
    ensures Reported(old(bp.bm.View()), old(bp.bm.used), bp.bm.View(), bp.bm.used, bp.bm.top)
    ensures ok ==> SameAbove(old(bp.bm.View()), s, bp.bm.top) && FewMissed(s, seen, bp.bm.top, bp.bm.num)
    ensures ok ==> bp.View() == old(bp.View()) + OurData(s, seen, bp.bm.top, bp.bm.attr)
    ensures ok ==> var l := OurData(s, seen, bp.bm.top, bp.bm.attr);
                   Fit(l) && AllInBase(l) && RamClear(l, 0, SeenEnd(s, seen, bp.bm.top), bp.bm.used)
    ensures ok ==> |bp.order| >= |old(bp.order)| && bp.order[..|old(bp.order)|] == old(bp.order)
    ensures !ok ==> NoRoom(bp.bm.View(), bp.bm.top)
  {
    hide NoRoom, BmemOk, Linked, Housed, Listed, AllAbove, BlksData, RangeData, SeenOk, Reported, SameAbove, Fit,
      AllInBase, RamClear, MoreBootTime, SeenEnd, FirstAbove;
    ghost var s0, u0, o, top := bp.bm.View(), bp.bm.used, bp.order, bp.bm.top;
    s, seen := [], [];
    ok := Report(bp, MemRange(0, bp.bm.top, E820_RAM, 1, bp.bm.attr));
    s := bp.bm.View();
    ghost var u, bot, o1 := bp.bm.used, bp.bm.bot, bp.order;
    ReportedIsMore(s0, u0, s, u, top);
    if !ok {
      return;
    }
    var idx := FindAbove(bp.bm);
    ok, seen := ReportBlocks(bp, idx);
    ReportedTwice(s0, u0, s, u, bp.bm.View(), bp.bm.used, top);
    if !ok {
      return;
    }
    OursStayFit(bp.bm.runs, s, u, bot, top, seen, bp.bm.attr, bp.bm.View(), bp.bm.used);
    Assoc(old(bp.View()), RangeData(MemRange(0, top, E820_RAM, 1, bp.bm.attr)), BlksData(s, seen, bp.bm.attr));
    assert bp.order[..|o|] == o1[..|o|];
  }

  // ---------------------------------------------------------------------------------------
  // prepare_to_hand_over

  /** The watermarks as real mode segments. */
  function Segs(bot: nat, top: nat): Data {
    BmemSegs(bot / PARA_SIZE % 0x1_0000, top / PARA_SIZE % 0x1_0000)
  }

  /** The segments say where the watermarks are, unless all of the first MiB is free. */
  lemma SegsAreExact(bot: nat, top: nat)
    requires bot % PARA_SIZE == 0 && top % KIBYTE == 0 && bot < top <= BMEM_MAX_ADDR
    ensures Segs(bot, top).botSeg * PARA_SIZE == bot
    ensures Segs(bot, top).topSeg * PARA_SIZE == top <==> top < BMEM_MAX_ADDR
  {
    var b, t := bot / PARA_SIZE, top / KIBYTE;
    assert bot == b * PARA_SIZE && top == t * KIBYTE;
    MultipleMod(t * 64, PARA_SIZE, 0);
    MultipleMod(0, 0x1_0000, b);
    if t < 1024 {
      MultipleMod(0, 0x1_0000, t * 64);
    } else {
      MultipleMod(1, 0x1_0000, 0);
    }
  }

  /** What holds of memory when stage 2 starts. */
  ghost predicate SafeHandOver(bp: Bparms)
    reads bp, bp.bm
  {
    SafeList(bp.View(), bp.bm.used) && Closed(bp.bm.runs, bp.bm.used, bp.bm.bot, bp.bm.top)
  }

  /** bmem_fini. */
  method BmemFini(bp: Bparms, ds: seq<Desc>) returns (ok: bool, ghost s: seq<Blk>, ghost seen: seq<nat>)
    requires bp.Valid() && DescsOk(ds)
    modifies bp, bp.bm, bp.bm.blk
    ensures Linked(bp.nodes, bp.order, bp.head, bp.tail) && Housed(bp.order, bp.bm.used)
    ensures MoreBootTime(old(bp.bm.used), bp.bm.used)
    ensures ok ==> SameAbove(old(bp.bm.View()), s, old(bp.bm.top)) && FewMissed(s, seen, old(bp.bm.top), bp.bm.num)
    ensures ok ==> bp.View() == old(bp.View()) + UefiData(ds, |ds|) + OurData(s, seen, old(bp.bm.top), bp.bm.attr)
    ensures ok ==> var l := OurData(s, seen, old(bp.bm.top), bp.bm.attr);
                   Fit(l) && AllInBase(l) && RamClear(l, 0, SeenEnd(s, seen, old(bp.bm.top)), bp.bm.used)
    ensures ok ==> |bp.order| >= |old(bp.order)| && bp.order[..|old(bp.order)|] == old(bp.order)
    ensures ok ==> bp.bm.top == MaskDown(old(bp.bm.top), KIBYTE) && Closed(bp.bm.runs, bp.bm.used, bp.bm.bot, bp.bm.top)
    ensures !ok ==> NoRoom(bp.bm.View(), bp.bm.top) || TooLittle(bp.bm.bot, bp.bm.top)
  {
    hide NoRoom, BmemOk, Linked, Housed, Listed, Reported, Fit, AllInBase, RamClear, OurData, SeenEnd, SeenOk, UefiData;
    hide MaskDown, AlignUp, UsesOk, MoreBootTime, SameAbove, DescsOk, FewMissed;
    ghost var s0, u0, o, top := bp.bm.View(), bp.bm.used, bp.order, bp.bm.top;
    s, seen := [], [];
    ok := AddUefi(bp, ds);
    ghost var s1, u1, o1 := bp.bm.View(), bp.bm.used, bp.order;
    ReportedIsMore(s0, u0, s1, u1, top);
    if !ok {
      return;
    }
    ok, s, seen := AddOurs(bp);
    ReportedTwice(s0, u0, s1, u1, bp.bm.View(), bp.bm.used, top);
    ReportedIsMore(s0, u0, bp.bm.View(), bp.bm.used, top);
    if !ok {
      return;
    }
    SameIsTransitive(s0, s1, s, top);
    assert bp.order[..|o|] == o1[..|o|];
    ok := bp.bm.CloseOff();
  }

  predicate TooLittle(bot: nat, top: nat) {
    top < 192 * KIBYTE || bot + 128 * KIBYTE > top
  }

  lemma SameIsTransitive(s: seq<Blk>, t: seq<Blk>, u: seq<Blk>, top: nat)
    requires SameAbove(s, t, top) && SameAbove(t, u, top)
    ensures SameAbove(s, u, top)
  {
  }

  ghost predicate Closed(runs: seq<Run>, used: seq<Use>, bot: nat, top: nat) {
    && UsesOk(runs, used, bot, top) && bot % PARA_SIZE == 0 && top % KIBYTE == 0
    && 192 * KIBYTE <= top && bot + 128 * KIBYTE <= top
  }

  /** prepare_to_hand_over. */
  method PrepareToHandOver(bp: Bparms, ds: seq<Desc>)
    returns (ok: bool, ghost s: seq<Blk>, ghost seen: seq<nat>)
    requires bp.Valid() && DescsOk(ds) && NoRanges(bp.View())
    modifies bp, bp.bm, bp.bm.blk
    ensures ok ==> SafeHandOver(bp) && MoreBootTime(old(bp.bm.used), bp.bm.used)
    ensures !ok ==> NoRoom(bp.bm.View(), bp.bm.top) || !HasRoom(bp.bm.View(), bp.bm.top, NODE_HEADER + BMEM_DATA)
                    || TooLittle(bp.bm.bot, bp.bm.top)
    ensures ok ==> bp.bm.top == MaskDown(old(bp.bm.top), KIBYTE)
    ensures ok ==> SameAbove(old(bp.bm.View()), s, old(bp.bm.top)) && FewMissed(s, seen, old(bp.bm.top), bp.bm.num)
    ensures ok ==> bp.View() == Handed(old(bp.View()), ds, Segs(bp.bm.bot, bp.bm.top), old(bp.bm.top), bp.bm.attr,
                                       BlksData(s, seen, bp.bm.attr))
    ensures ok ==> AllTold(bp.View(), ds, old(bp.bm.top), bp.bm.attr, s, seen)
    ensures ok ==> old(bp.View()) <= bp.View() && Segs(bp.bm.bot, bp.bm.top) in bp.View()
    ensures ok ==> Linked(bp.nodes, bp.order, bp.head, bp.tail) && Walk(bp.nodes, bp.head, |bp.View()|) == bp.View()
    ensures ok ==> Housed(bp.order, bp.bm.used)
  {
    hide NoRoom, BmemOk, Linked, Housed, Listed, Reported, Fit, AllInBase, RamClear, SeenEnd, SeenOk, ExtendedData,
      UefiData, Handed, OurData, SafeList, RunsOk;
    hide MaskDown, MoreBootTime, SameAbove, DescsOk, FewMissed, NoRanges, Walk, Closed, BlksData, Eaten, HasRoom,
      TakeNode, TooLittle, AllTold, ExtendedPartTold;
    ghost var before, s0, u0, top := bp.View(), bp.bm.View(), bp.bm.used, bp.bm.top;
    s, seen := [], [];
    RunsAreOk(bp.bm.runs, s0, u0, bp.bm.bot, top);
    ok := AddExtended(bp, ds);
    if !ok {
      return;
    }
    ghost var s1, u1, bot1 := bp.bm.View(), bp.bm.used, bp.bm.bot;
    var p;
    ok, p := bp.Add(BMEM_DATA);
    if !ok {
      return;
    }
    ReportedMore(bp.bm.runs, s0, u0, s1, u1, bp.bm.View(), bp.bm.used, bot1, top);
    ghost var s2, u2, k := bp.bm.View(), bp.bm.used, |bp.order| - 1;
    ReportedIsMore(s0, u0, s2, u2, top);
    ok, s, seen := BmemFini(bp, ds);
    if !ok {
      return;
    }
    SameIsTransitive(s0, s2, s, top);
    SeenIsOk(s, seen, top, bp.bm.num);
    MoreIsTransitive(u0, u2, bp.bm.used);
    bp.Fill(p, k, Segs(bp.bm.bot, bp.bm.top));
    HandedAfterFill(before, ds, BMEM_DATA, Segs(bp.bm.bot, bp.bm.top), s, seen, top, bp.bm.attr);
    HandedIsSafe(before, ds, Segs(bp.bm.bot, bp.bm.top), s, seen, top, bp.bm.attr,
      bp.bm.runs, bp.bm.used, bp.bm.bot, bp.bm.top);
    OursInBase(s, seen, top, bp.bm.attr);
    AllIsTold(before, ds, Segs(bp.bm.bot, bp.bm.top), top, bp.bm.attr, s, seen);
    WalkIsListed(bp.nodes, bp.order, bp.head, bp.tail, |bp.View()|);
  }

  lemma OursInBase(s: seq<Blk>, seen: seq<nat>, top: nat, attr: nat)
    requires SeenOk(s, seen, 0) && AllInBase(OurData(s, seen, top, attr))
    ensures AllInBase(RangeData(MemRange(0, top, E820_RAM, 1, attr)) + BlksData(s, seen, attr))
  {
    hide RangeData, BlksData, AllInBase;
  }

  lemma RunsAreOk(runs: seq<Run>, s: seq<Blk>, used: seq<Use>, bot: nat, top: nat)
    requires BmemOk(runs, s, used, bot, top)
    ensures RunsOk(runs)
  {
  }

  lemma SeenIsOk(s: seq<Blk>, seen: seq<nat>, top: nat, num: nat)
    requires FewMissed(s, seen, top, num)
    ensures SeenOk(s, seen, 0)
  {
  }

  lemma HandedAfterFill(before: seq<Data>, ds: seq<Desc>, size: nat, segs: Data, s: seq<Blk>, seen: seq<nat>,
                        top: nat, attr: nat)
    requires SeenOk(s, seen, 0)
    ensures var l := before + ExtendedData(ds, |ds|);
            (l + [Zeros(size)] + UefiData(ds, |ds|) + OurData(s, seen, top, attr))[|l| := segs]
            == Handed(before, ds, segs, top, attr, BlksData(s, seen, attr))
  {
    hide ExtendedData, UefiData, RangeData, BlksData, SeenOk;
  }

  /** What SafeHandOver says, of values. */
  ghost predicate SafeList(l: seq<Data>, used: seq<Use>) {
    && Init.BootMapOk(AsParams(l))
    && forall i :: 0 <= i < |l| && l[i].Mrng? && IsRam(l[i].range) ==> ClearOfRunTime(l[i].range, used)
  }

  lemma HandedIsSafe(before: seq<Data>, ds: seq<Desc>, segs: Data, s: seq<Blk>, seen: seq<nat>, top: nat, attr: nat,
                     runs: seq<Run>, used: seq<Use>, bot: nat, top1: nat)
    requires NoRanges(before) && !segs.Mrng? && DescsOk(ds) && SeenOk(s, seen, 0)
    requires RunsOk(runs) && Closed(runs, used, bot, top1) && top1 <= top
    requires var l := OurData(s, seen, top, attr); Fit(l) && AllInBase(l) && RamClear(l, 0, SeenEnd(s, seen, top), used)
    ensures SafeList(Handed(before, ds, segs, top, attr, BlksData(s, seen, attr)), used)
  {
    hide NoRanges, DescsOk, RunsOk, UsesOk, Handed, Fit, AllInBase, RamClear, BlksData, RangeData, Init.BootMapOk,
      ClearOfRunTime, SeenOk;
    HandedIsBootMap(before, ds, segs, top, attr, BlksData(s, seen, attr));
    HandedIsClear(before, ds, segs, top, attr, BlksData(s, seen, attr), SeenEnd(s, seen, top), runs, used, bot, top1);
  }
}

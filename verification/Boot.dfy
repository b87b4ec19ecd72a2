/** From the end of stage 1 to the start of stage 2's run (stage1/main.c:438-505,
    stage2/mem.c:432-437). */
module Boot {
  import opened Machine
  import opened MemMap
  import opened BmemSpec
  import opened Bparm
  import opened HandOver
  import opened Reporting
  import Init = MemMapInit
  import M = MemInit
  import PageTable
  import ShellSort
  import Paging
  import PhysMap
  import VS = VaSpace
  import VI = VaInit
  import VN = VaNeeds
  import VR = VaReady

  /** No RAM among the parameters overlaps [lo, hi). */
  ghost predicate ParamsClear(bps: seq<Init.BootParam>, lo: int, hi: int) {
    forall k :: 0 <= k < |bps| && Init.NonEmpty(bps[k]) && IsRam(bps[k].range) ==>
      hi <= bps[k].range.start || End(bps[k].range) <= lo
  }

  lemma ListIsClear(l: seq<Data>, used: seq<Use>, k: nat)
    requires SafeList(l, used) && k < |used| && used[k].runTime && used[k].start < used[k].end
    ensures ParamsClear(AsParams(l), used[k].start, used[k].end)
  {
    var ps := AsParams(l);
    forall i | 0 <= i < |ps| && Init.NonEmpty(ps[i]) && IsRam(ps[i].range)
      ensures used[k].end <= ps[i].range.start || End(ps[i].range) <= used[k].start
    {
      assert ClearOfRunTime(l[i].range, used);
    }
  }

  /** The copied map has RAM only where the parameters have. */
  lemma CopiedIsClear(bps: seq<Init.BootParam>, chosen: nat, need: nat, lo: int, hi: int)
    requires Init.BootMapOk(bps) && ParamsClear(bps, lo, hi)
    requires chosen < |bps| && Init.Eligible(bps[chosen], need) && need > 0
    ensures NoRam(Init.Copied(bps, |bps|, chosen, need), lo, hi)
  {
    hide Init.BootMapOk, Init.Copied;
    var s := Init.Copied(bps, |bps|, chosen, need);
    Init.CopiedOk(bps, |bps|, chosen, need);
    forall i | 0 <= i < |s| && IsRam(s[i]) ensures hi <= s[i].start || End(s[i]) <= lo {
      assert Init.PartOfFirst(s[i], bps, |bps|);
      var k :| 0 <= k < |bps| && Init.PartOf(s[i], bps[k]);
    }
  }

  /** Nor has the map of stage 2, however far it has been cut since. */
  lemma MapIsClear(bps: seq<Init.BootParam>, chosen: nat, need: nat, s: seq<MemRange>, t: seq<MemRange>, lo: int,
                   hi: int)
    requires Init.BootMapOk(bps) && ParamsClear(bps, lo, hi)
    requires chosen < |bps| && Init.Eligible(bps[chosen], need) && need > 0
    requires multiset(s) == multiset(Init.Copied(bps, |bps|, chosen, need)) && Paging.Later(s, t)
    ensures NoRam(t, lo, hi)
  {
    hide Init.BootMapOk, Init.Copied, NoRam;
    CopiedIsClear(bps, chosen, need, lo, hi);
    Init.NoRamPermuted(Init.Copied(bps, |bps|, chosen, need), s, lo, hi);
    VI.StaysOff(s, t, lo, hi);
  }

  // ---------------------------------------------------------------------------------------
  // What stage 2 still reads: the parameters, in memory that is reported as RAM

  /** No boot-time use overlaps [lo, hi); every node of the list is one. */
  ghost predicate BootTimeMissed(used: seq<Use>, lo: int, hi: int) {
    forall k :: 0 <= k < |used| && !used[k].runTime && used[k].start < used[k].end ==>
      used[k].end <= lo || hi <= used[k].start
  }

  ghost predicate BootTimeBelow(used: seq<Use>, lo: int) {
    forall k :: 0 <= k < |used| && !used[k].runTime && used[k].start < used[k].end ==> used[k].end <= lo
  }

  /** The nodes of the list. */
  lemma NodesAreMissed(order: seq<nat>, used: seq<Use>, lo: int, hi: int)
    requires Housed(order, used) && BootTimeMissed(used, lo, hi)
    ensures forall i :: 0 <= i < |order| ==> order[i] + NODE_HEADER <= lo || hi <= order[i]
  {
    forall i | 0 <= i < |order| ensures order[i] + NODE_HEADER <= lo || hi <= order[i] {
      assert IsNodeOf(order[i], used);
    }
  }

  /** The entry for base memory up to the run-time watermark. */
  predicate IsBaseEntry(d: Data, bot: nat) {
    d.Mrng? && IsRam(d.range) && d.range.start == 0 && d.range.len > 0 && bot <= d.range.len
  }

  ghost predicate HasBaseEntry(l: seq<Data>, bot: nat) {
    exists i :: 0 <= i < |l| && IsBaseEntry(l[i], bot)
  }

  lemma HandedHasBase(before: seq<Data>, ds: seq<Desc>, segs: Data, top: nat, attr: nat, blks: seq<Data>, bot: nat)
    requires bot <= top && top > 0
    ensures HasBaseEntry(Handed(before, ds, segs, top, attr, blks), bot)
  {
    hide ExtendedData, UefiData;
    var l := Handed(before, ds, segs, top, attr, blks);
    var i := |before + ExtendedData(ds, |ds|) + [segs] + UefiData(ds, |ds|)|;
    assert RangeData(MemRange(0, top, E820_RAM, 1, attr)) == [Mrng(MemRange(0, top, E820_RAM, 1, attr))];
    assert IsBaseEntry(l[i], bot);
  }

  /** As RAM ranges do not overlap, all end at or above that watermark. */
  lemma RamEndsAbove(l: seq<Data>, bot: nat, c: nat)
    requires Init.BootMapOk(AsParams(l)) && HasBaseEntry(l, bot) && c < |l|
    requires Init.NonEmpty(AsParams(l)[c]) && IsRam(AsParams(l)[c].range)
    ensures bot <= End(AsParams(l)[c].range)
  {
    var bps := AsParams(l);
    var i :| 0 <= i < |l| && IsBaseEntry(l[i], bot);
    assert bps[i] == Init.Mrng(l[i].range);
    if c < i {
      assert Init.Compatible(bps[c].range, bps[i].range);
    } else if i < c {
      assert Init.Compatible(bps[i].range, bps[c].range);
    }
  }

  /** The map misses what stage 2 still reads if and only if all of that lies below the map; which is
      so if the bottom watermark is no higher than the map. */
  lemma MapMissesIff(runs: seq<Run>, used: seq<Use>, bot: nat, top: nat, at: int, end: int)
    requires UsesOk(runs, used, bot, top) && bot <= end
    ensures BootTimeMissed(used, at, end) <==> BootTimeBelow(used, at)
    ensures bot <= at ==> BootTimeBelow(used, at)
  {
    forall k | 0 <= k < |used| ensures used[k].runTime || used[k].end <= bot {
      assert UseOk(used[k], bot, top);
    }
  }

  /** What lies in extended memory, it misses. */
  lemma ExtendedMisses(runs: seq<Run>, used: seq<Use>, bot: nat, top: nat, lo: nat, hi: nat)
    requires UsesOk(runs, used, bot, top) && bot <= BMEM_MAX_ADDR <= lo
    ensures BootTimeMissed(used, lo, hi)
  {
    forall k | 0 <= k < |used| ensures used[k].runTime || used[k].end <= bot {
      assert UseOk(used[k], bot, top);
    }
  }

  /** Where the map goes, and what that means for what stage 2 still reads of base memory. */
  ghost predicate MapMisses(bp: Bparms, chosen: MemRange, need: nat, at: nat)
    reads bp, bp.bm
  {
    && at == End(chosen) - need
    && (BootTimeMissed(bp.bm.used, at, End(chosen)) <==> BootTimeBelow(bp.bm.used, at))
    && (bp.bm.bot <= at ==> BootTimeBelow(bp.bm.used, at))
    && (bp.bm.bot <= at <==> chosen.start >= BMEM_MAX_ADDR || bp.bm.bot + need <= End(chosen))
  }

  /** No table, and not the list of holes, overlaps it either. */
  ghost predicate TablesMiss(bp: Bparms, vs: VS.VaSpace)
    reads bp, bp.bm, vs, vs.pg
  {
    && BootTimeMissed(bp.bm.used, vs.pg.pdpt, vs.pg.pdpt + 32)
    && BootTimeMissed(bp.bm.used, vs.listAt, vs.ListEnd())
    && forall f :: f in vs.pg.owner ==> BootTimeMissed(bp.bm.used, f, f + 0x1000)
  }

  lemma ExtendedTablesMiss(bp: Bparms, vs: VS.VaSpace)
    requires Closed(bp.bm.runs, bp.bm.used, bp.bm.bot, bp.bm.top) && bp.bm.bot <= BMEM_MAX_ADDR
    requires VN.AllExtended(vs.pg.pdpt, vs.pg.owner, vs.listAt)
    ensures TablesMiss(bp, vs)
  {
    hide BootTimeMissed, UsesOk;
    ExtendedMisses(bp.bm.runs, bp.bm.used, bp.bm.bot, bp.bm.top, vs.pg.pdpt, vs.pg.pdpt + 32);
    ExtendedMisses(bp.bm.runs, bp.bm.used, bp.bm.bot, bp.bm.top, vs.listAt, vs.ListEnd());
    forall f | f in vs.pg.owner ensures BootTimeMissed(bp.bm.used, f, f + 0x1000) {
      ExtendedMisses(bp.bm.runs, bp.bm.used, bp.bm.bot, bp.bm.top, f, f + 0x1000);
    }
  }

  lemma MapIsPlaced(bp: Bparms, l: seq<Data>, chosen: int)
    requires SafeList(l, bp.bm.used) && Closed(bp.bm.runs, bp.bm.used, bp.bm.bot, bp.bm.top)
    requires HasBaseEntry(l, bp.bm.bot) && bp.bm.bot <= BMEM_MAX_ADDR
    requires Init.HighestEligible(AsParams(l), |AsParams(l)|, M.Need(AsParams(l)), chosen) && chosen != -1
    ensures 0 <= chosen < |AsParams(l)| && AsParams(l)[chosen].Mrng?
    ensures var r, need := AsParams(l)[chosen].range, M.Need(AsParams(l));
            need <= End(r) && MapMisses(bp, r, need, End(r) - need)
  {
    hide Init.BootMapOk, Init.Count, Init.Room, BootTimeMissed, BootTimeBelow, UsesOk, HasBaseEntry, AsParams;
    var bps := AsParams(l);
    Init.RoomIsPositive(Init.Count(bps, |bps|));
    Init.ChosenEligible(bps, M.Need(bps), chosen);
    ParamsLength(l);
    SafeIsBootMap(l, bp.bm.used);
    RamEndsAbove(l, bp.bm.bot, chosen);
    var r, need := bps[chosen].range, M.Need(bps);
    MapMissesIff(bp.bm.runs, bp.bm.used, bp.bm.bot, bp.bm.top, End(r) - need, End(r));
  }

  lemma ParamsLength(l: seq<Data>)
    ensures |AsParams(l)| == |l|
  {
  }

  // ---------------------------------------------------------------------------------------

  /** Base memory has no room left for a parameter, or too little is left of it. */
  ghost predicate HandOverFails(bp: Bparms)
    reads bp, bp.bm, bp.bm.blk
  {
    NoRoom(bp.bm.View(), bp.bm.top) || !HasRoom(bp.bm.View(), bp.bm.top, NODE_HEADER + BMEM_DATA)
    || TooLittle(bp.bm.bot, bp.bm.top)
  }

  ghost predicate NoRangeForMap(bps: seq<Init.BootParam>) {
    Init.HighestEligible(bps, |bps|, M.Need(bps), -1)
  }

  /** Stage 1 hands over and stage 2 sets up memory. If neither gives up, stage 2 has a valid
      address space, and no RAM that it could hand out overlaps what stage 1 allocated for run
      time. The parameters lie in memory that is reported as RAM: stage 2 leaves them alone if the
      map goes above the bottom watermark and there is enough extended memory for the rest. */
  method Boot(bp: Bparms, ds: seq<Desc>, mem0: PageTable.Memory)
    returns (r: Outcome, mm: PhysMap.PhysMap?, vs: VS.VaSpace?, ghost chosen: int, ghost s: seq<MemRange>,
             ghost attrs: VR.Attributes)
    requires bp.Valid() && DescsOk(ds) && NoRanges(bp.View())
    modifies bp, bp.bm, bp.bm.blk
    ensures r == Done ==>
              && mm != null && vs != null && M.FirstMap(AsParams(bp.View()), chosen, s)
              && M.Initialised(AsParams(bp.View()), chosen, s, mm, vs, attrs) && KeptOff(mm.View(), bp.bm.used)
    ensures r != Done ==>
              if mm == null then HandOverFails(bp) || NoRangeForMap(AsParams(bp.View()))
              else Paging.NoFrame(mm) || VI.CannotStart(s, mm.ranges.Length) || VI.NoHole(s)
    ensures mm != null ==>
              && Housed(bp.order, bp.bm.used) && M.FirstMap(AsParams(bp.View()), chosen, s)
              && MapMisses(bp, AsParams(bp.View())[chosen].range, M.Need(AsParams(bp.View())), mm.at)
    ensures mm != null && M.Suffices(s, mm) ==> r == Done && TablesMiss(bp, vs)
  {
    hide Linked, Housed, Listed, NoRanges, DescsOk, SafeList, Closed, Init.BootMapOk, VR.Ready, Paging.Later,
      SortedByStart, Init.Copied, VI.ListGoesTo, VR.PoolEnd, VR.RamEndsBelow, ShellSort.ShellSorted, HasBaseEntry;
    hide Paging.NoFrame, VI.CannotStart, VI.NoHole, HandOverFails;
    hide NoRam, Init.Room, Init.Count, Init.HighestEligible, KeptOff, Walk, BmemOk,
      AsParams, MapMisses, TablesMiss, M.Suffices, M.Need, VN.AllExtended, VI.Covers, VR.Housed, SameBase, M.Initialised,
      M.FirstMap, UsesOk;
    mm, vs, chosen, s, attrs := null, null, -1, [], VR.Attributes(0, [], false, []);
    var ok := Deliver(bp, ds);
    if !ok {
      return Halted, null, null, chosen, s, attrs;
    }
    var l := ReadList(bp);
    SafeIsBootMap(l, bp.bm.used);
    var c;
    r, mm, vs, c, s, attrs := M.MemInit(AsParams(l), mem0);
    chosen := c;
    if mm != null {
      MapIsPlaced(bp, l, c);
      if M.Suffices(s, mm) {
        ExtendedTablesMiss(bp, vs);
      }
    }
    if r == Done {
      AllKeptOff(l, bp.bm.used, chosen, s, mm.View());
    }
  }

  /** The part of stage 1. */
  method Deliver(bp: Bparms, ds: seq<Desc>) returns (ok: bool)
    requires bp.Valid() && DescsOk(ds) && NoRanges(bp.View())
    modifies bp, bp.bm, bp.bm.blk
    ensures ok ==>
              && SafeHandOver(bp) && HasBaseEntry(bp.View(), bp.bm.bot) && bp.bm.bot <= BMEM_MAX_ADDR
              && Linked(bp.nodes, bp.order, bp.head, bp.tail) && Housed(bp.order, bp.bm.used)
              && Walk(bp.nodes, bp.head, |bp.View()|) == bp.View()
    ensures !ok ==> HandOverFails(bp)
  {
    hide BmemOk, Linked, Housed, Listed, NoRanges, DescsOk, SafeList, NoRoom, HasRoom, TooLittle, TakeNode, Handed,
      FewMissed, SameAbove, MoreBootTime, HasBaseEntry, Walk, UsesOk, BlksData, MaskDown;
    ghost var top, before := bp.bm.top, bp.View();
    ghost var blks, seen;
    ok, blks, seen := PrepareToHandOver(bp, ds);
    if ok {
      SeenIsOk(blks, seen, top, bp.bm.num);
      HandedHasBase(before, ds, Segs(bp.bm.bot, bp.bm.top), top, bp.bm.attr, BlksData(blks, seen, bp.bm.attr),
        bp.bm.bot);
    }
  }

  /** RAM that is still to be handed out overlaps no run-time use. */
  ghost predicate KeptOff(t: seq<MemRange>, used: seq<Use>) {
    forall k :: 0 <= k < |used| && used[k].runTime && used[k].start < used[k].end ==>
      NoRam(t, used[k].start, used[k].end)
  }

  lemma SafeIsBootMap(l: seq<Data>, used: seq<Use>)
    requires SafeList(l, used)
    ensures Init.BootMapOk(AsParams(l))
  {
  }

  lemma AllKeptOff(l: seq<Data>, used: seq<Use>, chosen: int, s: seq<MemRange>, t: seq<MemRange>)
    requires SafeList(l, used) && M.FirstMap(AsParams(l), chosen, s) && Paging.Later(s, t)
    ensures KeptOff(t, used)
  {
    hide Init.BootMapOk, Paging.Later, Init.Copied, NoRam, ParamsClear, SafeList, Init.Count, AsParams, Init.Room,
      ShellSort.ShellSorted, SortedByStart;
    var bps := AsParams(l);
    Init.RoomIsPositive(Init.Count(bps, |bps|));
    Init.ChosenEligible(bps, M.Need(bps), chosen);
    SafeIsBootMap(l, used);
    forall k | 0 <= k < |used| && used[k].runTime && used[k].start < used[k].end
      ensures NoRam(t, used[k].start, used[k].end)
    {
      ListIsClear(l, used, k);
      MapIsClear(bps, chosen, M.Need(bps), s, t, used[k].start, used[k].end);
    }
  }
}

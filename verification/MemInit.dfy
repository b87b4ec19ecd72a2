/** mem_init: the memory map, then virtual memory (stage2/mem.c:432-437). */
module MemInit {
  import opened Machine
  import opened MemMap
  import opened Reach
  import opened VaPool
  import opened VaTranslation
  import Init = MemMapInit
  import PageTable
  import ShellSort
  import PhysMap
  import Paging
  import VI = VaInit
  import VR = VaReady
  import VN = VaNeeds
  import PO = PassOrder
  import VS = VaSpace

  function Need(bps: seq<Init.BootParam>): nat {
    Init.Room(Init.Count(bps, |bps|)) * Init.RANGE_SIZE
  }

  /** The map of stage 2 before anything is allocated. */
  ghost predicate FirstMap(bps: seq<Init.BootParam>, chosen: int, s: seq<MemRange>) {
    && Init.HighestEligible(bps, |bps|, Need(bps), chosen) && chosen != -1 && SortedByStart(s)
    && multiset(s) == multiset(Init.Copied(bps, |bps|, chosen, Need(bps)))
    && s == ShellSort.ShellSorted(Init.Copied(bps, |bps|, chosen, Need(bps)))
  }

  /** A valid address space over the map s that was sorted first. Its tables and lists can be
      reached if and only if their pages, and the RAM for further tables, are covered; it is
      enough that RAM below 4 GiB, and the map itself, ends below the end of the last hole. */
  ghost predicate Initialised(bps: seq<Init.BootParam>, chosen: int, s: seq<MemRange>, mm: PhysMap.PhysMap,
                              vs: VS.VaSpace, attrs: VR.Attributes)
    requires Init.HighestEligible(bps, |bps|, Need(bps), chosen) && chosen != -1
    reads mm, mm.ranges, vs, vs.ranges, vs.pg, vs.pg.mm, vs.pg.mm.ranges
  {
    && vs.pg.mm == mm && vs.Valid() && vs.live == map[] && vs.base == vs.pg.mem
    && Paging.Later(s, mm.View()) && VR.Ready(vs.pg.mem, vs.pg.pdpt, s, vs.pool, attrs)
    && mm.at == MemMap.End(bps[chosen].range) - Need(bps) && vs.MapEnd() == MemMap.End(bps[chosen].range)
    && mm.ranges.Length * PhysMap.RANGE_SIZE == Need(bps) && VI.ListGoesTo(s, mm.ranges.Length, vs.listAt)
    && VR.Housed(s, vs.pg.pdpt, vs.pg.owner, vs.listAt, vs.ListEnd(), mm.at, vs.MapEnd())
    && (vs.Reachable() <==> VI.Covers(s, vs))
    && (VR.RamEndsBelow(s, VR.PoolEnd(vs.pool)) && vs.MapEnd() <= VR.PoolEnd(vs.pool) ==> vs.Reachable())
  }

  /** There is room for all tables and lists, in extended memory, and some hole for them to leave. */
  ghost predicate Suffices(s: seq<MemRange>, mm: PhysMap.PhysMap)
    reads mm
  {
    VN.Enough(s, mm.ranges.Length) && !VI.NoHole(s)
  }

  /** From boot parameters that describe memory as stage 1 does, mem_init leaves a valid address
      space over a sorted map s of that memory; and neither the bytes that hold the map itself
      nor those of the list of holes are ever RAM that could be handed out, or part of a table. It
      fails only if no range can hold the map, for want of memory for its lists and tables, or if
      there is no hole below 4 GiB. If the map s has enough memory it completes, and all memory
      that it takes is extended memory. */
  method MemInit(bps: seq<Init.BootParam>, mem0: PageTable.Memory)
    returns (r: Outcome, mm: PhysMap.PhysMap?, vs: VS.VaSpace?, chosen: int, ghost s: seq<MemRange>,
             ghost attrs: VR.Attributes)
    requires Init.BootMapOk(bps)
    ensures Init.HighestEligible(bps, |bps|, Need(bps), chosen) && (mm == null <==> chosen == -1)
    ensures mm != null ==> FirstMap(bps, chosen, s) && mm.ranges.Length == Init.Room(Init.Count(bps, |bps|))
    ensures r == Done ==> mm != null && vs != null && Initialised(bps, chosen, s, mm, vs, attrs)
    ensures r == Done ==> Paging.Later(s, mm.View())
    ensures r != Done ==>
              mm == null || Paging.NoFrame(mm) || VI.CannotStart(s, mm.ranges.Length) || VI.NoHole(s)
    ensures mm != null ==> mm.at == MemMap.End(bps[chosen].range) - Need(bps)
    ensures mm != null && Suffices(s, mm) ==>
              && r == Done && SameBase(s, mm.View()) && PO.BaseOf(attrs.mapped) == PO.Rest(s, 0)
              && VN.AllExtended(vs.pg.pdpt, vs.pg.owner, vs.listAt)
  {
    hide Init.BootMapOk, Init.Copied, Init.HighestEligible, Init.Room, Init.Count, MapOk, NoRam, VR.Ready,
      Paging.Later, SortedByStart, InOne, ShellSort.ShellSorted, VI.ListGoesTo, VR.Housed, VR.AllCovered,
      VR.RamEndsBelow, VR.PoolEnd;
    hide Paging.NoFrame, VI.CannotStart, VI.NoHole, Partition, Translates, PageTable.Wf, Paging.TablesReserved, AllSafe,
      VN.Enough, SameBase, PO.BaseOf, PO.Rest, VI.Covers, VN.AllExtended;
    vs, s, attrs := null, [], VR.Attributes(0, [], false, []);
    r, mm, chosen := Init.MemMapInit(bps);
    if r != Done {
      mm := null;
      return;
    }
    ChosenIsIndex(bps, Need(bps), chosen);
    s := mm.View();
    assert MapOk(s);
    r, vs, attrs := VI.VaInit(mm, mem0);
    if r == Done && SameBase(s, mm.View()) {
      VN.AllAreExtended(s, mm.View(), vs.pg.pdpt, vs.pg.owner, vs.listAt, vs.ListEnd(), mm.at, vs.MapEnd());
    }
  }

  lemma ChosenIsIndex(bps: seq<Init.BootParam>, need: nat, c: int)
    requires Init.HighestEligible(bps, |bps|, need, c)
    ensures -1 <= c < |bps| && (c >= 0 ==> MemMap.End(bps[c].range) <= XM32_MAX_ADDR)
  {
  }
}

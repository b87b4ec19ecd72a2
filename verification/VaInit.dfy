/** va_init on memory (stage2/mem.c:320-430): the pool of unused virtual addresses, the empty
    page tables, and the two passes that build the identity mapping. */
module VaInit {
  import opened Machine
  import opened PageTable
  import opened VaPool
  import opened VaTranslation
  import opened Holes
  import opened Identity
  import opened SecondPass
  import opened PassOrder
  import opened Reach
  import opened VaReady
  import opened Supply
  import opened TableNeeds
  import opened VaNeeds
  import opened MM = MemMap
  import PG = Paging
  import PhysMap
  import VS = VaSpace

  // ---------------------------------------------------------------------------------------
  // The pool

  /** The bounds of the hole between entries i - 1 and i, or stop if there are no more holes. */
  method HoleBefore(mm: PhysMap.PhysMap, i: nat) returns (stop: bool, prevEnd: nat, start: nat)
    requires mm.Valid() && 0 < i <= mm.num
    ensures stop <==> HoleStart(mm.View(), i) == XM32_MAX_ADDR
    ensures !stop ==> prevEnd == HoleStart(mm.View(), i) && start == HoleEnd(mm.View(), i)
  {
    hide RoundUp, RoundDown;
    assert RangeOk(mm.View()[i - 1]) by { RangesOk(mm.View()); }
    HoleStartMeans(mm.View(), i);
    hide MapOk;
    stop, start := false, 0;
    prevEnd := MM.End(mm.ranges[i - 1]) % TWO64;
    if (prevEnd - 1) % TWO64 >= XM32_MAX_ADDR - 1 {
      return true, 0, 0;
    }
    prevEnd := RoundUp(prevEnd);
    if (prevEnd - 1) % TWO64 >= XM32_MAX_ADDR - 1 {
      return true, 0, 0;
    }
    if prevEnd < BMEM_MAX_ADDR {
      prevEnd := BMEM_MAX_ADDR;
    }
    if i == mm.num {
      start := XM32_MAX_ADDR;
    } else {
      start := RoundDown(mm.ranges[i].start);
      if start > XM32_MAX_ADDR {
        start := XM32_MAX_ADDR;
      }
    }
  }

  /** Records the holes of the map in an array with room for one hole per map entry. */
  method FindHoles(mm: PhysMap.PhysMap, ranges: array<VaRange>) returns (nvr: nat)
    requires mm.Valid() && ranges.Length == mm.ranges.Length
    modifies ranges
    ensures nvr <= ranges.Length && ranges[..nvr] == HolesFrom(mm.View(), 1)
    ensures mm.Valid() && mm.View() == old(mm.View())
  {
    hide HoleStart, HoleEnd, HolesFrom, RangeOk;
    ghost var s := mm.View();
    ghost var found: seq<VaRange> := [];
    nvr := 0;
    var i: nat := 1;
    RangesOk(s);
    hide MapOk;
    while i <= mm.num
      invariant mm.Valid() && mm.View() == s && |s| == mm.num
      invariant 1 <= i <= |s| + 1 && nvr < i
      invariant ranges[..nvr] == found && found + HolesFrom(s, i) == HolesFrom(s, 1)
    {
      var stop, prevEnd, start := HoleBefore(mm, i);
      NextHole(s, i, found);
      if stop {
        return;
      }
      HoleBounds(s, i);
      i := i + 1;
      if prevEnd >= start {
        continue;
      }
      WrapLen(prevEnd, start);
      AddHole(ranges, nvr, VaRange(prevEnd, (start % XM32_MAX_ADDR - prevEnd) % XM32_MAX_ADDR));
      found := found + [VaRange(prevEnd, start - prevEnd)];
      nvr := nvr + 1;
    }
    NextHole(s, i, found);
  }

  /** What one step of the scan adds. */
  lemma NextHole(s: seq<MemRange>, i: nat, found: seq<VaRange>)
    requires 0 < i <= |s| + 1 && found + HolesFrom(s, i) == HolesFrom(s, 1)
    ensures i > |s| || HoleStart(s, i) == XM32_MAX_ADDR ==> found == HolesFrom(s, 1)
    ensures i <= |s| && HoleStart(s, i) != XM32_MAX_ADDR ==>
              if HoleStart(s, i) >= HoleEnd(s, i) then found + HolesFrom(s, i + 1) == HolesFrom(s, 1)
              else found + [VaRange(HoleStart(s, i), HoleEnd(s, i) - HoleStart(s, i))] + HolesFrom(s, i + 1)
                   == HolesFrom(s, 1)
  {
    HolesUnfold(s, i);
    hide HoleStart, HoleEnd, HolesFrom;
    if i <= |s| && HoleStart(s, i) < HoleEnd(s, i) {
      AppendThen(found, VaRange(HoleStart(s, i), HoleEnd(s, i) - HoleStart(s, i)), HolesFrom(s, i + 1));
    }
  }

  method AddHole(ranges: array<VaRange>, nvr: nat, x: VaRange)
    requires nvr < ranges.Length
    modifies ranges
    ensures ranges[..nvr + 1] == old(ranges[..nvr]) + [x]
  {
    ranges[nvr] := x;
  }

  lemma HolesUnfold(s: seq<MemRange>, i: nat)
    requires 0 < i <= |s| + 1
    ensures i > |s| || HoleStart(s, i) == XM32_MAX_ADDR ==> HolesFrom(s, i) == []
    ensures i <= |s| && HoleStart(s, i) != XM32_MAX_ADDR ==>
              HolesFrom(s, i) ==
                if HoleStart(s, i) >= HoleEnd(s, i) then HolesFrom(s, i + 1)
                else [VaRange(HoleStart(s, i), HoleEnd(s, i) - HoleStart(s, i))] + HolesFrom(s, i + 1)
  {
  }

  lemma AppendThen(h: seq<VaRange>, x: VaRange, rest: seq<VaRange>)
    ensures h + ([x] + rest) == h + [x] + rest
  {
  }

  /** The length computed in 32 bits is right also for a hole that ends at 4 GiB. */
  lemma WrapLen(start: nat, end: nat)
    requires BMEM_MAX_ADDR <= start < end <= XM32_MAX_ADDR
    ensures (end % XM32_MAX_ADDR - start) % XM32_MAX_ADDR == end - start
  {
  }

  // ---------------------------------------------------------------------------------------
  // Empty page tables

  /** memset(pd, 0, PAGE_SIZE). */
  method BlankFrame(mem: Memory, g: nat) returns (m: Memory)
    requires g % 0x1000 == 0
    ensures SameOutside(mem, m, g) && BlankPd(m, g)
  {
    m := mem;
    var i := 0;
    while i < 512
      invariant 0 <= i <= 512 && SameOutside(mem, m, g)
      invariant forall j: nat :: j < i ==> Rd(m, g + 8 * j) == 0
    {
      EntryFrame(g, i);
      m := m[g + 8 * i := 0];
      i := i + 1;
    }
  }

  /** Allocates the PDPT and the four PDs, all of them blank. */
  method SetUpTables(mm: PhysMap.PhysMap, mem0: Memory, ghost n: nat)
    returns (r: Outcome, pdpt: nat, mem: Memory, ghost owner: Owner)
    requires mm.Valid()
    modifies mm`num, mm.ranges
    ensures mm.Valid() && PG.Later(old(mm.View()), mm.View())
    ensures r == Done ==> Building(mem, pdpt, owner, 4) && PG.TablesReserved(mm.View(), pdpt, owner)
    ensures r == Done ==> PG.InLowRam(old(mm.View()), pdpt, pdpt + 32) && PG.FramesFrom(map[], owner, old(mm.View()))
    ensures r != Done ==> PG.NoFrame(mm) || Alloc(old(mm.View()), mm.ranges.Length, 32, 32, 0).Stopped?
    ensures TablesFit(old(mm.View()), mm.ranges.Length, n) ==>
              r == Done && Room(mm.View(), mm.ranges.Length, n) && SameBase(old(mm.View()), mm.View())
  {
    hide MapOk, Alloc, PG.Later, PG.TablesReserved, Building, NoRam, PG.Described, BlankPd, SameOutside, FrameOf,
      PG.InLowRam, PG.FramesFrom, Room, SameBase, TablesFit;
    ghost var s, cap := mm.View(), mm.ranges.Length;
    PG.LaterReflexive(s);
    PG.NoFramesYet(map[], s);
    if TablesFit(s, cap, n) {
      PdptFits(s, cap, n);
    }
    mem, owner := mem0, map[];
    r, pdpt := mm.MemAlloc(32, 32, 0);
    if r != Done {
      return;
    }
    PG.AllocIsLater(s, mm.ranges.Length, 32, 32);
    PG.LaterDescribed(s, mm.View(), pdpt);
    PdptPlaced(mem, pdpt, mm.View());
    var i: nat := 0;
    while i < 4
      invariant r == Done && i <= 4 && mm.Valid() && PG.Later(s, mm.View())
      invariant Building(mem, pdpt, owner, i) && PG.TablesReserved(mm.View(), pdpt, owner)
      invariant PG.InLowRam(s, pdpt, pdpt + 32) && PG.FramesFrom(map[], owner, s)
      invariant TablesFit(s, cap, n) ==> Room(mm.View(), cap, n + 4 - i) && SameBase(s, mm.View())
    {
      ghost var t := mm.View();
      if TablesFit(s, cap, n) {
        FrameStep(t, cap, n + 4 - i);
      }
      r, mem, owner := AddDirectory(mm, mem, pdpt, i, owner, s);
      if r != Done {
        return;
      }
      if TablesFit(s, cap, n) {
        SameBaseTransitive(s, t, mm.View());
      }
      i := i + 1;
    }
  }

  /** One blank PD. */
  method AddDirectory(mm: PhysMap.PhysMap, mem0: Memory, pdpt: nat, i: nat, ghost owner0: Owner, ghost s: seq<MemRange>)
    returns (r: Outcome, mem: Memory, ghost owner: Owner)
    requires mm.Valid() && i < 4 && Building(mem0, pdpt, owner0, i) && PG.TablesReserved(mm.View(), pdpt, owner0)
    requires PG.Later(s, mm.View()) && PG.FramesFrom(map[], owner0, s)
    modifies mm`num, mm.ranges
    ensures mm.Valid() && PG.Later(s, mm.View())
    ensures match Alloc(old(mm.View()), mm.ranges.Length, 0x1000, 0x1000, 0)
            case Placed(_, _, t) => r == Done && mm.View() == t
            case _ => r != Done && PG.NoFrame(mm)
    ensures r == Done ==> Building(mem, pdpt, owner, i + 1) && PG.TablesReserved(mm.View(), pdpt, owner)
    ensures r == Done ==> PG.FramesFrom(map[], owner, s)
  {
    hide MapOk, Alloc, PG.Later, PG.TablesReserved, Building, NoRam, PG.Described, BlankPd, SameOutside, FrameOf,
      PG.InLowRam, PG.FramesFrom;
    ghost var t := mm.View();
    mem, owner := mem0, owner0;
    var pd;
    r, pd := mm.MemAlloc(0x1000, 0x1000, 0);
    if r != Done {
      return;
    }
    BuildingAligned(mem, pdpt, owner, i);
    PG.NewFrameIsFresh(t, mm.ranges.Length, pdpt, owner);
    PG.LaterTransitive(s, t, mm.View());
    mem := BlankFrame(mem, pd);
    AddPd(mem0, mem, pdpt, owner, i, pd);
    PdReserved(mm.View(), pdpt, owner, pd, Pd(i));
    FrameAdded(owner, s, t, pd, Pd(i));
    mem := mem[pdpt + 8 * i := pd + 1];
    owner := owner[pd := Pd(i)];
  }

  /** There is room for the PDPT, the four PDs and n page tables. */
  ghost predicate TablesFit(s: seq<MemRange>, cap: nat, n: nat) {
    |s| + 5 + n <= cap && HasBytes(s, (4 + n) * 0x1000 + 32 + 31)
  }

  lemma PdptFits(s: seq<MemRange>, cap: nat, n: nat)
    requires MapOk(s) && TablesFit(s, cap, n)
    ensures var r := Alloc(s, cap, 32, 32, 0); r.Placed? && Room(r.map', cap, 4 + n) && SameBase(s, r.map')
  {
    hide Alloc, MapOk, HasBytes, SameBase;
    BytesStep(s, cap, 32, 32, (4 + n) * 0x1000);
  }

  lemma PdptPlaced(mem: Memory, pdpt: nat, t: seq<MemRange>)
    requires pdpt % 32 == 0 && pdpt + 32 <= XM32_MAX_ADDR && NoRam(t, pdpt, pdpt + 32) && PG.Described(t, pdpt)
    ensures Building(mem, pdpt, map[], 0) && PG.TablesReserved(t, pdpt, map[])
  {
  }

  lemma BuildingAligned(mem: Memory, pdpt: nat, owner: Owner, n: nat)
    requires Building(mem, pdpt, owner, n)
    ensures pdpt % 32 == 0
  {
  }

  lemma FrameAdded(owner: Owner, s: seq<MemRange>, t: seq<MemRange>, g: nat, x: Table)
    requires PG.FramesFrom(map[], owner, s) && PG.Later(s, t) && PG.InLowRam(t, g, g + 0x1000)
    ensures PG.FramesFrom(map[], owner[g := x], s)
  {
    hide PG.InLowRam, Refines, RamShrinks, PG.Grew, PG.OnlyRamCut;
    PG.LowRamWas(s, t, g, g + 0x1000);
  }

  lemma PdReserved(t: seq<MemRange>, pdpt: nat, owner: Owner, g: nat, x: Table)
    requires PG.TablesReserved(t, pdpt, owner) && NoRam(t, g, g + 0x1000) && PG.Described(t, g)
    ensures PG.TablesReserved(t, pdpt, owner[g := x])
  {
    hide NoRam, PG.Described;
  }

  // ---------------------------------------------------------------------------------------
  // The two passes

  /** Maps everything below the last hole that is in no hole to itself: the part below the first
      hole with the given flags, the rest cached. */
  method MapGaps(pg: PG.Paging, holes: array<VaRange>, nvr: nat, flags: nat, ghost pool: seq<VaRange>,
                 ghost needed: set<nat>)
    returns (r: Outcome)
    requires 0 < nvr <= holes.Length && holes[..nvr] == pool && flags < 0x80
    requires pg.Valid() && PoolOk(pool) && GapsWithin(pool, needed)
    requires PassedTo(pg.mem, pg.pdpt, pool, 0, flags) && LargeOffPool(pg.mem, pg.pdpt, pool)
    modifies pg, pg.mm`num, pg.mm.ranges
    ensures pg.Valid() && PG.Later(old(pg.mm.View()), pg.mm.View())
    ensures PG.FramesFrom(old(pg.owner), pg.owner, old(pg.mm.View()))
    ensures r == Done ==> PassedTo(pg.mem, pg.pdpt, pool, nvr, flags) && LargeOffPool(pg.mem, pg.pdpt, pool)
    ensures Pays(old(pg.mem), pg.mem, pg.pdpt, old(pg.mm.View()), pg.mm.View(), pg.mm.ranges.Length, needed)
    ensures r != Done ==> PG.NoFrame(pg.mm) && Lacks(pg.mem, pg.pdpt, needed)
  {
    hide PG.NoFrame, MapOk, PG.Later, PG.TablesReserved, Wf, PassedTo, LargeOffPool, PoolOk, MapsTo, LargeOnlyIn, Attr,
      PG.FramesFrom, PG.SlotMapped, HasPt, PtsWithin, SpentOn, Stuck, Pays, Lacks, NeedsWithin;
    ghost var s, m0, o0, cap := pg.mm.View(), pg.mem, pg.owner, pg.mm.ranges.Length;
    GapAligned(pool, 0);
    GapLen(0, holes[0].start);
    r := pg.DoVaMap(0, 0, holes[0].start, flags);
    MappingPays(m0, pg.mem, pg.pdpt, 0, holes[0].start / 0x1000, 0, s, pg.mm.View(), cap, needed);
    if r != Done {
      return;
    }
    FirstPassMaps(m0, pg.mem, pg.pdpt, pool, 0, flags);
    FirstPassLarge(m0, pg.mem, pg.pdpt, pool, 0);
    var i: nat := 1;
    while i < nvr
      invariant r == Done && 1 <= i <= nvr && holes[..nvr] == pool
      invariant pg.Valid() && PG.Later(s, pg.mm.View()) && PG.FramesFrom(o0, pg.owner, s)
      invariant Pays(m0, pg.mem, pg.pdpt, s, pg.mm.View(), cap, needed)
      invariant PassedTo(pg.mem, pg.pdpt, pool, i, flags) && LargeOffPool(pg.mem, pg.pdpt, pool)
    {
      ghost var m, t, o := pg.mem, pg.mm.View(), pg.owner;
      GapAligned(pool, i);
      var prevEnd := holes[i - 1].start + holes[i - 1].len;
      var start := holes[i].start;
      GapLen(prevEnd, start);
      r := pg.DoVaMap(prevEnd, prevEnd, start - prevEnd, 0);
      MappingPays(m, pg.mem, pg.pdpt, prevEnd / 0x1000, start / 0x1000, prevEnd, t, pg.mm.View(), cap, needed);
      PaysThen(m0, m, pg.mem, pg.pdpt, s, t, pg.mm.View(), cap, needed);
      PG.LaterTransitive(s, t, pg.mm.View());
      PG.FramesThen(o0, o, pg.owner, s, t);
      if r != Done {
        return;
      }
      FirstPassMaps(m, pg.mem, pg.pdpt, pool, i, flags);
      FirstPassLarge(m, pg.mem, pg.pdpt, pool, i);
      i := i + 1;
    }
  }

  lemma GapLen(start: nat, end: nat)
    requires start % 0x1000 == 0 && end % 0x1000 == 0 && start <= end < XM32_MAX_ADDR
    ensures (end - start) % 0x1000 == 0
  {
  }

  lemma SpecialFlags(uefiAttr: nat)
    ensures PteFlags(uefiAttr) < 0x80
  {
  }

  /** Where the attribute pass is: at entry i of the map t, having begun with s0; s is the map
      that the pool was computed from. */
  ghost predicate AttrState(m0: Memory, m: Memory, pdpt: nat, pool: seq<VaRange>, s: seq<MemRange>, s0: seq<MemRange>,
                            cap: nat, t: seq<MemRange>, i: nat, mapped: seq<MemRange>) {
    && AttrInv(m0, m, pdpt, pool, s, t, i, mapped)
    && BaseInv(s0, cap, HasPt(m0, pdpt, 0), t, i, mapped, HasPt(m, pdpt, 0))
  }

  lemma AttrStateStart(m: Memory, pdpt: nat, pool: seq<VaRange>, s: seq<MemRange>, s0: seq<MemRange>, cap: nat)
    requires PoolAbsent(m, pdpt, pool) && LargeOffPool(m, pdpt, pool)
    ensures AttrState(m, m, pdpt, pool, s, s0, cap, s0, 0, [])
  {
    hide PoolAbsent, LargeOffPool, AttrInv, HasPt, BaseWant;
    AttrStart(m, pdpt, pool, s, s0);
  }

  lemma AttrStateSkip(m0: Memory, m: Memory, pdpt: nat, pool: seq<VaRange>, s: seq<MemRange>, s0: seq<MemRange>,
                      cap: nat, t: seq<MemRange>, i: nat, mapped: seq<MemRange>)
    requires AttrState(m0, m, pdpt, pool, s, s0, cap, t, i, mapped)
    requires MapOk(t) && i < |t| && NothingToDo(t[i])
    ensures AttrState(m0, m, pdpt, pool, s, s0, cap, t, i + 1, mapped)
  {
    hide AttrInv, BaseInv, HasPt, NothingToDo;
    MapIsBaseFirst(t);
    hide MapOk;
    AttrSkip(m0, m, pdpt, pool, s, t, i, mapped);
    BaseSkip(s0, cap, HasPt(m0, pdpt, 0), t, i, mapped, HasPt(m, pdpt, 0));
  }

  /** Entry i of t is mapped, which makes t1 of the map and m1 of memory. */
  lemma AttrStateMap(m0: Memory, m: Memory, m1: Memory, pdpt: nat, pool: seq<VaRange>, s: seq<MemRange>,
                     s0: seq<MemRange>, cap: nat, t: seq<MemRange>, t1: seq<MemRange>, i: nat, i1: nat,
                     mapped: seq<MemRange>)
    requires AttrState(m0, m, pdpt, pool, s, s0, cap, t, i, mapped) && PoolUntouched(pool, s)
    requires i < |t| <= |t1| && !NothingToDo(t[i]) && i1 == AfterStart(t1, i, t[i].start)
    requires var start, len := RoundDown(t[i].start), AttrLen(t[i]);
             && MapsTo(m, m1, pdpt, start / 0x1000, (start + len) / 0x1000, start, Attr(PteFlags(t[i].uefiAttr)))
             && LargeOnlyIn(m, m1, pdpt, start / 0x1000, (start + len) / 0x1000)
    requires MapOk(t) && MapOk(t1) && Refines(t, s) && Refines(t1, t) && PG.Grew(t, t1)
    requires t[i].start < BMEM_MAX_ADDR ==> HasPt(m1, pdpt, 0) && t1 == PG.SlotMapped(t, cap, HasPt(m, pdpt, 0))
    ensures AttrState(m0, m1, pdpt, pool, s, s0, cap, t1, i1, mapped + [t[i]])
  {
    hide AttrInv, BaseInv, HasPt, NothingToDo, PoolUntouched, Refines, PG.Grew, MapsTo, LargeOnlyIn, Attr, PteFlags,
      AttrLen, RoundDown, PG.SlotMapped;
    MapIsBaseFirst(t);
    hide MapOk;
    AttrMap(m0, m, m1, pdpt, pool, s, t, t1, i, i1, mapped);
    BaseMap(s0, cap, HasPt(m0, pdpt, 0), t, t1, i, i1, mapped, HasPt(m, pdpt, 0), HasPt(m1, pdpt, 0));
  }

  lemma AttrStateEnd(m0: Memory, m: Memory, pdpt: nat, pool: seq<VaRange>, s: seq<MemRange>, s0: seq<MemRange>,
                     cap: nat, t: seq<MemRange>, mapped: seq<MemRange>)
    requires AttrState(m0, m, pdpt, pool, s, s0, cap, t, |t|, mapped)
    ensures AttrInv(m0, m, pdpt, pool, s, t, |t|, mapped)
    ensures BaseOf(mapped) == BaseWant(s0, 0, cap, HasPt(m0, pdpt, 0))
  {
    hide AttrInv, BaseInv, HasPt;
    BaseEnd(s0, cap, HasPt(m0, pdpt, 0), t, mapped, HasPt(m, pdpt, 0));
  }

  /** The pages of a range of base memory are in base memory. */
  lemma BaseInterval(r: MemRange)
    requires RangeOk(r) && r.start < BMEM_MAX_ADDR
    ensures var start, len := RoundDown(r.start), AttrLen(r); 0 < len && start + len <= BMEM_MAX_ADDR
  {
    hide AttrLen;
    AttrEnd(r);
    BaseRound(r);
  }

  lemma BaseRound(r: MemRange)
    requires RangeOk(r) && r.start < BMEM_MAX_ADDR
    ensures RoundDown(r.start) < RoundUp(MM.End(r)) <= BMEM_MAX_ADDR
  {
  }

  /** Goes over the map, which may grow meanwhile, and gives the pages of every range that it
      comes by and that is not write-back its flags. */
  method MapAttributes(pg: PG.Paging, ghost pool: seq<VaRange>, ghost s: seq<MemRange>, ghost needed: set<nat>)
    returns (r: Outcome, ghost mapped: seq<MemRange>)
    requires pg.Valid() && PG.Later(s, pg.mm.View()) && PoolUntouched(pool, s) && PiecesWithin(s, needed)
    requires PoolAbsent(pg.mem, pg.pdpt, pool) && LargeOffPool(pg.mem, pg.pdpt, pool)
    modifies pg, pg.mm`num, pg.mm.ranges
    ensures pg.Valid() && PG.Later(s, pg.mm.View()) && PG.Later(old(pg.mm.View()), pg.mm.View())
    ensures PG.FramesFrom(old(pg.owner), pg.owner, old(pg.mm.View()))
    ensures r == Done ==> AttrInv(old(pg.mem), pg.mem, pg.pdpt, pool, s, pg.mm.View(), |pg.mm.View()|, mapped)
    ensures r == Done ==>
              BaseOf(mapped) == BaseWant(old(pg.mm.View()), 0, pg.mm.ranges.Length, HasPt(old(pg.mem), pg.pdpt, 0))
    ensures Pays(old(pg.mem), pg.mem, pg.pdpt, old(pg.mm.View()), pg.mm.View(), pg.mm.ranges.Length, needed)
    ensures r != Done ==> PG.NoFrame(pg.mm) && Lacks(pg.mem, pg.pdpt, needed)
  {
    hide PG.NoFrame, MapOk, PG.Later, PG.TablesReserved, Wf, AttrInv, PoolAbsent, LargeOffPool, PoolUntouched,
      PteFlags, AttrLen, RoundDown, Attr, MapsTo, LargeOnlyIn, Refines, PG.Grew, Touches, RangeOk, BaseInv, BaseOf,
      BaseWant, HasPt, PG.SlotMapped, PG.FramesFrom, AttrState, Pays, Lacks, PiecesWithin;
    ghost var m0, s0, o0, cap := pg.mem, pg.mm.View(), pg.owner, pg.mm.ranges.Length;
    var mm := pg.mm;
    AttrStateStart(m0, pg.pdpt, pool, s, s0, cap);
    PG.LaterReflexive(s0);
    PG.NoFramesYet(o0, s0);
    PaysNothing(m0, pg.pdpt, s0, cap, needed);
    var i: nat := 0;
    mapped := [];
    while i < mm.num
      invariant pg.Valid() && i <= mm.num
      invariant PG.Later(s, mm.View()) && PG.Later(s0, mm.View()) && PG.FramesFrom(o0, pg.owner, s0)
      invariant Pays(m0, pg.mem, pg.pdpt, s0, mm.View(), cap, needed)
      invariant AttrState(m0, pg.mem, pg.pdpt, pool, s, s0, cap, mm.View(), i, mapped)
      decreases mm.ranges.Length - mm.num, mm.num - i
    {
      ghost var m, t, o := pg.mem, mm.View(), pg.owner;
      LaterRefines(s, t);
      var mr := mm.ranges[i];
      assert mr == t[i];
      var flags := PteFlags(mr.uefiAttr);
      if flags == 0 || mr.start >= XM32_MAX_ADDR {
        AttrStateSkip(m0, pg.mem, pg.pdpt, pool, s, s0, cap, t, i, mapped);
        i := i + 1;
        continue;
      }
      r := MapRange(pg, mr, flags, s, t, i, needed);
      PaysThen(m0, m, pg.mem, pg.pdpt, s0, t, mm.View(), cap, needed);
      PG.LaterTransitive(s, t, mm.View());
      PG.LaterTransitive(s0, t, mm.View());
      PG.FramesThen(o0, o, pg.owner, s0, t);
      if r != Done {
        return;
      }
      LaterRefines(t, mm.View());
      ghost var i0 := i;
      PassMoves(t, mm.View(), i0);
      i := SkipStarts(mm, i, mr.start);
      AttrStateMap(m0, m, pg.mem, pg.pdpt, pool, s, s0, cap, t, mm.View(), i0, i, mapped);
      mapped := mapped + [mr];
    }
    AttrStateEnd(m0, pg.mem, pg.pdpt, pool, s, s0, cap, mm.View(), mapped);
    r := Done;
  }

  /** Maps the pages of entry i of the map to themselves with the given flags. */
  method MapRange(pg: PG.Paging, mr: MemRange, flags: nat, ghost s: seq<MemRange>, ghost t: seq<MemRange>, ghost i: nat,
                  ghost needed: set<nat>)
    returns (r: Outcome)
    requires pg.Valid() && t == pg.mm.View() && i < |t| && mr == t[i] && PG.Later(s, t) && PiecesWithin(s, needed)
    requires mr.start < XM32_MAX_ADDR && flags == PteFlags(mr.uefiAttr) != 0
    modifies pg, pg.mm`num, pg.mm.ranges
    ensures pg.Valid() && PG.Later(t, pg.mm.View()) && PG.FramesFrom(old(pg.owner), pg.owner, t)
    ensures r == Done ==>
              var start, len := RoundDown(mr.start), AttrLen(mr);
              && MapsTo(old(pg.mem), pg.mem, pg.pdpt, start / 0x1000, (start + len) / 0x1000, start, Attr(flags))
              && LargeOnlyIn(old(pg.mem), pg.mem, pg.pdpt, start / 0x1000, (start + len) / 0x1000)
    ensures r == Done && mr.start < BMEM_MAX_ADDR ==>
              && HasPt(pg.mem, pg.pdpt, 0)
              && pg.mm.View() == PG.SlotMapped(t, pg.mm.ranges.Length, HasPt(old(pg.mem), pg.pdpt, 0))
    ensures Pays(old(pg.mem), pg.mem, pg.pdpt, t, pg.mm.View(), pg.mm.ranges.Length, needed)
    ensures r != Done ==> PG.NoFrame(pg.mm) && Lacks(pg.mem, pg.pdpt, needed)
  {
    hide PG.NoFrame, MapOk, PG.Later, PG.TablesReserved, Wf, PteFlags, AttrLen, RoundDown, Attr, MapsTo, LargeOnlyIn,
      Touches, HasPt, PG.SlotMapped, PG.FramesFrom, PtsWithin, SpentOn, Stuck, Pays, Lacks, NeedsWithin, PiecesWithin,
      PG.PieceOfSome, RangeOk;
    ghost var m := pg.mem;
    RangesOk(t);
    PieceWithin(s, t, i, needed);
    AttrInterval(mr);
    SpecialFlags(mr.uefiAttr);
    Rounded(mr.start);
    if mr.start < BMEM_MAX_ADDR {
      BaseInterval(mr);
    }
    var start, len := RoundDown(mr.start), AttrLen(mr);
    r := pg.DoVaMap(start, start, len, flags);
    MappingPays(m, pg.mem, pg.pdpt, start / 0x1000, (start + len) / 0x1000, start, t, pg.mm.View(), pg.mm.ranges.Length,
      needed);
  }

  lemma PieceWithin(s: seq<MemRange>, t: seq<MemRange>, i: nat, needed: set<nat>)
    requires PG.Later(s, t) && PiecesWithin(s, needed) && i < |t| && RangeOk(t[i]) && !NothingToDo(t[i])
    ensures NeedsWithin(RoundDown(t[i].start) / 0x1000, (RoundDown(t[i].start) + AttrLen(t[i])) / 0x1000,
                        RoundDown(t[i].start), needed)
  {
    hide NeedsWithin, RoundDown, AttrLen, Refines, RamShrinks, PG.Grew, PG.LowRamShrinks, NothingToDo;
    assert PG.PieceOfSome(t[i], s);
  }

  /** The scan to the next range that starts above start64. */
  method SkipStarts(mm: PhysMap.PhysMap, i0: nat, start64: nat) returns (i: nat)
    requires mm.Valid() && i0 <= mm.num
    ensures i == AfterStart(mm.View(), i0, start64) && i <= mm.num
    ensures i0 < mm.num && mm.View()[i0].start <= start64 ==> i0 < i
  {
    i := i0;
    while i < mm.num && mm.ranges[i].start <= start64
      invariant i0 <= i <= mm.num
      invariant AfterStart(mm.View(), i, start64) == AfterStart(mm.View(), i0, start64)
    {
      i := i + 1;
    }
  }

  lemma LaterRefines(s: seq<MemRange>, t: seq<MemRange>)
    requires PG.Later(s, t)
    ensures Refines(t, s) && PG.Grew(s, t)
  {
  }

  /** The pass goes on or the map has grown. */
  lemma PassMoves(t: seq<MemRange>, t1: seq<MemRange>, i: nat)
    requires PG.Grew(t, t1) && i < |t|
    ensures |t| <= |t1| && (|t| == |t1| ==> t1[i].start == t[i].start)
  {
  }

  // ---------------------------------------------------------------------------------------
  // The state that va_init leaves

  lemma FreshPartition(pool: seq<VaRange>)
    requires PoolOk(pool)
    ensures Partition(pool, pool, map[])
  {
    forall i | 0 <= i < |pool| ensures WithinSome(pool[i], pool) && StartsSome(pool[i].start, pool) {
      assert Within(pool[i], pool[i]);
    }
  }

  lemma FreshTranslation(m: Memory, pdpt: nat, pool: seq<VaRange>)
    requires PoolAbsent(m, pdpt, pool) && LargeOffPool(m, pdpt, pool)
    ensures Translates(m, m, pdpt, pool, pool, map[])
  {
    hide SlotOffPool, InSome, WalkPage, Pde, Large;
  }

  lemma FirstPassIsAbsent(pool: seq<VaRange>, flags: nat, p: nat)
    requires InSome(pool, p * 0x1000)
    ensures FirstPass(pool, |pool|, flags, p) == Absent
  {
  }

  lemma FirstPassLeavesPool(m: Memory, pdpt: nat, pool: seq<VaRange>, flags: nat)
    requires PassedTo(m, pdpt, pool, |pool|, flags)
    ensures PoolAbsent(m, pdpt, pool)
  {
    hide FirstPass, WalkPage, InSome;
    forall p: nat | p < 0x10_0000 && InSome(pool, p * 0x1000) ensures WalkPage(m, pdpt, p) == Absent {
      FirstPassIsAbsent(pool, flags, p);
    }
  }

  /** The pool was computed from s1, the map s after one allocation. */
  lemma PoolOfLater(s: seq<MemRange>, s1: seq<MemRange>, pool: seq<VaRange>)
    requires MapOk(s1) && s1[0].start == 0 && Refines(s1, s) && pool == HolesFrom(s1, 1)
    ensures PoolOk(pool) && PoolUntouched(pool, s1) && PoolExact(pool, s)
  {
    hide MapOk, Refines, HolesFrom, Touched;
    HolesAreOk(s1, 1);
    forall q: nat | 0x100 <= q < 0x10_0000 ensures InSome(pool, q * 0x1000) <==> !Touched(s, q) {
      PoolIsUntouched(s1, q);
      TouchedLater(s, s1, q);
    }
    forall q: nat | q < 0x10_0000 && InSome(pool, q * 0x1000) ensures !Touched(s1, q) {
      InPoolIsExtended(pool, q);
      TouchedLater(s, s1, q);
    }
  }

  /** The first pass over empty tables, then the attribute pass, which began with the map s2 and
      ended with t. */
  lemma PassesMakeReady(m0: Memory, m: Memory, pdpt: nat, s: seq<MemRange>, s1: seq<MemRange>, t: seq<MemRange>,
                        pool: seq<VaRange>, a: Attributes)
    requires MapOk(s) && pool != [] && PoolOk(pool) && PoolExact(pool, s)
    requires PassedTo(m0, pdpt, pool, |pool|, PteFlags(s[0].uefiAttr))
    requires AttrInv(m0, m, pdpt, pool, s1, t, |t|, a.mapped) && Refines(s1, s) && Refines(t, s1)
    requires MapOk(a.start) && |a.start| <= a.cap && PG.Later(s, a.start)
    requires BaseOf(a.mapped) == BaseWant(a.start, 0, a.cap, a.had)
    ensures Ready(m, pdpt, s, pool, a)
  {
    hide WalkPage, IdPage, FirstPass, PteFlags, InSome, Refines, PoolOk, PoolExact, PG.Later, MapOk, BaseOf, BaseWant,
      FromMap, MappedBelow, Rising, RisesTo, AllMapped, PoolAbsent, LargeOffPool, Paint;
    MapNotEmpty(s);
    FromMapEarlier(a.mapped, s, s1);
    EndsAllMapped(a.mapped, s1, t);
    AllMappedEarlier(a.mapped, s, s1);
  }

  lemma AllMappedEarlier(mapped: seq<MemRange>, s: seq<MemRange>, s1: seq<MemRange>)
    requires AllMapped(mapped, s1) && Refines(s1, s)
    ensures AllMapped(mapped, s)
  {
    hide Covers, SpecialByte, InsideSome;
  }

  lemma FromMapEarlier(mapped: seq<MemRange>, s: seq<MemRange>, s1: seq<MemRange>)
    requires FromMap(mapped, s1) && Refines(s1, s)
    ensures FromMap(mapped, s)
  {
    hide NothingToDo, Covers;
    forall k | 0 <= k < |mapped| ensures InsideSome(mapped[k], s) {
      assert InsideSome(mapped[k], s1);
      var i :| 0 <= i < |s1| && Inside(mapped[k], s1[i]);
      assert InsideSome(s1[i], s);
    }
  }

  /** There is no memory for the list of holes, or after that for the PDPT. */
  ghost predicate CannotStart(s: seq<MemRange>, cap: nat) {
    MapOk(s)
    && match Alloc(s, cap, cap * 8, 4, 0)
       case Null => false
       case Stopped(_) => true
       case Placed(_, _, t) => MapOk(t) && Alloc(t, cap, 32, 32, 0).Stopped?
  }

  /** Memory ranges touch every page from 1 MiB to 4 GiB. */
  ghost predicate NoHole(s: seq<MemRange>) {
    forall q: nat :: 0x100 <= q < 0x10_0000 ==> Touched(s, q)
  }

  lemma EmptyPoolHasNoHole(s: seq<MemRange>, pool: seq<VaRange>)
    requires pool == [] && PoolExact(pool, s)
    ensures NoHole(s)
  {
  }

  /** Where the list of holes goes, if there is room for it. */
  ghost predicate ListGoesTo(s: seq<MemRange>, cap: nat, at: nat) {
    MapOk(s) && match Alloc(s, cap, cap * VS.VA_RANGE_SIZE, 4, 0) case Placed(_, a, _) => a == at case _ => false
  }

  /** Allocates the list of holes and fills it in. */
  method ListHoles(mm: PhysMap.PhysMap) returns (r: Outcome, va: nat, holes: array<VaRange>, nvr: nat)
    requires mm.Valid() && mm.View()[0].start == 0
    modifies mm`num, mm.ranges
    ensures mm.Valid() && PG.Later(old(mm.View()), mm.View())
    ensures fresh(holes) && holes.Length == mm.ranges.Length > 0 && nvr <= holes.Length
    ensures r == Done ==>
              var s, pool, end := old(mm.View()), holes[..nvr], va + mm.ranges.Length * VS.VA_RANGE_SIZE;
              && PoolOk(pool) && PoolUntouched(pool, mm.View()) && PoolExact(pool, s)
              && ListGoesTo(s, mm.ranges.Length, va) && NoRam(mm.View(), va, end) && PG.InLowRam(s, va, end)
    ensures r != Done ==> CannotStart(old(mm.View()), mm.ranges.Length)
    ensures r == Done ==> ListGoesToMap(old(mm.View()), mm.ranges.Length, mm.View())
    ensures Enough(old(mm.View()), mm.ranges.Length) ==>
              && r == Done && SameBase(old(mm.View()), mm.View())
              && TablesFit(mm.View(), mm.ranges.Length, |NeededSlots(old(mm.View()))|)
  {
    hide MapOk, Alloc, PG.Later, NoRam, PoolUntouched, PoolOk, HolesFrom, InSome, Touched, Refines, PG.Grew,
      PG.InLowRam, PoolExact, Enough, SameBase, TablesFit, NeededSlots;
    ghost var s := mm.View();
    PG.LaterReflexive(s);
    var mvr := mm.ranges.Length;
    if Enough(s, mvr) {
      ListFits(s, mvr);
    }
    MapNotEmpty(s);
    nvr, holes := 0, new VaRange[mvr];
    r, va := mm.MemAlloc(mvr * VS.VA_RANGE_SIZE, 4, 0);
    if r != Done {
      return;
    }
    PG.AllocIsLater(s, mvr, mvr * VS.VA_RANGE_SIZE, 4);
    LaterRefines(s, mm.View());
    FirstKept(s, mm.View());
    nvr := FindHoles(mm, holes);
    PoolOfLater(s, mm.View(), holes[..nvr]);
  }

  lemma ListFits(s: seq<MemRange>, cap: nat)
    requires MapOk(s) && Enough(s, cap)
    ensures var r := Alloc(s, cap, cap * VS.VA_RANGE_SIZE, 4, 0);
            r.Placed? && SameBase(s, r.map') && TablesFit(r.map', cap, |NeededSlots(s)|)
  {
    hide MapOk, Alloc, HasBytes, SameBase, NeededSlots;
    BytesStep(s, cap, cap * VS.VA_RANGE_SIZE, 4, (4 + |NeededSlots(s)|) * 0x1000 + 32 + 31);
  }

  /** The map once the list of holes has been allocated. */
  ghost predicate ListGoesToMap(s: seq<MemRange>, cap: nat, t: seq<MemRange>) {
    MapOk(s) && match Alloc(s, cap, cap * VS.VA_RANGE_SIZE, 4, 0) case Placed(_, _, u) => u == t case _ => false
  }

  lemma TablesCannotStart(s: seq<MemRange>, cap: nat, t: seq<MemRange>)
    requires ListGoesToMap(s, cap, t) && MapOk(t) && Alloc(t, cap, 32, 32, 0).Stopped?
    ensures CannotStart(s, cap)
  {
    hide Alloc, MapOk;
  }

  /** Initializes virtual memory. Halts when an allocation fails; without a single hole below
      4 GiB the source reads an array entry that it has not written. With enough memory, all in
      extended memory, it completes. Afterwards, stage 2 can use its tables and lists if and only
      if they are covered, for which it is enough that RAM below 4 GiB ends below the end of the
      last hole. */
  method VaInit(mm: PhysMap.PhysMap, mem0: Memory)
    returns (r: Outcome, vs: VS.VaSpace?, ghost attrs: Attributes)
    requires mm.Valid() && mm.View()[0].start == 0
    requires var mapEnd := mm.at + mm.ranges.Length * PhysMap.RANGE_SIZE;
             mapEnd <= XM32_MAX_ADDR && InOne(mm.View(), mm.at, mapEnd) && NoRam(mm.View(), mm.at, mapEnd)
    modifies mm`num, mm.ranges
    ensures mm.Valid() && PG.Later(old(mm.View()), mm.View())
    ensures r == Done ==>
              && vs != null && fresh(vs) && fresh(vs.pg) && fresh(vs.ranges) && vs.pg.mm == mm && vs.Valid()
              && vs.live == map[] && vs.Free() == vs.pool && |vs.pool| > 0 && vs.base == vs.pg.mem
              && vs.ranges.Length == mm.ranges.Length
              && Ready(vs.pg.mem, vs.pg.pdpt, old(mm.View()), vs.pool, attrs)
    ensures r == Done ==>
              && ListGoesTo(old(mm.View()), mm.ranges.Length, vs.listAt)
              && Housed(old(mm.View()), vs.pg.pdpt, vs.pg.owner, vs.listAt, vs.ListEnd(), mm.at, vs.MapEnd())
              && (vs.Reachable() <==> Covers(old(mm.View()), vs))
              && (RamEndsBelow(old(mm.View()), PoolEnd(vs.pool)) && vs.MapEnd() <= PoolEnd(vs.pool) ==> vs.Reachable())
    ensures r != Done ==>
              PG.NoFrame(mm) || CannotStart(old(mm.View()), mm.ranges.Length) || NoHole(old(mm.View()))
    ensures Enough(old(mm.View()), mm.ranges.Length) && !NoHole(old(mm.View())) ==>
              r == Done && SameBase(old(mm.View()), mm.View()) && BaseOf(attrs.mapped) == Rest(old(mm.View()), 0)
  {
    hide PG.NoFrame, NoHole, MapOk, PG.Later, PG.TablesReserved, Building, NoRam, Wf, Ready, PassedTo, LargeOffPool,
      PoolAbsent, PoolUntouched, PoolOk, Partition, Translates, PteFlags, Touched, AllSafe, InOne, PoolEnd,
      RamEndsBelow, PoolExact, Housed, ListGoesTo, CannotStart, Enough, SameBase, NeededSlots, Kept, BaseOf, Rest,
      Supplied, Covers, PG.InLowRam, PG.FramesFrom;
    ghost var s, cap := mm.View(), mm.ranges.Length;
    vs, attrs := null, Attributes(cap, s, false, []);
    var pg, va, holes, nvr;
    ghost var s1;
    r, pg, va, holes, nvr, s1 := Prepare(mm, mem0);
    if r != Done {
      return;
    }
    ghost var pool, t, o := holes[..nvr], mm.View(), pg.owner;
    var flags := PteFlags(mm.ranges[0].uefiAttr);
    StartIsKept(s, s1, t);
    SpecialFlags(mm.ranges[0].uefiAttr);
    if nvr == 0 {
      EmptyPoolHasNoHole(s, pool);
      return Undefined, null, attrs;
    }
    NothingPassed(pg.mem, pg.pdpt, pool, flags);
    r, attrs := TwoPasses(pg, holes, nvr, flags, pool, s, s1);
    PG.LaterTransitive(s, t, mm.View());
    if r == Done {
      AllPlaced(s, s1, t, mm.View(), pg.pdpt, o, pg.owner, va, va + holes.Length * VS.VA_RANGE_SIZE, mm.at,
        mm.at + mm.ranges.Length * PhysMap.RANGE_SIZE);
      vs := MakeSpace(pg, va, holes, nvr, pool);
      ReachableIff(vs, s, attrs);
    }
  }

  /** Before the first page is mapped: the list of holes of the map s, which is s1 once the list has
      been allocated, has been filled in, and blank tables have been set up. */
  ghost predicate Prepared(s: seq<MemRange>, s1: seq<MemRange>, t: seq<MemRange>, cap: nat, pool: seq<VaRange>, va: nat,
                           m: Memory, pdpt: nat, owner: Owner) {
    && PG.Later(s, s1) && PG.Later(s1, t) && MapOk(s) && s != []
    && PoolOk(pool) && PoolUntouched(pool, s1) && PoolExact(pool, s)
    && ListGoesTo(s, cap, va) && NoRam(s1, va, va + cap * VS.VA_RANGE_SIZE)
    && PG.InLowRam(s, va, va + cap * VS.VA_RANGE_SIZE)
    && PG.InLowRam(s1, pdpt, pdpt + 32) && PG.FramesFrom(map[], owner, s1)
    && (forall p: nat :: p < 0x10_0000 ==> WalkPage(m, pdpt, p) == Absent) && LargeOffPool(m, pdpt, pool)
  }

  /** The part of VaInit up to there. */
  method Prepare(mm: PhysMap.PhysMap, mem0: Memory)
    returns (r: Outcome, pg: PG.Paging?, va: nat, holes: array<VaRange>, nvr: nat, ghost s1: seq<MemRange>)
    requires mm.Valid() && mm.View()[0].start == 0
    modifies mm`num, mm.ranges
    ensures mm.Valid() && PG.Later(old(mm.View()), mm.View())
    ensures fresh(holes) && holes.Length == mm.ranges.Length > 0 && nvr <= holes.Length
    ensures r == Done ==>
              && pg != null && fresh(pg) && pg.mm == mm && pg.Valid()
              && Prepared(old(mm.View()), s1, mm.View(), mm.ranges.Length, holes[..nvr], va, pg.mem, pg.pdpt, pg.owner)
    ensures r != Done ==> PG.NoFrame(mm) || CannotStart(old(mm.View()), mm.ranges.Length)
    ensures Enough(old(mm.View()), mm.ranges.Length) ==>
              && r == Done
              && Supplied(old(mm.View()), mm.View(), mm.ranges.Length, pg.mem, pg.pdpt, NeededSlots(old(mm.View())))
  {
    hide PG.NoFrame, MapOk, Alloc, PG.Later, PG.TablesReserved, Building, NoRam, Wf, LargeOffPool, PoolUntouched,
      PoolOk, Touched, PG.InLowRam, PG.FramesFrom, PoolExact, ListGoesTo, ListGoesToMap, CannotStart, Enough,
      SameBase, TablesFit, NeededSlots, Room, PtSlots, Supplied, WalkPage;
    ghost var s, needed, cap := mm.View(), NeededSlots(mm.View()), mm.ranges.Length;
    pg, s1 := null, s;
    MapNotEmpty(s);
    r, va, holes, nvr := ListHoles(mm);
    if r != Done {
      return;
    }
    s1 := mm.View();
    ghost var pool := holes[..nvr];
    var pdpt, mem;
    ghost var owner;
    r, pdpt, mem, owner := SetUpTables(mm, mem0, |needed|);
    ghost var t := mm.View();
    PG.LaterTransitive(s, s1, t);
    if r != Done {
      if !PG.NoFrame(mm) {
        TablesCannotStart(s, cap, s1);
      }
      return;
    }
    BlankTables(mem, pdpt, owner, pool);
    pg := new PG.Paging(mm, pdpt, mem, owner);
    if Enough(s, cap) {
      SameBaseTransitive(s, s1, t);
      SuppliedNow(s, t, cap, mem, pdpt, needed);
    }
  }

  lemma BlankTables(m: Memory, pdpt: nat, owner: Owner, pool: seq<VaRange>)
    requires Building(m, pdpt, owner, 4)
    ensures Wf(m, pdpt, owner) && LargeOffPool(m, pdpt, pool) && PtSlots(m, pdpt) == {}
    ensures forall p: nat :: p < 0x10_0000 ==> WalkPage(m, pdpt, p) == Absent
  {
    hide WalkPage, Pde, Building, InSome, Wf;
    BuiltIsEmpty(m, pdpt, owner);
  }

  lemma NothingPassed(m: Memory, pdpt: nat, pool: seq<VaRange>, flags: nat)
    requires forall p: nat :: p < 0x10_0000 ==> WalkPage(m, pdpt, p) == Absent
    ensures PassedTo(m, pdpt, pool, 0, flags)
  {
    hide WalkPage, InSome;
  }

  lemma StartIsKept(s: seq<MemRange>, s1: seq<MemRange>, t: seq<MemRange>)
    requires PG.Later(s, s1) && PG.Later(s1, t) && s != []
    ensures t != [] && t[0].start == s[0].start && t[0].uefiAttr == s[0].uefiAttr
  {
    hide Refines, RamShrinks, PG.LowRamShrinks, PG.OnlyRamCut;
    FirstKept(s, s1);
    FirstKept(s1, t);
  }

  /** The pages of all that stage 2 reaches by physical address are covered. */
  ghost predicate Covers(s: seq<MemRange>, vs: VS.VaSpace)
    reads vs, vs.pg, vs.pg.mm, vs.pg.mm.ranges
  {
    AllCovered(s, vs.pool, vs.pg.mm.View(), vs.pg.pdpt, vs.pg.owner, vs.listAt, vs.ListEnd(), vs.pg.mm.at, vs.MapEnd())
  }

  lemma MapNotEmpty(s: seq<MemRange>)
    requires MapOk(s)
    ensures s != []
  {
  }

  lemma FirstKept(s: seq<MemRange>, t: seq<MemRange>)
    requires PG.Grew(s, t) && s != []
    ensures t != [] && t[0].start == s[0].start && t[0].uefiAttr == s[0].uefiAttr
  {
  }

  /** The two passes of VaInit over empty tables. */
  method TwoPasses(pg: PG.Paging, holes: array<VaRange>, nvr: nat, flags: nat,
                   ghost pool: seq<VaRange>, ghost s: seq<MemRange>, ghost s1: seq<MemRange>)
    returns (r: Outcome, ghost attrs: Attributes)
    requires 0 < nvr <= holes.Length && holes[..nvr] == pool && flags < 0x80
    requires MapOk(s) && s != [] && flags == PteFlags(s[0].uefiAttr)
    requires PassedTo(pg.mem, pg.pdpt, pool, 0, flags) && LargeOffPool(pg.mem, pg.pdpt, pool)
    requires PoolOk(pool) && PoolUntouched(pool, s1) && PoolExact(pool, s)
    requires pg.Valid() && PG.Later(s, s1) && PG.Later(s1, pg.mm.View())
    modifies pg, pg.mm`num, pg.mm.ranges
    ensures pg.Valid() && PG.Later(old(pg.mm.View()), pg.mm.View())
    ensures PG.FramesFrom(old(pg.owner), pg.owner, old(pg.mm.View()))
    ensures r == Done ==>
              && Ready(pg.mem, pg.pdpt, s, pool, attrs)
              && PoolAbsent(pg.mem, pg.pdpt, pool) && LargeOffPool(pg.mem, pg.pdpt, pool)
    ensures r != Done ==> PG.NoFrame(pg.mm)
    ensures Supplied(s, old(pg.mm.View()), pg.mm.ranges.Length, old(pg.mem), pg.pdpt, NeededSlots(s)) ==>
              r == Done && SameBase(s, pg.mm.View()) && BaseOf(attrs.mapped) == Rest(s, 0)
  {
    hide MapOk, PG.Later, PG.TablesReserved, Wf, Ready, PassedTo, LargeOffPool, PoolUntouched, Alloc, AttrInv, PoolOk,
      PteFlags, InSome, Touched, PoolAbsent, Refines, PG.FramesFrom, PoolExact, BaseOf, BaseWant, HasPt, Rest,
      SameBase, Room, Supplied, Pays, Lacks, NeededSlots, GapsWithin, PiecesWithin, PtSlots;
    ghost var t0, o0, m0, cap, needed := pg.mm.View(), pg.owner, pg.mem, pg.mm.ranges.Length, NeededSlots(s);
    attrs := Attributes(cap, t0, false, []);
    GapsKeepWithin(s, pool);
    r := MapGaps(pg, holes, nvr, flags, pool, needed);
    ghost var t1, o1 := pg.mm.View(), pg.owner;
    PG.LaterTransitive(s1, t0, t1);
    PG.LaterTransitive(s, s1, t1);
    if Supplied(s, t0, cap, m0, pg.pdpt, needed) {
      StaysSupplied(s, t0, t1, cap, m0, pg.mem, pg.pdpt, needed);
    }
    if r != Done {
      return;
    }
    ghost var m1 := pg.mem;
    FirstPassLeavesPool(m1, pg.pdpt, pool, flags);
    ghost var mapped;
    PiecesStayWithin(s, s1);
    r, mapped := MapAttributes(pg, pool, s1, needed);
    ghost var t2 := pg.mm.View();
    PG.LaterTransitive(t0, t1, t2);
    PG.FramesThen(o0, o1, pg.owner, t0, t1);
    PaysThen(m0, m1, pg.mem, pg.pdpt, t0, t1, t2, cap, needed);
    if Supplied(s, t0, cap, m0, pg.pdpt, needed) {
      StaysSupplied(s, t0, t2, cap, m0, pg.mem, pg.pdpt, needed);
      BaseIsPlain(s, t1, cap, m1, pg.pdpt);
    }
    if r != Done {
      return;
    }
    LaterRefines(s, s1);
    LaterRefines(s1, t2);
    attrs := Attributes(cap, t1, HasPt(m1, pg.pdpt, 0), mapped);
    PassesMakeReady(m1, pg.mem, pg.pdpt, s, s1, t2, pool, attrs);
    AttrLeavesPool(m1, pg.mem, pg.pdpt, pool, s1, t2, mapped);
  }

  lemma PiecesStayWithin(s: seq<MemRange>, s1: seq<MemRange>)
    requires PG.Later(s, s1)
    ensures PiecesWithin(s1, NeededSlots(s))
  {
    hide Refines, RamShrinks, PG.Grew, PG.LowRamShrinks, PiecesWithin, NeededSlots;
    PiecesKeepWithin(s);
    PiecesLater(s, s1, NeededSlots(s));
  }

  /** The address space with all of the pool free. */
  method MakeSpace(pg: PG.Paging, listAt: nat, holes: array<VaRange>, nvr: nat, ghost pool: seq<VaRange>)
    returns (vs: VS.VaSpace)
    requires nvr <= holes.Length && holes[..nvr] == pool && PoolOk(pool) && pg.Valid()
    requires PoolAbsent(pg.mem, pg.pdpt, pool) && LargeOffPool(pg.mem, pg.pdpt, pool)
    requires var listEnd, mapEnd := listAt + holes.Length * VS.VA_RANGE_SIZE,
                                    pg.mm.at + pg.mm.ranges.Length * PhysMap.RANGE_SIZE;
             && Kept(pg.mm.View(), pg.pdpt, pg.owner, listAt, listEnd)
             && Kept(pg.mm.View(), pg.pdpt, pg.owner, pg.mm.at, mapEnd)
             && (listEnd <= pg.mm.at || mapEnd <= listAt)
    ensures fresh(vs) && vs.pg == pg && vs.listAt == listAt && vs.ranges == holes && vs.Valid()
    ensures vs.live == map[] && vs.Free() == vs.pool == pool && vs.base == pg.mem
  {
    hide MapOk, PG.TablesReserved, Wf, LargeOffPool, PoolOk, Partition, Translates, PoolAbsent, Kept;
    FreshPartition(pool);
    FreshTranslation(pg.mem, pg.pdpt, pool);
    vs := new VS.VaSpace(pg, listAt, holes, nvr, pg.mem);
  }

  lemma AttrLeavesPool(m0: Memory, m: Memory, pdpt: nat, pool: seq<VaRange>, s: seq<MemRange>, t: seq<MemRange>,
                       mapped: seq<MemRange>)
    requires AttrInv(m0, m, pdpt, pool, s, t, |t|, mapped)
    ensures PoolAbsent(m, pdpt, pool) && LargeOffPool(m, pdpt, pool)
  {
  }

  // ---------------------------------------------------------------------------------------
  // The tables can be reached

  /** All tables and lists have been put into RAM of the map s, by way of s1 and t, and neither
      overlap the map, which was no RAM, nor each other. */
  lemma AllPlaced(s: seq<MemRange>, s1: seq<MemRange>, t: seq<MemRange>, u: seq<MemRange>, pdpt: nat, o0: Owner,
                  o1: Owner, listAt: nat, listEnd: nat, mapAt: nat, mapEnd: nat)
    requires PG.Later(s, s1) && PG.Later(s1, t) && PG.Later(t, u)
    requires PG.InLowRam(s, listAt, listEnd) && PG.InLowRam(s1, pdpt, pdpt + 32)
    requires PG.FramesFrom(map[], o0, s1) && PG.FramesFrom(o0, o1, t)
    requires listAt < listEnd && mapAt < mapEnd <= XM32_MAX_ADDR && InOne(s, mapAt, mapEnd)
    requires NoRam(s, mapAt, mapEnd) && NoRam(s1, listAt, listEnd)
    ensures Housed(s, pdpt, o1, listAt, listEnd, mapAt, mapEnd)
    ensures Kept(u, pdpt, o1, listAt, listEnd) && Kept(u, pdpt, o1, mapAt, mapEnd)
    ensures listEnd <= mapAt || mapEnd <= listAt
  {
    hide PG.InLowRam, PG.Later, NoRam, InOne, PG.FramesFrom, Kept, Housed;
    PG.FramesThen(map[], o0, o1, s1, t);
    PG.LaterTransitive(s1, t, u);
    StaysOff(s, s1, mapAt, mapEnd);
    KeptFrom(s1, u, pdpt, o1, listAt, listEnd);
    KeptFrom(s1, u, pdpt, o1, mapAt, mapEnd);
    RamIsOff(s, mapAt, mapEnd, listAt, listEnd);
    AllHoused(s, s1, pdpt, o1, listAt, listEnd, mapAt, mapEnd);
  }

  lemma StaysOff(s: seq<MemRange>, t: seq<MemRange>, lo: int, hi: int)
    requires PG.Later(s, t) && NoRam(s, lo, hi)
    ensures NoRam(t, lo, hi)
  {
    hide Refines, PG.Grew, PG.LowRamShrinks, PG.OnlyRamCut, NoRam;
    ShrinkingKeepsNoRam(t, s);
  }

  lemma AllHoused(s: seq<MemRange>, s1: seq<MemRange>, pdpt: nat, owner: Owner,
                  listAt: nat, listEnd: nat, mapAt: nat, mapEnd: nat)
    requires PG.Later(s, s1)
    requires PG.InLowRam(s, listAt, listEnd) && PG.InLowRam(s1, pdpt, pdpt + 32) && PG.FramesFrom(map[], owner, s1)
    requires listAt < listEnd && mapAt < mapEnd <= XM32_MAX_ADDR && InOne(s, mapAt, mapEnd)
    ensures Housed(s, pdpt, owner, listAt, listEnd, mapAt, mapEnd)
  {
    hide PG.InLowRam, Refines, RamShrinks, PG.Grew, PG.OnlyRamCut, PG.LowRamShrinks, InOne;
    PG.LowRamWas(s, s1, pdpt, pdpt + 32);
    forall f | f in owner ensures PG.InLowRam(s, f, f + 0x1000) {
      PG.LowRamWas(s, s1, f, f + 0x1000);
    }
  }

  lemma ReachableIff(vs: VS.VaSpace, s: seq<MemRange>, a: Attributes)
    requires vs.pg.mm.Valid() && Ready(vs.base, vs.pg.pdpt, s, vs.pool, a) && PG.Later(s, vs.pg.mm.View())
    requires Housed(s, vs.pg.pdpt, vs.pg.owner, vs.listAt, vs.ListEnd(), vs.pg.mm.at, vs.MapEnd())
    ensures vs.Reachable() <==> Covers(s, vs)
    ensures RamEndsBelow(s, PoolEnd(vs.pool)) && vs.MapEnd() <= PoolEnd(vs.pool) ==> vs.Reachable()
  {
    hide Ready, PG.Later, Housed, AllSafe, AllCovered, RamEndsBelow, PoolEnd, MapOk;
    var t := vs.pg.mm.View();
    AllSafeIff(vs.base, vs.pg.pdpt, s, vs.pool, a, t, vs.pg.owner, vs.listAt, vs.ListEnd(), vs.pg.mm.at, vs.MapEnd());
    if RamEndsBelow(s, PoolEnd(vs.pool)) && vs.MapEnd() <= PoolEnd(vs.pool) {
      RamBelowSuffices(s, vs.pool, t, vs.pg.pdpt, vs.pg.owner, vs.listAt, vs.ListEnd(), vs.pg.mm.at, vs.MapEnd());
    }
  }
}

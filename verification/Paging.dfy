/** ensure_pt, do_va_map and do_va_unmap on memory (stage2/mem.c:209-308). */
module Paging {
  import opened Machine
  import opened MemMap
  import opened AllocRuns
  import opened PageTable
  import opened Supply
  import opened TableNeeds
  import PhysMap

  /** Entry i of s, or its lower piece, is entry i or a later one of t. */
  ghost predicate StartsAtOrAfter(t: seq<MemRange>, i: nat, start: nat) {
    exists j :: i <= j < |t| && t[j].start == start
  }

  /** Entries have only been split, so they move up, and stay in place if there are no more. */
  ghost predicate Grew(s: seq<MemRange>, t: seq<MemRange>) {
    && |s| <= |t|
    && (forall i: nat :: i < |s| ==> StartsAtOrAfter(t, i, s[i].start))
    && (|s| == |t| ==> forall i :: 0 <= i < |s| ==> t[i].start == s[i].start)
    && (s != [] ==> t[0].start == s[0].start && t[0].uefiAttr == s[0].uefiAttr)
  }

  /** RAM that the allocator can hand out for a table. */
  predicate LowRam(r: MemRange) {
    IsRam(r) && End(r) <= XM32_MAX_ADDR
  }

  ghost predicate InLowRam(s: seq<MemRange>, lo: int, hi: int) {
    exists i :: 0 <= i < |s| && LowRam(s[i]) && s[i].start <= lo && hi <= End(s[i])
  }

  ghost predicate LowRamShrinks(t: seq<MemRange>, s: seq<MemRange>) {
    forall j :: 0 <= j < |t| && LowRam(t[j]) ==> InLowRam(s, t[j].start, End(t[j]))
  }

  /** r is a part of the RAM range q, or is q, which is no RAM. */
  predicate Piece(r: MemRange, q: MemRange) {
    Inside(r, q) && (IsRam(q) || r == q)
  }

  ghost predicate PieceOfSome(r: MemRange, s: seq<MemRange>) {
    exists i :: 0 <= i < |s| && Piece(r, s[i])
  }

  ghost predicate OnlyRamCut(t: seq<MemRange>, s: seq<MemRange>) {
    forall j :: 0 <= j < |t| ==> PieceOfSome(t[j], s)
  }

  /** t is s after some allocations. */
  ghost predicate Later(s: seq<MemRange>, t: seq<MemRange>) {
    Refines(t, s) && RamShrinks(t, s) && Grew(s, t) && LowRamShrinks(t, s) && OnlyRamCut(t, s)
  }

  lemma OnlyRamCutTransitive(s: seq<MemRange>, t: seq<MemRange>, u: seq<MemRange>)
    requires OnlyRamCut(t, s) && OnlyRamCut(u, t)
    ensures OnlyRamCut(u, s)
  {
    forall j | 0 <= j < |u| ensures PieceOfSome(u[j], s) {
      var i :| 0 <= i < |t| && Piece(u[j], t[i]);
      assert PieceOfSome(t[i], s);
      var k :| 0 <= k < |s| && Piece(t[i], s[k]);
      assert Piece(u[j], s[k]);
    }
  }

  lemma LowRamWas(s: seq<MemRange>, t: seq<MemRange>, lo: int, hi: int)
    requires LowRamShrinks(t, s) && InLowRam(t, lo, hi)
    ensures InLowRam(s, lo, hi)
  {
    var j :| 0 <= j < |t| && LowRam(t[j]) && t[j].start <= lo && hi <= End(t[j]);
    assert InLowRam(s, t[j].start, End(t[j]));
  }

  lemma LowRamTransitive(s: seq<MemRange>, t: seq<MemRange>, u: seq<MemRange>)
    requires LowRamShrinks(t, s) && LowRamShrinks(u, t)
    ensures LowRamShrinks(u, s)
  {
    forall j | 0 <= j < |u| && LowRam(u[j]) ensures InLowRam(s, u[j].start, End(u[j])) {
      LowRamWas(s, t, u[j].start, End(u[j]));
    }
  }

  lemma SplitKeepsLowRam(s: seq<MemRange>, i: nat, point: nat)
    requires i < |s| && LowRam(s[i]) && s[i].start <= point < End(s[i])
    ensures LowRamShrinks(SplitRange(s, i, point, E820_RAM, E820_RESERVED), s)
  {
    hide SplitRange;
    var t := SplitRange(s, i, point, E820_RAM, E820_RESERVED);
    forall j | 0 <= j < |t| && LowRam(t[j]) ensures InLowRam(s, t[j].start, End(t[j])) {
      SplitEntry(s, i, point, j);
      var k := Origin(s, i, point, j);
      assert LowRam(s[k]) && s[k].start <= t[j].start;
    }
  }

  lemma SplitCutsOnlyRam(s: seq<MemRange>, i: nat, point: nat)
    requires i < |s| && IsRam(s[i]) && s[i].start <= point < End(s[i])
    ensures OnlyRamCut(SplitRange(s, i, point, E820_RAM, E820_RESERVED), s)
  {
    hide SplitRange;
    var t := SplitRange(s, i, point, E820_RAM, E820_RESERVED);
    forall j | 0 <= j < |t| ensures PieceOfSome(t[j], s) {
      SplitEntry(s, i, point, j);
      assert Piece(t[j], s[Origin(s, i, point, j)]);
    }
  }

  lemma GrewTransitive(s: seq<MemRange>, t: seq<MemRange>, u: seq<MemRange>)
    requires Grew(s, t) && Grew(t, u)
    ensures Grew(s, u)
  {
    forall i: nat | i < |s| ensures StartsAtOrAfter(u, i, s[i].start) {
      assert StartsAtOrAfter(t, i, s[i].start);
      var j :| i <= j < |t| && t[j].start == s[i].start;
      assert StartsAtOrAfter(u, j, t[j].start);
    }
  }

  lemma LaterTransitive(s: seq<MemRange>, t: seq<MemRange>, u: seq<MemRange>)
    requires Later(s, t) && Later(t, u)
    ensures Later(s, u)
  {
    hide Refines, RamShrinks, Grew, LowRamShrinks, OnlyRamCut;
    OnlyRamCutTransitive(s, t, u);
    RefinesTransitive(u, t, s);
    ShrinkingTransitive(u, t, s);
    GrewTransitive(s, t, u);
    LowRamTransitive(s, t, u);
  }

  lemma LaterReflexive(s: seq<MemRange>)
    ensures Later(s, s)
  {
    RefinesReflexive(s);
    forall i: nat | i < |s| ensures StartsAtOrAfter(s, i, s[i].start) {
    }
    forall i | 0 <= i < |s| && LowRam(s[i]) ensures InLowRam(s, s[i].start, End(s[i])) {
    }
    forall i | 0 <= i < |s| ensures PieceOfSome(s[i], s) {
      assert Piece(s[i], s[i]);
    }
  }

  /** Byte a is described by some range. */
  ghost predicate Described(s: seq<MemRange>, a: int) {
    exists i :: 0 <= i < |s| && InRange(s[i], a)
  }

  lemma DescribedLater(s: seq<MemRange>, t: seq<MemRange>, a: int)
    requires Refines(t, s) && Described(s, a)
    ensures Described(t, a)
  {
    var i :| 0 <= i < |s| && InRange(s[i], a);
    assert Covers(s, a, s[i].uefiAttr);
  }

  lemma DescribedEarlier(s: seq<MemRange>, t: seq<MemRange>, a: int)
    requires Refines(t, s) && Described(t, a)
    ensures Described(s, a)
  {
    RefinesSameCover(t, s);
    var i :| 0 <= i < |t| && InRange(t[i], a);
    assert Covers(t, a, t[i].uefiAttr);
  }

  /** No table lies in RAM that the allocator could hand out again, and every table frame is
      part of the memory map. */
  ghost predicate TablesReserved(s: seq<MemRange>, pdpt: nat, owner: Owner) {
    && NoRam(s, pdpt, pdpt + 32) && Described(s, pdpt)
    && (forall f :: f in owner ==> NoRam(s, f, f + 0x1000))
    && (forall f :: f in owner ==> Described(s, f))
  }

  lemma TablesStayReserved(s: seq<MemRange>, t: seq<MemRange>, pdpt: nat, owner: Owner)
    requires TablesReserved(s, pdpt, owner) && Later(s, t)
    ensures TablesReserved(t, pdpt, owner)
  {
    hide NoRam, Described, RamShrinks, Refines, Grew, LowRamShrinks, OnlyRamCut;
    ShrinkingKeepsNoRam(t, s);
    DescribedLater(s, t, pdpt);
    forall f | f in owner ensures Described(t, f) {
      DescribedLater(s, t, f);
    }
  }

  lemma SplitGrows(s: seq<MemRange>, i: nat, point: nat)
    requires i < |s| && IsRam(s[i]) && s[i].start <= point < End(s[i])
    ensures Grew(s, SplitRange(s, i, point, E820_RAM, E820_RESERVED))
  {
    hide SplitRange;
    var t := SplitRange(s, i, point, E820_RAM, E820_RESERVED);
    var wide := SplitNeedsRoom(s[i], point);
    forall k: nat | k < |s| ensures StartsAtOrAfter(t, k, s[k].start) {
      var j := if wide && k > i then k + 1 else k;
      SplitEntry(s, i, point, j);
      assert t[j].start == s[k].start;
    }
    SplitEntry(s, i, point, 0);
    if !wide {
      forall k | 0 <= k < |s| ensures t[k].start == s[k].start {
        SplitEntry(s, i, point, k);
      }
    }
  }

  /** What mem_alloc does, for its callers here. */
  lemma AllocIsLater(s: seq<MemRange>, cap: nat, sz: nat, align: nat)
    requires MapOk(s) && |s| <= cap && sz > 0 && align > 0
    requires Alloc(s, cap, sz, align, 0).Placed?
    ensures var r := Alloc(s, cap, sz, align, 0); var g, t := r.start, r.map';
            && g % align == 0 && g + sz <= XM32_MAX_ADDR
            && MapOk(t) && |t| <= cap && Later(s, t) && NoRam(t, g, g + sz) && Described(s, g) && InLowRam(s, g, g + sz)
            && (forall lo: int, hi: int :: NoRam(s, lo, hi) && lo < hi ==> g + sz <= lo || hi <= g)
  {
    hide Alloc, MapOk, Refines, RamShrinks, Grew, SplitRange, LowRamShrinks, OnlyRamCut;
    AllocEffect(s, cap, sz, align, 0);
    var r := Alloc(s, cap, sz, align, 0);
    AllocSplits(s, cap, sz, align);
    SplitGrows(s, r.index, r.start);
    SplitKeepsLowRam(s, r.index, r.start);
    SplitCutsOnlyRam(s, r.index, r.start);
    assert InRange(s[r.index], r.start);
  }

  /** A frame that mem_alloc returns holds no table. */
  lemma NewFrameIsFresh(s: seq<MemRange>, cap: nat, pdpt: nat, owner: Owner)
    requires MapOk(s) && |s| <= cap && TablesReserved(s, pdpt, owner) && pdpt % 32 == 0
    requires Alloc(s, cap, 0x1000, 0x1000, 0).Placed?
    ensures var r := Alloc(s, cap, 0x1000, 0x1000, 0); var g, t := r.start, r.map';
            && g % 0x1000 == 0 && g + 0x1000 <= XM32_MAX_ADDR && g !in owner && g != FrameOf(pdpt)
            && MapOk(t) && |t| <= cap && Later(s, t) && NoRam(t, g, g + 0x1000) && Described(t, g)
            && TablesReserved(t, pdpt, owner) && InLowRam(s, g, g + 0x1000)
  {
    hide Alloc, MapOk, FrameOf, Later, NoRam, Described, InLowRam;
    AllocIsLater(s, cap, 0x1000, 0x1000);
    var r := Alloc(s, cap, 0x1000, 0x1000, 0);
    TablesStayReserved(s, r.map', pdpt, owner);
    LaterDescribed(s, r.map', r.start);
    FrameIsBase(pdpt);
    PdptFits(pdpt);
  }

  lemma LaterDescribed(s: seq<MemRange>, t: seq<MemRange>, a: int)
    requires Later(s, t)
    ensures Described(t, a) <==> Described(s, a)
  {
    hide Described;
    if Described(s, a) {
      DescribedLater(s, t, a);
    }
    if Described(t, a) {
      DescribedEarlier(s, t, a);
    }
  }

  /** New tables have been put only where s has RAM that could be handed out. */
  ghost predicate FramesFrom(o0: Owner, o1: Owner, s: seq<MemRange>) {
    (forall f :: f in o0 ==> f in o1)
    && forall f :: f in o1 ==> f in o0 || InLowRam(s, f, f + 0x1000)
  }

  lemma FramesThen(o0: Owner, o1: Owner, o2: Owner, s: seq<MemRange>, t: seq<MemRange>)
    requires FramesFrom(o0, o1, s) && FramesFrom(o1, o2, t) && Later(s, t)
    ensures FramesFrom(o0, o2, s)
  {
    hide InLowRam, Refines, RamShrinks, Grew, LowRamShrinks, OnlyRamCut;
    forall f | f in o2 && InLowRam(t, f, f + 0x1000) ensures InLowRam(s, f, f + 0x1000) {
      LowRamWas(s, t, f, f + 0x1000);
    }
  }

  lemma NoFramesYet(o: Owner, s: seq<MemRange>)
    ensures FramesFrom(o, o, s)
  {
  }

  /** The map after a frame has been taken for a table. */
  ghost function AfterFrame(s: seq<MemRange>, cap: nat): seq<MemRange> {
    if !MapOk(s) then s
    else match Alloc(s, cap, 0x1000, 0x1000, 0) case Placed(_, _, t) => t case _ => s
  }

  lemma AfterFrameIs(s: seq<MemRange>, cap: nat)
    requires MapOk(s)
    ensures Alloc(s, cap, 0x1000, 0x1000, 0).Placed? ==> AfterFrame(s, cap) == Alloc(s, cap, 0x1000, 0x1000, 0).map'
  {
    hide MapOk, Alloc;
  }

  /** The map after pages of one slot have been mapped as small pages. */
  ghost function SlotMapped(s: seq<MemRange>, cap: nat, had: bool): seq<MemRange> {
    if had then s else AfterFrame(s, cap)
  }

  /** Mapping pages lo..hi of base memory, all in slot 0, has reached page p: a frame has been
      taken on the first page, unless the slot had a table. */
  ghost predicate SlotZero(hi: nat, lo: nat, p: nat, had: bool, has: bool, s: seq<MemRange>, t: seq<MemRange>,
                           cap: nat) {
    hi <= 0x100 ==> if p == lo then t == s && has == had else has && t == SlotMapped(s, cap, had)
  }

  /** Mapping pages of one slot as small pages takes a frame if the slot has no table. */
  lemma SlotSpends(s: seq<MemRange>, cap: nat, had: bool)
    ensures Spends(s, SlotMapped(s, cap, had), cap, if had then 0 else 1)
  {
    hide Alloc, MapOk, HasBytes, SameBase;
    SpendsNothing(s, cap);
    if !had {
      forall n: nat | 1 <= n && Room(s, cap, n)
        ensures Room(SlotMapped(s, cap, had), cap, n - 1) && SameBase(s, SlotMapped(s, cap, had))
      {
        FrameStep(s, cap, n);
      }
    }
  }

  lemma SlotZeroStart(hi: nat, lo: nat, had: bool, s: seq<MemRange>, cap: nat)
    ensures SlotZero(hi, lo, lo, had, had, s, s, cap)
  {
  }

  lemma SlotZeroStep(hi: nat, lo: nat, p: nat, had: bool, has: bool, has1: bool, s: seq<MemRange>, t: seq<MemRange>,
                     t1: seq<MemRange>, cap: nat)
    requires SlotZero(hi, lo, p, had, has, s, t, cap) && lo <= p < hi
    requires p / 512 == 0 ==> has1 && t1 == SlotMapped(t, cap, has)
    ensures SlotZero(hi, lo, p + 1, had, has1, s, t1, cap)
  {
    hide AfterFrame;
  }

  /** No large page fits into base memory. */
  lemma SlotZeroLarge(hi: nat, lo: nat, p: nat, had: bool, has1: bool, s: seq<MemRange>, t: seq<MemRange>, cap: nat)
    requires p + 512 <= hi
    ensures SlotZero(hi, lo, p + 512, had, has1, s, t, cap)
  {
  }

  lemma SlotZeroEnd(vstart: nat, len: nat, had: bool, has: bool, s: seq<MemRange>, t: seq<MemRange>, cap: nat)
    requires vstart % 0x1000 == 0 && len % 0x1000 == 0
    requires SlotZero((vstart + len) / 0x1000, vstart / 0x1000, (vstart + len) / 0x1000, had, has, s, t, cap)
    ensures 0 < len && vstart + len <= BMEM_MAX_ADDR ==> has && t == SlotMapped(s, cap, had)
  {
    assert 0 < len ==> vstart / 0x1000 < (vstart + len) / 0x1000;
  }

  lemma LargeStepFits(v: uint32, pa: nat, left: nat, lo: nat, p: nat, hi: nat, pstart: nat)
    requires Reached(v, pa, left, lo, p, hi, pstart) && left >= 0x20_0000
    ensures p + 512 <= hi
  {
  }

  /** What a loop of do_va_map has done on reaching page p: the pages behind it are mapped, and
      the tables that took are in what was RAM of the map s. */
  ghost predicate MappedUpTo(m0: Memory, m: Memory, pdpt: nat, lo: nat, p: nat, hi: nat, pstart: nat, attr: nat,
                             o0: Owner, o: Owner, s: seq<MemRange>, t: seq<MemRange>, cap: nat) {
    && MapsTo(m0, m, pdpt, lo, p, pstart, attr) && LargeOnlyIn(m0, m, pdpt, lo, p)
    && Later(s, t) && FramesFrom(o0, o, s)
    && SlotZero(hi, lo, p, HasPt(m0, pdpt, 0), HasPt(m, pdpt, 0), s, t, cap)
    && Costs(m0, m, pdpt, lo, p, hi, pstart, s, t, cap)
  }

  lemma MappedCosts(m0: Memory, m: Memory, pdpt: nat, lo: nat, p: nat, hi: nat, pstart: nat, attr: nat,
                    o0: Owner, o: Owner, s: seq<MemRange>, t: seq<MemRange>, cap: nat)
    requires MappedUpTo(m0, m, pdpt, lo, p, hi, pstart, attr, o0, o, s, t, cap)
    ensures PtsWithin(m0, m, pdpt, lo, hi, pstart) && SpentOn(m0, m, pdpt, s, t, cap) && MidSlot(m, pdpt, lo, p)
  {
    hide MapsTo, LargeOnlyIn, Later, FramesFrom, SlotZero, HasPt, PtsWithin, SpentOn, MidSlot;
  }

  lemma MappedStart(m: Memory, pdpt: nat, lo: nat, hi: nat, pstart: nat, attr: nat, o: Owner, s: seq<MemRange>,
                    cap: nat)
    ensures MappedUpTo(m, m, pdpt, lo, lo, hi, pstart, attr, o, o, s, s, cap)
  {
    LaterReflexive(s);
    NoFramesYet(o, s);
    SlotZeroStart(hi, lo, HasPt(m, pdpt, 0), s, cap);
    CostsNothing(m, pdpt, lo, hi, pstart, s, cap);
    MapsToNothing(m, pdpt, lo, pstart, attr);
  }

  lemma MappedSmall(m0: Memory, m: Memory, m1: Memory, pdpt: nat, lo: nat, p: nat, hi: nat, pstart: nat, pa: nat,
                    attr: nat, o0: Owner, o: Owner, o1: Owner, s: seq<MemRange>, t: seq<MemRange>, t1: seq<MemRange>,
                    cap: nat)
    requires MappedUpTo(m0, m, pdpt, lo, p, hi, pstart, attr, o0, o, s, t, cap) && lo <= p < hi
    requires pa == (pstart + (p - lo) * 0x1000) % TWO64
    requires MapsTo(m, m1, pdpt, p, p + 1, pa, attr) && LargeOnlyIn(m, m1, pdpt, p, p + 1)
    requires Later(t, t1) && FramesFrom(o, o1, t)
    requires HasPt(m1, pdpt, p / 512) && t1 == SlotMapped(t, cap, HasPt(m, pdpt, p / 512)) && p < 0x10_0000
    requires PtSlots(m1, pdpt) == PtSlots(m, pdpt) + {p / 512}
    requires HasPt(m, pdpt, p / 512) || NeedsPt(p / 512, lo, hi, pstart)
    ensures MappedUpTo(m0, m1, pdpt, lo, p + 1, hi, pstart, attr, o0, o1, s, t1, cap)
  {
    hide Later, FramesFrom, SlotZero, HasPt, SlotMapped, MapsTo, LargeOnlyIn, Costs, PtSlots, NeedsPt, Spends;
    SlotSpends(t, cap, HasPt(m, pdpt, p / 512));
    CostsSmall(m0, m, m1, pdpt, lo, p, hi, pstart, s, t, t1, cap);
    MapsToThen(m0, m, m1, pdpt, lo, p, 1, pstart, pa, attr);
    LaterTransitive(s, t, t1);
    FramesThen(o0, o, o1, s, t);
    SlotZeroStep(hi, lo, p, HasPt(m0, pdpt, 0), HasPt(m, pdpt, 0), HasPt(m1, pdpt, 0), s, t, t1, cap);
  }

  lemma MappedLarge(m0: Memory, m: Memory, m1: Memory, pdpt: nat, lo: nat, p: nat, hi: nat, pstart: nat, pa: nat,
                    attr: nat, o0: Owner, o: Owner, s: seq<MemRange>, t: seq<MemRange>, cap: nat)
    requires MappedUpTo(m0, m, pdpt, lo, p, hi, pstart, attr, o0, o, s, t, cap) && lo <= p && p + 512 <= hi
    requires pa == (pstart + (p - lo) * 0x1000) % TWO64
    requires MapsTo(m, m1, pdpt, p, p + 512, pa, attr) && LargeOnlyIn(m, m1, pdpt, p, p + 512)
    requires PtSlots(m1, pdpt) == PtSlots(m, pdpt) && p % 512 == 0
    ensures MappedUpTo(m0, m1, pdpt, lo, p + 512, hi, pstart, attr, o0, o, s, t, cap)
  {
    hide Later, FramesFrom, SlotZero, HasPt, MapsTo, LargeOnlyIn, Costs, PtSlots;
    CostsLarge(m0, m, m1, pdpt, lo, p, hi, pstart, s, t, cap);
    MapsToThen(m0, m, m1, pdpt, lo, p, 512, pstart, pa, attr);
    SlotZeroLarge(hi, lo, p, HasPt(m0, pdpt, 0), HasPt(m1, pdpt, 0), s, t, cap);
  }

  lemma MappedEnd(m0: Memory, m: Memory, pdpt: nat, vstart: nat, len: nat, pstart: nat, attr: nat,
                  o0: Owner, o: Owner, s: seq<MemRange>, t: seq<MemRange>, cap: nat)
    requires vstart % 0x1000 == 0 && len % 0x1000 == 0
    requires var lo, hi := vstart / 0x1000, (vstart + len) / 0x1000;
             MappedUpTo(m0, m, pdpt, lo, hi, hi, pstart, attr, o0, o, s, t, cap)
    ensures var lo, hi := vstart / 0x1000, (vstart + len) / 0x1000;
            && MapsTo(m0, m, pdpt, lo, hi, pstart, attr) && LargeOnlyIn(m0, m, pdpt, lo, hi)
            && PtsWithin(m0, m, pdpt, lo, hi, pstart) && SpentOn(m0, m, pdpt, s, t, cap)
    ensures 0 < len && vstart + len <= BMEM_MAX_ADDR ==>
              HasPt(m, pdpt, 0) && t == SlotMapped(s, cap, HasPt(m0, pdpt, 0))
  {
    hide MapsTo, LargeOnlyIn, Later, FramesFrom, SlotZero, HasPt, SlotMapped, PtsWithin, SpentOn, MidSlot;
    SlotZeroEnd(vstart, len, HasPt(m0, pdpt, 0), HasPt(m, pdpt, 0), s, t, cap);
  }

  /** The allocator has no frame for another table. */
  ghost predicate NoFrame(mm: PhysMap.PhysMap)
    reads mm, mm.ranges
  {
    mm.Valid() && Alloc(mm.View(), mm.ranges.Length, 0x1000, 0x1000, 0).Stopped?
  }

  lemma PdptAligned(m: Memory, pdpt: nat, owner: Owner)
    requires Wf(m, pdpt, owner)
    ensures pdpt % 32 == 0
  {
  }

  lemma PdptFits(pdpt: nat)
    requires pdpt % 32 == 0
    ensures pdpt % 0x1000 <= 0x1000 - 32
  {
  }

  /** Where a loop over pages lo..hi stands when it has reached page p: the address of the
      page, the bytes left, and the physical address that goes with it. At the end the address
      may have wrapped around to 0. */
  ghost predicate Reached(v: uint32, pa: nat, left: nat, lo: nat, p: nat, hi: nat, pstart: nat) {
    && lo <= p <= hi <= 0x10_0000 && left == (hi - p) * 0x1000 && (left != 0 ==> v == p * 0x1000)
    && pa == (pstart + (p - lo) * 0x1000) % TWO64 && pstart % 0x1000 == 0
  }

  lemma ReachedStart(v: uint32, pa: uint64, len: uint32)
    requires v % 0x1000 == 0 && pa % 0x1000 == 0 && len % 0x1000 == 0 && v + len <= XM32_MAX_ADDR
    ensures Reached(v, pa, len, v / 0x1000, v / 0x1000, (v + len) / 0x1000, pa)
  {
  }

  lemma ReachedPage(v: uint32, pa: nat, left: nat, lo: nat, p: nat, hi: nat, pstart: nat)
    requires Reached(v, pa, left, lo, p, hi, pstart) && left != 0
    ensures p < 0x10_0000 && p < hi && v / 0x1000 % 512 == p % 512 && v / 0x20_0000 == p / 512 && left >= 0x1000
    ensures v % 0x20_0000 == 0 ==> p == 512 * (p / 512)
    ensures pa == (pstart + (p - lo) * 0x1000) % TWO64 && pa % 0x1000 == 0 && lo <= p
  {
    MultipleMod(p, 0x1000, 0);
    MultipleMod(p / 512, 0x20_0000, p % 512 * 0x1000);
    PageModulo(pstart / 0x1000 + (p - lo));
  }

  lemma PageModulo(n: nat)
    ensures n * 0x1000 % TWO64 % 0x1000 == 0
  {
    var d := n * 0x1000 / TWO64;
    assert n * 0x1000 % TWO64 == (n - d * 0x10_0000_0000_0000) * 0x1000;
    MultipleMod(n - d * 0x10_0000_0000_0000, 0x1000, 0);
  }

  lemma ReachedStep(v: uint32, pa: nat, left: nat, lo: nat, p: nat, hi: nat, pstart: nat, n: nat)
    requires Reached(v, pa, left, lo, p, hi, pstart) && 0 < n && n * 0x1000 <= left
    ensures Reached((v + n * 0x1000) % XM32_MAX_ADDR, (pa + n * 0x1000) % TWO64, left - n * 0x1000, lo, p + n, hi,
                    pstart)
  {
    AddModTwice(pstart + (p - lo) * 0x1000, n * 0x1000);
  }

  lemma ReachedEnd(v: uint32, pa: nat, lo: nat, p: nat, hi: nat, pstart: nat)
    requires Reached(v, pa, 0, lo, p, hi, pstart)
    ensures p == hi
  {
  }

  lemma SlotOfAddress(v: uint32)
    ensures v / 0x20_0000 < 2048 && v / 0x20_0000 / 512 == v / 0x4000_0000
    ensures v / 0x1000 / 512 == v / 0x20_0000 && v / 0x1000 < 0x10_0000
  {
  }

  lemma MaskedPdpte(f: nat)
    requires f % 0x1000 == 0 && f + 1 < XM32_MAX_ADDR
    ensures (f + 1) % XM32_MAX_ADDR / 0x20 * 0x20 == f
  {
    var q := f / 0x1000;
    assert f == q * 128 * 0x20;
  }

  /** The source reaches the PD through `(uint32_t) pdpte & -PDPT_ALIGN`. */
  function PdeOf(m: Memory, pdpt: nat, v: uint32): nat {
    var pdpte := Rd(m, pdpt + 8 * (v / 0x4000_0000)) % XM32_MAX_ADDR;
    pdpte / 0x20 * 0x20 + 8 * (v / 0x20_0000 % 512)
  }

  /** That is the address of the PDE of the slot. */
  lemma PdPointer(m: Memory, pdpt: nat, owner: Owner, v: uint32)
    requires Wf(m, pdpt, owner)
    ensures PdeOf(m, pdpt, v) == PdeAddr(m, pdpt, v / 0x20_0000)
  {
    hide FrameOf;
    var k := v / 0x20_0000;
    SlotOfAddress(v);
    PdFrame(m, pdpt, owner, k);
    var w := Rd(m, pdpt + 8 * (k / 512));
    assert PdpteOk(w, k / 512, owner);
    MaskedPdpte(FrameOf(w));
  }

  /** If page p is past the start of a large page, that page is not wholly in lo..hi. */
  ghost predicate InsideLarge(m0: Memory, pdpt: nat, lo: nat, p: nat, hi: nat) {
    p % 512 != 0 && Large(Pde(m0, pdpt, p / 512)) ==> !Removable(m0, pdpt, p / 512, lo, hi)
  }

  lemma EnterSlot(m0: Memory, pdpt: nat, lo: nat, p: nat, hi: nat)
    requires p == lo || p % 512 == 0
    ensures InsideLarge(m0, pdpt, lo, p, hi)
  {
    hide Pde, Large;
  }

  lemma StayInSlot(m0: Memory, pdpt: nat, lo: nat, p: nat, hi: nat)
    requires InsideLarge(m0, pdpt, lo, p, hi)
    requires Large(Pde(m0, pdpt, p / 512)) ==> !Removable(m0, pdpt, p / 512, lo, hi)
    ensures InsideLarge(m0, pdpt, lo, p + 1, hi)
  {
    hide Pde, Large, Removable;
    if (p + 1) % 512 != 0 {
      assert (p + 1) / 512 == p / 512;
    }
  }

  lemma ReachedWhole(v: uint32, pa: nat, left: nat, lo: nat, p: nat, hi: nat)
    requires Reached(v, pa, left, lo, p, hi, 0) && left >= 0x20_0000 && v % 0x20_0000 == 0
    ensures lo <= p && p == 512 * (p / 512) && p + 512 <= hi
  {
  }

  lemma WholeSlotRemovable(m0: Memory, pdpt: nat, lo: nat, p: nat, hi: nat)
    requires lo <= p && p == 512 * (p / 512) && p + 512 <= hi
    ensures Removable(m0, pdpt, p / 512, lo, hi)
  {
  }

  lemma PartialSlotKept(m0: Memory, pdpt: nat, v: uint32, pa: nat, left: nat, lo: nat, p: nat, hi: nat)
    requires Reached(v, pa, left, lo, p, hi, 0) && left != 0 && Large(Pde(m0, pdpt, p / 512))
    requires v % 0x20_0000 != 0 || left < 0x20_0000
    requires InsideLarge(m0, pdpt, lo, p, hi)
    ensures !Removable(m0, pdpt, p / 512, lo, hi)
  {
    hide Pde, Large;
    if p % 512 == 0 {
      assert v == p / 512 * 0x20_0000;
    }
  }

  lemma SmallSlotRemovable(m0: Memory, pdpt: nat, k: nat, lo: nat, hi: nat)
    requires !Large(Pde(m0, pdpt, k))
    ensures Removable(m0, pdpt, k, lo, hi)
  {
  }

  lemma OnePageSlot(p: nat)
    ensures (p + 1 - 1) / 512 == p / 512
  {
  }

  lemma SlotAhead(m0: Memory, m1: Memory, pdpt: nat, lo: nat, p: nat, hi: nat)
    requires UnmappedUpTo(m0, m1, pdpt, lo, p, hi) && p < 0x10_0000
    ensures Pde(m1, pdpt, p / 512) == Pde(m0, pdpt, p / 512)
  {
    hide WalkPage, Pde, Removable;
  }

  lemma LargeIsBig(w: nat)
    ensures LargeOk(w) ==> 0x80 <= w < TWO64
  {
  }

  lemma NoPtMeans(m: Memory, pdpt: nat, owner: Owner, k: nat)
    requires Wf(m, pdpt, owner) && k < 2048
    ensures !HasPt(m, pdpt, k) <==> Pde(m, pdpt, k) == 0 || Large(Pde(m, pdpt, k))
  {
    hide Wf, Pde, Large;
    PdeIsBlankOrLarge(m, pdpt, owner, k);
  }

  lemma SlotMultiple(d: int, q: nat)
    requires d % 0x20_0000 == 0 && q * 0x20_0000 + d >= 0
    ensures (q * 0x20_0000 + d) % TWO64 % 0x20_0000 == 0
  {
    var x := q * 0x20_0000 + d;
    var e, f := d / 0x20_0000, x / TWO64;
    assert x % TWO64 == (q + e - f * 0x800_0000_0000) * 0x20_0000;
    MultipleMod(q + e - f * 0x800_0000_0000, 0x20_0000, 0);
  }

  /** Where a small page is mapped and the slot has no table, it needs one. */
  lemma SmallNeedsPt(m: Memory, pdpt: nat, v: uint32, pa: nat, left: nat, lo: nat, p: nat, hi: nat, pstart: nat)
    requires Reached(v, pa, left, lo, p, hi, pstart) && left != 0 && MidSlot(m, pdpt, lo, p)
    requires v % 0x20_0000 != 0 || pa % 0x20_0000 != 0 || left < 0x20_0000 || HasPt(m, pdpt, p / 512)
    ensures HasPt(m, pdpt, p / 512) || NeedsPt(p / 512, lo, hi, pstart)
  {
    hide HasPt;
    var k := p / 512;
    if !HasPt(m, pdpt, k) && p == 512 * k && lo <= p && p + 512 <= hi {
      MultipleMod(k, 0x20_0000, 0);
      var d := pstart - lo * 0x1000;
      assert pstart + (p - lo) * 0x1000 == k * 0x20_0000 + d;
      if d % 0x20_0000 == 0 {
        SlotMultiple(d, k);
      }
    }
  }

  class Paging {
    const mm: PhysMap.PhysMap
    const pdpt: nat
    var mem: Memory
    ghost var owner: Owner

    ghost predicate Valid()
      reads this, mm, mm.ranges
    {
      mm.Valid() && Wf(mem, pdpt, owner) && TablesReserved(mm.View(), pdpt, owner)
    }

    constructor (mm: PhysMap.PhysMap, pdpt: nat, mem: Memory, ghost owner: Owner)
      requires mm.Valid() && Wf(mem, pdpt, owner) && TablesReserved(mm.View(), pdpt, owner)
      ensures Valid() && this.mm == mm && this.pdpt == pdpt && this.mem == mem && this.owner == owner
    {
      this.mm := mm;
      this.pdpt := pdpt;
      this.mem := mem;
      this.owner := owner;
    }

    /** Fills frame g with blank entries, or with the 512 pages of the large page pde. */
    method FillPt(g: nat, pde: nat)
      requires g % 0x1000 == 0 && (pde == 0 || LargeOk(pde))
      modifies this`mem
      ensures SameOutside(old(mem), mem, g)
      ensures forall i: nat :: i < 512 ==> Rd(mem, g + 8 * i) == NewPte(pde, i)
    {
      LargeIsBig(pde);
      hide NewPte, FrameOf, LargeOk;
      var i: nat := 0;
      var pte := if pde == 0 then 0 else pde - 0x80;
      NewPteNext(pde, 0);
      while i < 512
        invariant i <= 512
        invariant i < 512 ==> pte == NewPte(pde, i)
        invariant SameOutside(old(mem), mem, g)
        invariant forall j: nat :: j < i ==> Rd(mem, g + 8 * j) == NewPte(pde, j)
      {
        EntryFrame(g, i);
        NewPteNext(pde, i);
        mem := mem[g + 8 * i := pte];
        if pde != 0 {
          pte := (pte + 0x1000) % TWO64;
        }
        i := i + 1;
      }
    }

    /** mem_alloc(PAGE_SIZE, PAGE_SIZE, 0): a frame that holds no table. */
    method AllocFrame() returns (r: Outcome, g: nat)
      requires Valid()
      modifies mm`num, mm.ranges
      ensures Valid() && Later(old(mm.View()), mm.View())
      ensures r == Done ==> g % 0x1000 == 0 && g + 0x1000 <= XM32_MAX_ADDR
      ensures r == Done ==> g !in owner && g != FrameOf(pdpt)
      ensures r == Done ==> NoRam(mm.View(), g, g + 0x1000) && Described(mm.View(), g)
      ensures r == Done ==> InLowRam(old(mm.View()), g, g + 0x1000)
      ensures r == Done ==> mm.View() == AfterFrame(old(mm.View()), mm.ranges.Length)
      ensures r != Done ==> NoFrame(mm) && mm.View() == old(mm.View())
    {
      hide Wf, MapOk, Alloc, NoRam, FrameOf, Later, TablesReserved, Described, InLowRam, AfterFrame;
      ghost var s := mm.View();
      LaterReflexive(s);
      PdptAligned(mem, pdpt, owner);
      AfterFrameIs(s, mm.ranges.Length);
      r, g := mm.MemAlloc(0x1000, 0x1000, 0);
      if r == Done {
        NewFrameIsFresh(s, mm.ranges.Length, pdpt, owner);
      }
    }

    /** Makes sure the PDE at pdeAddr, of slot k, refers to a PT; returns the PT's address. No
        translation changes. */
    method EnsurePt(pdeAddr: nat, ghost k: nat) returns (r: Outcome, pt: nat)
      requires Valid() && k < 2048 && pdeAddr == PdeAddr(mem, pdpt, k)
      modifies this, mm`num, mm.ranges
      ensures Valid()
      ensures r == Done ==> SameWalks(old(mem), mem, pdpt)
      ensures r == Done ==> HasPt(mem, pdpt, k) && pt == FrameOf(Pde(mem, pdpt, k))
      ensures r == Done ==> forall j: nat :: j < 2048 && j != k ==> Pde(mem, pdpt, j) == Pde(old(mem), pdpt, j)
      ensures Later(old(mm.View()), mm.View()) && FramesFrom(old(owner), owner, old(mm.View()))
      ensures r == Done ==> mm.View() == SlotMapped(old(mm.View()), mm.ranges.Length, HasPt(old(mem), pdpt, k))
      ensures r == Done ==> PtSlots(mem, pdpt) == PtSlots(old(mem), pdpt) + {k}
      ensures r != Done ==> NoFrame(mm) && mm.View() == old(mm.View()) && mem == old(mem) && !HasPt(mem, pdpt, k)
    {
      hide Wf, MapOk, NoRam, FrameOf, WalkPage, PdeAddr, NewPte, SameOutside, LargeOk, Later, Described, NoFrame,
        InLowRam, AfterFrame, PtSlots;
      ghost var m0 := mem;
      LaterReflexive(mm.View());
      var pde := Rd(mem, pdeAddr);
      PdeIsBlankOrLarge(mem, pdpt, owner, k);
      if pde != 0 && !Large(pde) {
        PtFrame(mem, pdpt, owner, k);
        PtIsThere(mem, pdpt, k);
        return Done, FrameOf(pde % XM32_MAX_ADDR);
      }
      r, pt := AllocFrame();
      if r != Done {
        return;
      }
      FillPt(pt, pde);
      InstallPt(m0, mem, pdpt, owner, k, pt);
      mem := mem[pdeAddr := pt + 7];
      owner := owner[pt := Pt(k)];
      PtAdded(m0, mem, pdpt, k);
    }

    /** The large-page branch of DoVaMap. */
    method MapLargePage(pdeAddr: nat, ghost k: nat, pa: uint64, flags: nat)
      requires Valid() && k < 2048 && pdeAddr == PdeAddr(mem, pdpt, k)
      requires flags < 0x80 && pa % 0x20_0000 == 0 && !HasPt(mem, pdpt, k)
      modifies this`mem
      ensures Valid() && PtSlots(mem, pdpt) == PtSlots(old(mem), pdpt)
      ensures MapsTo(old(mem), mem, pdpt, 512 * k, 512 * k + 512, pa, Attr(flags))
      ensures LargeOnlyIn(old(mem), mem, pdpt, 512 * k, 512 * k + 512)
    {
      hide Wf, TablesReserved, WalkPage, PdeAddr, MapsTo, LargeOnlyIn, Attr, MapOk, HasPt, Pde, Large, PtSlots;
      ghost var m := mem;
      MapLarge(mem, pdpt, owner, k, pa, flags);
      mem := mem[pdeAddr := pa + Attr(flags) + 0x80];
      NoPtAdded(m, mem, pdpt, k);
    }

    /** The small-page branch of DoVaMap. */
    method MapSmallPage(pdeAddr: nat, pti: nat, ghost p: nat, pa: uint64, flags: nat) returns (r: Outcome)
      requires Valid() && p < 0x10_0000 && pdeAddr == PdeAddr(mem, pdpt, p / 512) && pti == p % 512
      requires flags < 0x80 && pa % 0x1000 == 0
      modifies this, mm`num, mm.ranges
      ensures Valid() && Later(old(mm.View()), mm.View()) && FramesFrom(old(owner), owner, old(mm.View()))
      ensures r == Done ==> MapsTo(old(mem), mem, pdpt, p, p + 1, pa, Attr(flags))
      ensures r == Done ==> LargeOnlyIn(old(mem), mem, pdpt, p, p + 1)
      ensures r == Done ==> HasPt(mem, pdpt, p / 512) && PtSlots(mem, pdpt) == PtSlots(old(mem), pdpt) + {p / 512}
      ensures r == Done ==> mm.View() == SlotMapped(old(mm.View()), mm.ranges.Length, HasPt(old(mem), pdpt, p / 512))
      ensures r != Done ==> NoFrame(mm) && mm.View() == old(mm.View()) && mem == old(mem) && !HasPt(mem, pdpt, p / 512)
    {
      hide Wf, TablesReserved, WalkPage, PdeAddr, MapsTo, LargeOnlyIn, Attr, Later, MapOk, FrameOf, NoFrame, SlotMapped,
        FramesFrom, HasPt, PtSlots;
      ghost var m := mem;
      var pt;
      r, pt := EnsurePt(pdeAddr, p / 512);
      if r == Done {
        ghost var m1 := mem;
        MapSmall(m, mem, pdpt, owner, p, pa, flags);
        mem := mem[pt + 8 * pti := pa + Attr(flags)];
        SamePts(m1, mem, pdpt);
      }
    }

    /** One iteration of DoVaMap at address v of page p; returns the bytes it has dealt with. */
    method MapStepAt(v: uint32, pa: uint64, left: uint32, flags: nat, ghost m0: Memory, ghost lo: nat, ghost p: nat,
                     ghost hi: nat, ghost pstart: nat, ghost o0: Owner, ghost s: seq<MemRange>)
      returns (r: Outcome, step: nat)
      requires Valid() && flags < 0x80 && Reached(v, pa, left, lo, p, hi, pstart) && left != 0
      requires MappedUpTo(m0, mem, pdpt, lo, p, hi, pstart, Attr(flags), o0, owner, s, mm.View(), mm.ranges.Length)
      modifies this, mm`num, mm.ranges
      ensures Valid() && (step == 0x1000 || step == 0x20_0000) && step <= left
      ensures Later(old(mm.View()), mm.View()) && FramesFrom(old(owner), owner, old(mm.View()))
      ensures r == Done ==> MappedUpTo(m0, mem, pdpt, lo, p + step / 0x1000, hi, pstart, Attr(flags), o0, owner, s,
                                       mm.View(), mm.ranges.Length)
      ensures r != Done ==>
                && NoFrame(mm) && mm.View() == old(mm.View()) && mem == old(mem) && Stuck(mem, pdpt, lo, hi, pstart)
    {
      hide PdeOf, Wf, TablesReserved, Later, MapOk, NoFrame, WalkPage, PdeAddr, MapsTo, LargeOnlyIn, Attr, FrameOf, Reached,
        Rd, SlotMapped, FramesFrom, HasPt, MappedUpTo, PtSlots, NeedsPt, Large, PtsWithin, SpentOn, MidSlot;
      ghost var m, t, o, cap := mem, mm.View(), owner, mm.ranges.Length;
      MappedCosts(m0, mem, pdpt, lo, p, hi, pstart, Attr(flags), o0, owner, s, mm.View(), cap);
      var pdeAddr := PdeOf(mem, pdpt, v);
      PdPointer(mem, pdpt, owner, v);
      ReachedPage(v, pa, left, lo, p, hi, pstart);
      NoPtMeans(mem, pdpt, owner, p / 512);
      if v % 0x20_0000 == 0 && pa % 0x20_0000 == 0 && left >= 0x20_0000
         && (Rd(mem, pdeAddr) == 0 || Large(Rd(mem, pdeAddr)))
      {
        LaterReflexive(t);
        NoFramesYet(o, t);
        LargeStepFits(v, pa, left, lo, p, hi, pstart);
        MapLargePage(pdeAddr, p / 512, pa, flags);
        MappedLarge(m0, m, mem, pdpt, lo, p, hi, pstart, pa, Attr(flags), o0, o, s, t, cap);
        return Done, 0x20_0000;
      }
      SmallNeedsPt(mem, pdpt, v, pa, left, lo, p, hi, pstart);
      r := MapSmallPage(pdeAddr, v / 0x1000 % 512, p, pa, flags);
      step := 0x1000;
      if r == Done {
        MappedSmall(m0, m, mem, pdpt, lo, p, hi, pstart, pa, Attr(flags), o0, o, owner, s, t, mm.View(), cap);
      }
    }

    /** Maps len bytes at vstart to physical memory at pstart. On completion exactly the pages
        of the interval have changed, and each translates to its own frame with the given
        flags, whatever was there before. All tables needed are allocated on the way; it fails
        only for want of a frame for one. In base memory one frame is taken at most. */
    method DoVaMap(vstart: uint32, pstart: uint64, len: uint32, flags: nat) returns (r: Outcome)
      requires Valid() && flags < 0x80
      requires vstart % 0x1000 == 0 && pstart % 0x1000 == 0 && len % 0x1000 == 0 && vstart + len <= XM32_MAX_ADDR
      modifies this, mm`num, mm.ranges
      ensures Valid() && Later(old(mm.View()), mm.View()) && FramesFrom(old(owner), owner, old(mm.View()))
      ensures r == Done ==> MapsTo(old(mem), mem, pdpt, vstart / 0x1000, (vstart + len) / 0x1000, pstart, Attr(flags))
      ensures r == Done ==> LargeOnlyIn(old(mem), mem, pdpt, vstart / 0x1000, (vstart + len) / 0x1000)
      ensures r == Done && 0 < len && vstart + len <= BMEM_MAX_ADDR ==>
                && HasPt(mem, pdpt, 0)
                && mm.View() == SlotMapped(old(mm.View()), mm.ranges.Length, HasPt(old(mem), pdpt, 0))
      ensures PtsWithin(old(mem), mem, pdpt, vstart / 0x1000, (vstart + len) / 0x1000, pstart)
      ensures SpentOn(old(mem), mem, pdpt, old(mm.View()), mm.View(), mm.ranges.Length)
      ensures r != Done ==> NoFrame(mm) && Stuck(mem, pdpt, vstart / 0x1000, (vstart + len) / 0x1000, pstart)
    {
      hide Wf, TablesReserved, Later, MapOk, NoFrame, WalkPage, MapsTo, LargeOnlyIn, Attr, Reached, SlotMapped,
        FramesFrom, HasPt, SlotZero, MappedUpTo, PtsWithin, SpentOn, MidSlot, Stuck;
      ghost var m0, s, o0, cap := mem, mm.View(), owner, mm.ranges.Length;
      ghost var lo, hi: nat := vstart / 0x1000, (vstart + len) / 0x1000;
      ghost var p: nat := lo;
      MappedStart(mem, pdpt, lo, hi, pstart, Attr(flags), o0, s, cap);
      LaterReflexive(s);
      NoFramesYet(o0, s);
      ReachedStart(vstart, pstart, len);
      var v: uint32, pa: uint64, left: uint32 := vstart, pstart, len;
      while left != 0
        invariant Valid() && Reached(v, pa, left, lo, p, hi, pstart)
        invariant Later(s, mm.View()) && FramesFrom(o0, owner, s)
        invariant MappedUpTo(m0, mem, pdpt, lo, p, hi, pstart, Attr(flags), o0, owner, s, mm.View(), cap)
        decreases left
      {
        ghost var t, o := mm.View(), owner;
        var step;
        r, step := MapStepAt(v, pa, left, flags, m0, lo, p, hi, pstart, o0, s);
        LaterTransitive(s, t, mm.View());
        FramesThen(o0, o, owner, s, t);
        if r != Done {
          MappedCosts(m0, mem, pdpt, lo, p, hi, pstart, Attr(flags), o0, o, s, t, cap);
          return;
        }
        ReachedStep(v, pa, left, lo, p, hi, pstart, step / 0x1000);
        v, pa, left := (v + step) % XM32_MAX_ADDR, (pa + step) % TWO64, left - step;
        p := p + step / 0x1000;
      }
      ReachedEnd(v, pa, lo, p, hi, pstart);
      MappedEnd(m0, mem, pdpt, vstart, len, pstart, Attr(flags), o0, owner, s, mm.View(), cap);
      r := Done;
    }

    /** The large-page branch of DoVaUnmap. */
    method UnmapLargePage(pdeAddr: nat, ghost k: nat)
      requires Valid() && k < 2048 && pdeAddr == PdeAddr(mem, pdpt, k)
      modifies this`mem
      ensures Valid() && UnmapsTo(old(mem), mem, pdpt, 512 * k, 512 * k + 512)
      ensures forall j: nat :: j < 2048 ==> Pde(mem, pdpt, j) == if j == k then 0 else Pde(old(mem), pdpt, j)
    {
      hide Wf, TablesReserved, MapOk, WalkPage, PdeAddr, UnmapsTo;
      UnmapLarge(mem, pdpt, owner, k);
      mem := mem[pdeAddr := 0];
    }

    /** The branch of DoVaUnmap for a page of a slot with a PT. */
    method UnmapSmallPage(pdeAddr: nat, pti: nat, ghost p: nat)
      requires Valid() && p < 0x10_0000 && pdeAddr == PdeAddr(mem, pdpt, p / 512) && pti == p % 512
      requires HasPt(mem, pdpt, p / 512)
      modifies this`mem
      ensures Valid() && UnmapsTo(old(mem), mem, pdpt, p, p + 1)
      ensures forall j: nat :: j < 2048 ==> Pde(mem, pdpt, j) == Pde(old(mem), pdpt, j)
    {
      hide Wf, TablesReserved, MapOk, WalkPage, PdeAddr, UnmapsTo, FrameOf;
      var pde := Rd(mem, pdeAddr);
      var pt := FrameOf(pde % XM32_MAX_ADDR);
      PtFrame(mem, pdpt, owner, p / 512);
      UnmapSmall(mem, pdpt, owner, p);
      mem := mem[pt + 8 * pti := 0];
    }

    /** One page of DoVaUnmap: cleared, or skipped as a part of a large page. */
    method UnmapOnePage(pdeAddr: nat, pti: nat, ghost m0: Memory, ghost lo: nat, ghost p: nat, ghost hi: nat)
      requires Valid() && p < 0x10_0000 && pdeAddr == PdeAddr(mem, pdpt, p / 512) && pti == p % 512
      requires lo <= p && UnmappedUpTo(m0, mem, pdpt, lo, p, hi)
      requires Large(Pde(mem, pdpt, p / 512)) ==> !Removable(m0, pdpt, p / 512, lo, hi)
      modifies this`mem
      ensures Valid() && UnmappedUpTo(m0, mem, pdpt, lo, p + 1, hi)
    {
      hide Wf, TablesReserved, MapOk, WalkPage, PdeAddr, UnmappedUpTo, UnmapsTo, Removable;
      ghost var m1 := mem;
      SlotAhead(m0, mem, pdpt, lo, p, hi);
      PdeIsBlankOrLarge(mem, pdpt, owner, p / 512);
      var pde := Rd(mem, pdeAddr);
      if !Large(pde) && pde != 0 {
        UnmapSmallPage(pdeAddr, pti, p);
        SmallSlotRemovable(m0, pdpt, p / 512, lo, hi);
        OnePageSlot(p);
        UnmapStep(m0, m1, mem, pdpt, lo, p, 1, hi);
      } else {
        SkipStep(m0, mem, pdpt, owner, lo, p, hi);
      }
    }

    /** One iteration of DoVaUnmap at address v of page p; returns the bytes it has dealt with. */
    method UnmapStepAt(v: uint32, left: uint32, ghost m0: Memory, ghost lo: nat, ghost p: nat, ghost hi: nat,
                       ghost pa: nat)
      returns (step: nat)
      requires Valid() && Reached(v, pa, left, lo, p, hi, 0) && left != 0
      requires UnmappedUpTo(m0, mem, pdpt, lo, p, hi) && InsideLarge(m0, pdpt, lo, p, hi)
      modifies this`mem
      ensures Valid() && (step == 0x1000 || step == 0x20_0000) && step <= left
      ensures UnmappedUpTo(m0, mem, pdpt, lo, p + step / 0x1000, hi)
      ensures InsideLarge(m0, pdpt, lo, p + step / 0x1000, hi)
    {
      hide PdeOf, Wf, TablesReserved, MapOk, WalkPage, PdeAddr, UnmappedUpTo, UnmapsTo, FrameOf, Reached, Rd, Removable,
        InsideLarge, Large;
      var pdeAddr := PdeOf(mem, pdpt, v);
      PdPointer(mem, pdpt, owner, v);
      ReachedPage(v, pa, left, lo, p, hi, 0);
      SlotAhead(m0, mem, pdpt, lo, p, hi);
      ghost var m1 := mem;
      var pde := Rd(mem, pdeAddr);
      if Large(pde) && v % 0x20_0000 == 0 && left >= 0x20_0000 {
        UnmapLargePage(pdeAddr, p / 512);
        ReachedWhole(v, pa, left, lo, p, hi);
        WholeSlotRemovable(m0, pdpt, lo, p, hi);
        UnmapStep(m0, m1, mem, pdpt, lo, p, 512, hi);
        EnterSlot(m0, pdpt, lo, p + 512, hi);
        return 0x20_0000;
      }
      if Large(pde) {
        PartialSlotKept(m0, pdpt, v, pa, left, lo, p, hi);
      }
      UnmapOnePage(pdeAddr, v / 0x1000 % 512, m0, lo, p, hi);
      StayInSlot(m0, pdpt, lo, p, hi);
      return 0x1000;
    }

    /** Unmaps len bytes at vstart: afterwards exactly the pages of the interval are absent,
        except that a large page lying only partly inside it stays as it was. */
    method DoVaUnmap(vstart: uint32, len: uint32)
      requires Valid()
      requires vstart % 0x1000 == 0 && len % 0x1000 == 0 && vstart + len <= XM32_MAX_ADDR
      modifies this`mem
      ensures Valid()
      ensures var lo, hi := vstart / 0x1000, (vstart + len) / 0x1000;
              UnmappedUpTo(old(mem), mem, pdpt, lo, hi, hi)
    {
      hide Wf, TablesReserved, MapOk, WalkPage, UnmappedUpTo, Reached, InsideLarge;
      ghost var m0 := mem;
      ghost var lo, hi: nat := vstart / 0x1000, (vstart + len) / 0x1000;
      ghost var p: nat := lo;
      MapsToNothing(mem, pdpt, lo, 0, 0);
      ReachedStart(vstart, 0, len);
      EnterSlot(mem, pdpt, lo, lo, hi);
      ghost var pa: uint64 := 0;
      var v: uint32, left: uint32 := vstart, len;
      while left != 0
        invariant Valid()
        invariant Reached(v, pa, left, lo, p, hi, 0)
        invariant UnmappedUpTo(m0, mem, pdpt, lo, p, hi) && InsideLarge(m0, pdpt, lo, p, hi)
        decreases left
      {
        var step := UnmapStepAt(v, left, m0, lo, p, hi, pa);
        ReachedStep(v, pa, left, lo, p, hi, 0, step / 0x1000);
        v, pa, left := (v + step) % XM32_MAX_ADDR, (pa + step) % TWO64, left - step;
        p := p + step / 0x1000;
      }
      ReachedEnd(v, pa, lo, p, hi, 0);
    }
  }
}

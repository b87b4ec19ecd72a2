/** What va_init needs to complete (stage2/mem.c:320-430): room in the map and RAM for its lists and
    for the page tables, of which there is at most one for each 2 MiB slot that holds an edge. */
module VaNeeds {
  import opened Machine
  import opened MemMap
  import opened PageTable
  import opened VaPool
  import opened VaTranslation
  import opened Holes
  import opened Identity
  import opened Paging
  import opened Supply
  import opened TableNeeds
  import opened SecondPass
  import opened PassOrder
  import opened VaReady
  import VS = VaSpace

  // ---------------------------------------------------------------------------------------
  // The slots that need a page table

  /** Slot k holds both pages that the first pass maps and pages that it does not. */
  ghost predicate MixedSlot(s: seq<MemRange>, k: nat) {
    exists p: nat, q: nat :: InSlot(p, k) && InSlot(q, k) && (p < 0x100 || Touched(s, p)) && IsHole(s, q)
  }

  predicate InSlot(p: nat, k: nat) {
    p / 512 == k
  }

  ghost predicate IsHole(s: seq<MemRange>, q: nat) {
    0x100 <= q < 0x10_0000 && !Touched(s, q)
  }

  function PageLo(r: MemRange): nat {
    r.start / 0x1000
  }

  function PageHi(r: MemRange): nat {
    var hi := RoundUp(MemMap.End(r)) / 0x1000;
    if hi > 0x10_0000 then 0x10_0000 else hi
  }

  /** The attribute pass may map small pages in slot k for range r: the range covers only part of
      it, or it is RAM, of which parts may have been given out. */
  predicate CutsSlot(r: MemRange, k: nat) {
    && !NothingToDo(r)
    && if IsRam(r) then 512 * k < PageHi(r) && PageLo(r) < 512 * k + 512
       else NeedsPt(k, PageLo(r), PageHi(r), PageLo(r) * 0x1000)
  }

  ghost predicate CutByOne(s: seq<MemRange>, k: nat) {
    exists i :: 0 <= i < |s| && CutsSlot(s[i], k)
  }

  /** All slots for which va_init may allocate a page table. */
  ghost function NeededSlots(s: seq<MemRange>): set<nat> {
    set k: nat | k < 2048 && (MixedSlot(s, k) || CutByOne(s, k))
  }

  // ---------------------------------------------------------------------------------------
  // The first pass

  /** All gaps of the pool keep to the set. */
  ghost predicate GapsWithin(pool: seq<VaRange>, needed: set<nat>) {
    forall n: nat :: n < |pool| ==>
      NeedsWithin(GapStart(pool, n) / 0x1000, pool[n].start / 0x1000, GapStart(pool, n), needed)
  }

  lemma GapPageIsMapped(s: seq<MemRange>, pool: seq<VaRange>, n: nat, p: nat)
    requires PoolOk(pool) && PoolExact(pool, s) && n < |pool|
    requires GapStart(pool, n) / 0x1000 <= p < pool[n].start / 0x1000
    ensures p < 0x100 || Touched(s, p)
  {
    hide InSome;
    GapAligned(pool, n);
    GapIsOffPool(pool, n, p * 0x1000);
  }

  lemma HolePage(s: seq<MemRange>, pool: seq<VaRange>, n: nat, q: nat)
    requires PoolOk(pool) && PoolExact(pool, s) && n < |pool| && In(pool[n], q * 0x1000)
    ensures IsHole(s, q)
  {
    assert InSome(pool, q * 0x1000);
    InPoolIsExtended(pool, q);
    PoolBounds(pool, pool[n]);
  }

  lemma GapNeedsMixed(s: seq<MemRange>, pool: seq<VaRange>, n: nat, k: nat)
    requires PoolOk(pool) && PoolExact(pool, s) && n < |pool|
    requires NeedsPt(k, GapStart(pool, n) / 0x1000, pool[n].start / 0x1000, GapStart(pool, n))
    ensures MixedSlot(s, k)
  {
    hide PoolOk, PoolExact;
    GapAligned(pool, n);
    var lo, hi := GapStart(pool, n) / 0x1000, pool[n].start / 0x1000;
    var p := if lo < 512 * k then 512 * k else lo;
    GapPageIsMapped(s, pool, n, p);
    var q;
    if 512 * k < lo {
      q := lo - 1;
      LastOfHole(pool, n - 1);
      HolePage(s, pool, n - 1, q);
    } else {
      q := hi;
      FirstOfHole(pool, n);
      HolePage(s, pool, n, q);
    }
    assert InSlot(p, k) && InSlot(q, k);
  }

  lemma FirstOfHole(pool: seq<VaRange>, n: nat)
    requires PoolOk(pool) && n < |pool|
    ensures In(pool[n], pool[n].start / 0x1000 * 0x1000)
  {
    assert VaPool.Aligned(pool[n]);
  }

  lemma LastOfHole(pool: seq<VaRange>, n: nat)
    requires PoolOk(pool) && n < |pool|
    ensures VaPool.End(pool[n]) >= 0x1000 && In(pool[n], (VaPool.End(pool[n]) / 0x1000 - 1) * 0x1000)
  {
    assert VaPool.Aligned(pool[n]);
  }

  lemma GapsKeepWithin(s: seq<MemRange>, pool: seq<VaRange>)
    requires PoolOk(pool) && PoolExact(pool, s)
    ensures GapsWithin(pool, NeededSlots(s))
  {
    hide PoolOk, PoolExact, MixedSlot, NeedsPt, CutByOne, GapStart;
    forall n: nat, k: nat | n < |pool| && k < 2048
      && NeedsPt(k, GapStart(pool, n) / 0x1000, pool[n].start / 0x1000, GapStart(pool, n))
      ensures k in NeededSlots(s)
    {
      GapNeedsMixed(s, pool, n, k);
    }
  }

  // ---------------------------------------------------------------------------------------
  // The second pass

  /** So do the intervals that the attribute pass maps for parts of the map s. */
  ghost predicate PiecesWithin(s: seq<MemRange>, needed: set<nat>) {
    forall r: MemRange :: PieceOfSome(r, s) && RangeOk(r) && !NothingToDo(r) ==>
      NeedsWithin(RoundDown(r.start) / 0x1000, (RoundDown(r.start) + AttrLen(r)) / 0x1000, RoundDown(r.start), needed)
  }

  lemma IntervalPages(r: MemRange)
    requires RangeOk(r) && r.start < XM32_MAX_ADDR
    ensures RoundDown(r.start) / 0x1000 == PageLo(r) && (RoundDown(r.start) + AttrLen(r)) / 0x1000 == PageHi(r)
    ensures RoundDown(r.start) == PageLo(r) * 0x1000
  {
    AttrEnd(r);
    MultipleMod(PageLo(r), 0x1000, 0);
  }

  lemma PieceInside(r: MemRange, q: MemRange)
    requires Inside(r, q)
    ensures PageLo(q) <= PageLo(r) && PageHi(r) <= PageHi(q)
  {
  }

  lemma PieceCuts(r: MemRange, q: MemRange, k: nat)
    requires Piece(r, q) && !NothingToDo(r) && NeedsPt(k, PageLo(r), PageHi(r), PageLo(r) * 0x1000)
    ensures CutsSlot(q, k)
  {
    PieceInside(r, q);
    hide PageLo, PageHi;
  }

  lemma PiecesKeepWithin(s: seq<MemRange>)
    ensures PiecesWithin(s, NeededSlots(s))
  {
    hide RoundDown, AttrLen, PageLo, PageHi, NeedsPt, MixedSlot, RangeOk, Piece, CutsSlot;
    forall r: MemRange, k: nat | PieceOfSome(r, s) && RangeOk(r) && !NothingToDo(r) && k < 2048
      && NeedsPt(k, RoundDown(r.start) / 0x1000, (RoundDown(r.start) + AttrLen(r)) / 0x1000, RoundDown(r.start))
      ensures k in NeededSlots(s)
    {
      IntervalPages(r);
      var i :| 0 <= i < |s| && Piece(r, s[i]);
      PieceCuts(r, s[i], k);
    }
  }

  lemma PiecesLater(s: seq<MemRange>, t: seq<MemRange>, needed: set<nat>)
    requires PiecesWithin(s, needed) && OnlyRamCut(t, s)
    ensures PiecesWithin(t, needed)
  {
    hide NeedsWithin, RoundDown, AttrLen, RangeOk, NothingToDo;
    forall r: MemRange | PieceOfSome(r, t) ensures PieceOfSome(r, s) {
      PieceTransitive(r, s, t);
    }
  }

  lemma PieceTransitive(r: MemRange, s: seq<MemRange>, t: seq<MemRange>)
    requires OnlyRamCut(t, s) && PieceOfSome(r, t)
    ensures PieceOfSome(r, s)
  {
    var i :| 0 <= i < |t| && Piece(r, t[i]);
    assert PieceOfSome(t[i], s);
    var k :| 0 <= k < |s| && Piece(t[i], s[k]);
    assert Piece(r, s[k]);
  }

  // ---------------------------------------------------------------------------------------
  // Enough memory

  /** The map s, of cap entries at most, has room for the list of holes, the PDPT, four page
      directories and the page tables. */
  ghost predicate Enough(s: seq<MemRange>, cap: nat) {
    var n := 4 + |NeededSlots(s)|;
    |s| + 2 + n <= cap && HasBytes(s, n * 0x1000 + 32 + 31 + cap * VS.VA_RANGE_SIZE + 3)
  }

  /** So far, tables and lists have come from extended memory, and the page tables all have room;
      no page has been mapped. */
  ghost predicate Supplied(s: seq<MemRange>, t: seq<MemRange>, cap: nat, m: Memory, pdpt: nat, needed: set<nat>) {
    Room(t, cap, |needed|) && SameBase(s, t) && PtSlots(m, pdpt) == {}
  }

  lemma SuppliedNow(s: seq<MemRange>, t: seq<MemRange>, cap: nat, m: Memory, pdpt: nat, needed: set<nat>)
    requires Room(t, cap, |needed|) && SameBase(s, t) && PtSlots(m, pdpt) == {}
    ensures Supplied(s, t, cap, m, pdpt, needed)
  {
    hide Room, SameBase, PtSlots;
  }

  /** Then a mapping never fails for want of a frame. */
  lemma StaysSupplied(s: seq<MemRange>, t0: seq<MemRange>, t: seq<MemRange>, cap: nat, m0: Memory, m: Memory, pdpt: nat,
                      needed: set<nat>)
    requires Supplied(s, t0, cap, m0, pdpt, needed) && Pays(m0, m, pdpt, t0, t, cap, needed)
    ensures Room(t, cap, |needed - PtSlots(m, pdpt)|) && SameBase(s, t) && MapOk(t)
    ensures Lacks(m, pdpt, needed) ==> Alloc(t, cap, 0x1000, 0x1000, 0).Placed?
  {
    hide PtSlots, SameBase, HasBytes, MapOk, Alloc, Pays, Lacks;
    RoomRemains(m0, m, pdpt, t0, t, cap, needed);
    SameBaseTransitive(s, t0, t);
    if Lacks(m, pdpt, needed) {
      FrameStep(t, cap, |needed - PtSlots(m, pdpt)|);
    }
  }

  // ---------------------------------------------------------------------------------------
  // Base memory, if no table or list goes there

  lemma SpecialBaseNeeds(s: seq<MemRange>, i: nat)
    requires MapOk(s) && i < |s| && s[i].start < BMEM_MAX_ADDR && !NothingToDo(s[i])
    ensures 0 in NeededSlots(s)
  {
    hide NothingToDo, MixedSlot;
    assert RangeOk(s[i]);
    BasePages(s[i]);
    assert CutsSlot(s[i], 0);
  }

  lemma BasePages(r: MemRange)
    requires RangeOk(r) && r.start < BMEM_MAX_ADDR
    ensures PageLo(r) < PageHi(r) <= 0x100
  {
  }

  lemma NoSpecialBase(s: seq<MemRange>, t: seq<MemRange>, cap: nat, had: bool)
    requires MapOk(s) && MapOk(t) && SameBase(s, t) && 0 !in NeededSlots(s)
    ensures BaseWant(t, 0, cap, had) == Rest(s, 0) == []
  {
    hide NeededSlots, NothingToDo, Rest, SlotMapped;
    MapIsBaseFirst(s);
    MapIsBaseFirst(t);
    SameFirst(s, t);
    RestFromFirst(s, 0);
    var k := FirstSpecial(s, 0);
    if InBaseAt(s, k) {
      SpecialBaseNeeds(s, k);
    } else {
      RestOutOfBase(s, k);
    }
  }

  /** The ranges of base memory that the attribute pass maps are those that the map s reaches. */
  lemma BaseIsPlain(s: seq<MemRange>, t: seq<MemRange>, cap: nat, m: Memory, pdpt: nat)
    requires MapOk(s) && MapOk(t) && SameBase(s, t) && Room(t, cap, |NeededSlots(s) - PtSlots(m, pdpt)|)
    ensures BaseWant(t, 0, cap, HasPt(m, pdpt, 0)) == Rest(s, 0)
  {
    hide NeededSlots, Rest, SlotMapped, HasPt, MapOk, BaseWant;
    var had, needed := HasPt(m, pdpt, 0), NeededSlots(s);
    if 0 !in needed {
      NoSpecialBase(s, t, cap, had);
    } else {
      SlotSpends(t, cap, had);
      assert !had ==> 0 in needed - PtSlots(m, pdpt);
      SameBaseTransitive(s, t, SlotMapped(t, cap, had));
      SlotMappedOk(t, cap, had);
      MapIsBaseFirst(s);
      MapIsBaseFirst(t);
      MapIsBaseFirst(SlotMapped(t, cap, had));
      BaseWantPlain(s, t, cap, had);
    }
  }

  /** No table or list is in base memory. */
  ghost predicate AllExtended(pdpt: nat, owner: Owner, listAt: nat) {
    BMEM_MAX_ADDR <= pdpt && BMEM_MAX_ADDR <= listAt && forall f :: f in owner ==> BMEM_MAX_ADDR <= f
  }

  lemma AllAreExtended(s: seq<MemRange>, t: seq<MemRange>, pdpt: nat, owner: Owner, listAt: nat, listEnd: nat,
                       mapAt: nat, mapEnd: nat)
    requires MapOk(s) && SameBase(s, t) && Housed(s, pdpt, owner, listAt, listEnd, mapAt, mapEnd)
    requires TablesReserved(t, pdpt, owner) && NoRam(t, listAt, listEnd)
    ensures AllExtended(pdpt, owner, listAt)
  {
    hide MapOk, SameBase, InLowRam, NoRam, InOne, Described;
    TakenIsExtended(s, t, pdpt, pdpt + 32);
    TakenIsExtended(s, t, listAt, listEnd);
    forall f | f in owner ensures BMEM_MAX_ADDR <= f {
      TakenIsExtended(s, t, f, f + 0x1000);
    }
  }

  /** What was taken from the map s in [lo, hi), and base memory not touched, is extended memory. */
  lemma TakenIsExtended(s: seq<MemRange>, t: seq<MemRange>, lo: nat, hi: nat)
    requires MapOk(s) && SameBase(s, t) && InLowRam(s, lo, hi) && NoRam(t, lo, hi) && lo < hi
    ensures BMEM_MAX_ADDR <= lo
  {
    var i: nat :| 0 <= i < |s| && LowRam(s[i]) && s[i].start <= lo && hi <= MemMap.End(s[i]);
    assert s[i].start < BMEM_MAX_ADDR ==> InBaseAt(s, i);
  }
}

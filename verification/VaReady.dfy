/** What va_init leaves (stage2/mem.c:320-430), on values: which pages are mapped, with which
    caching, and which of stage 2's own tables and lists can be reached with paging on. */
module VaReady {
  import opened Machine
  import opened MemMap
  import opened PageTable
  import opened VaPool
  import opened VaTranslation
  import opened Holes
  import opened Identity
  import opened Paging
  import opened SecondPass
  import opened PassOrder
  import opened Reach

  /** The end of the last hole: the first pass reaches no further. */
  function PoolEnd(pool: seq<VaRange>): nat {
    if pool == [] then 0 else VaPool.End(pool[|pool| - 1])
  }

  /** The pool is exactly the untouched pages of extended memory space. */
  ghost predicate PoolExact(pool: seq<VaRange>, s: seq<MemRange>) {
    forall q: nat :: 0x100 <= q < 0x10_0000 ==> (InSome(pool, q * 0x1000) <==> !Touched(s, q))
  }

  /** The attribute pass: the map that it started with, of cap entries at most, whether slot 0
      had a table then, and the ranges that it has mapped, in order. */
  datatype Attributes = Attributes(cap: nat, start: seq<MemRange>, had: bool, mapped: seq<MemRange>)

  ghost predicate AttributesOk(s: seq<MemRange>, a: Attributes) {
    && MapOk(a.start) && |a.start| <= a.cap && Later(s, a.start)
    && FromMap(a.mapped, s) && AllMapped(a.mapped, s) && Rising(a.mapped)
    && BaseOf(a.mapped) == BaseWant(a.start, 0, a.cap, a.had)
  }

  /** Every page is as the first pass left it, painted over by the ranges that the attribute
      pass mapped. */
  ghost predicate Passed(m: Memory, pdpt: nat, s: seq<MemRange>, pool: seq<VaRange>, mapped: seq<MemRange>)
    requires s != []
  {
    forall p: nat :: p < 0x10_0000 ==>
      WalkPage(m, pdpt, p) == Paint(mapped, p, FirstPass(pool, |pool|, PteFlags(s[0].uefiAttr), p))
  }

  /** The state that va_init leaves when given the map s. */
  ghost predicate Ready(m: Memory, pdpt: nat, s: seq<MemRange>, pool: seq<VaRange>, a: Attributes) {
    && s != [] && MapOk(s) && pool != [] && PoolOk(pool) && PoolExact(pool, s)
    && AttributesOk(s, a) && Passed(m, pdpt, s, pool, a.mapped)
  }

  // ---------------------------------------------------------------------------------------
  // Which pages are mapped

  lemma InPoolIsExtended(pool: seq<VaRange>, q: nat)
    requires PoolOk(pool) && InSome(pool, q * 0x1000)
    ensures 0x100 <= q
  {
  }

  lemma PoolEndMeans(pool: seq<VaRange>, p: nat)
    requires PoolOk(pool) && pool != [] && !InSome(pool, p * 0x1000)
    ensures p * 0x1000 < PoolEnd(pool) <==> p * 0x1000 < pool[|pool| - 1].start
    ensures BMEM_MAX_ADDR <= pool[0].start <= pool[|pool| - 1].start <= PoolEnd(pool)
  {
    assert In(pool[|pool| - 1], p * 0x1000) ==> InSome(pool, p * 0x1000);
  }

  lemma FirstPassMeans(pool: seq<VaRange>, flags: nat, p: nat)
    requires PoolOk(pool) && pool != [] && !InSome(pool, p * 0x1000)
    ensures FirstPass(pool, |pool|, flags, p) ==
              if p * 0x1000 >= PoolEnd(pool) then Absent
              else IdPage(p, if p * 0x1000 < pool[0].start then flags else 0)
  {
    PoolEndMeans(pool, p);
  }

  /** A page that is not for mem_va_map to use is mapped to itself if and only if it lies below
      the end of the last hole, or some range that is not write-back touches it. */
  lemma SelfMappedIff(m: Memory, pdpt: nat, s: seq<MemRange>, pool: seq<VaRange>, a: Attributes, p: nat)
    requires Ready(m, pdpt, s, pool, a) && p < 0x10_0000 && !InSome(pool, p * 0x1000)
    ensures IdMapped(WalkPage(m, pdpt, p), p) <==> p * 0x1000 < PoolEnd(pool) || SpecialTouched(s, |s|, p)
    ensures IdMapped(WalkPage(m, pdpt, p), p) <==> p * 0x1000 < PoolEnd(pool) || !AllWriteBack(s, p)
    ensures !IdMapped(WalkPage(m, pdpt, p), p) ==> WalkPage(m, pdpt, p) == Absent
  {
    hide InSome, IdPage, PoolOk, SpecialTouched, TouchedIn, FromMap, AllMapped, Rising, Later, MapOk, BaseWant,
      BaseOf, Paint, FirstPass, WalkPage, PteFlags, AllWriteBack, PageFlags, Uniform;
    NotSpecial(s, p);
    UniformIff(s, p, true);
    var flags := PteFlags(s[0].uefiAttr);
    FirstPassMeans(pool, flags, p);
    PaintMeans(a.mapped, p, FirstPass(pool, |pool|, flags, p));
    IdPageIsId(p, if p * 0x1000 < pool[0].start then flags else 0);
    PoolEndMeans(pool, p);
    if TouchedIn(a.mapped, p) {
      TouchedIsSpecial(a.mapped, s, p);
    }
    if SpecialTouched(s, |s|, p) && 0x100 <= p {
      SpecialIsTouched(a.mapped, s, p);
    }
  }

  lemma SpecialIsTouched(mapped: seq<MemRange>, s: seq<MemRange>, p: nat)
    requires AllMapped(mapped, s) && MapOk(s) && SpecialTouched(s, |s|, p) && 0x100 <= p < 0x10_0000
    ensures TouchedIn(mapped, p)
  {
    hide PteFlags, AllMapped, MapOk, Touches;
    var i :| 0 <= i < |s| && Touches(s[i], p) && PteFlags(s[i].uefiAttr) != 0;
    var k, b := SpecialIsMapped(mapped, s, i, p);
  }

  // ---------------------------------------------------------------------------------------
  // The caching of pages

  /** Above 1 MiB a page gets the flags of the highest range that touches it and is not
      write-back. */
  lemma ExtendedPage(m: Memory, pdpt: nat, s: seq<MemRange>, pool: seq<VaRange>, a: Attributes, q: nat, i: nat)
    requires Ready(m, pdpt, s, pool, a) && 0x100 <= q < 0x10_0000
    requires i < |s| && Touches(s[i], q) && !WriteBack(s[i].uefiAttr)
    requires forall j :: i < j < |s| && Touches(s[j], q) ==> WriteBack(s[j].uefiAttr)
    ensures WalkPage(m, pdpt, q) == IdPage(q, FlagsFor(WriteThrough(s[i].uefiAttr)))
  {
    hide InSome, IdPage, PoolOk, FromMap, AllMapped, Rising, Later, MapOk, BaseWant, BaseOf, Paint, FirstPass,
      WalkPage, PteFlags, Touches, PoolExact, WriteBack, WriteThrough;
    forall j | 0 <= j < |s| ensures PteFlags(s[j].uefiAttr) == 0 <==> WriteBack(s[j].uefiAttr) {
      PteFlagsIff(s[j].uefiAttr);
    }
    PteFlagsIff(s[i].uefiAttr);
    HighestDecides(a.mapped, s, i, q, FirstPass(pool, |pool|, PteFlags(s[0].uefiAttr), q));
  }

  /** So a page that all ranges touching it want written through, or all uncached, is mapped so. */
  lemma ExtendedFlags(m: Memory, pdpt: nat, s: seq<MemRange>, pool: seq<VaRange>, a: Attributes, q: nat, through: bool)
    requires Ready(m, pdpt, s, pool, a) && 0x100 <= q < 0x10_0000
    requires Uniform(s, q, through) && Touched(s, q)
    ensures WalkPage(m, pdpt, q) == IdPage(q, FlagsFor(through))
  {
    hide InSome, IdPage, PoolOk, TouchedIn, FromMap, AllMapped, Rising, Later, MapOk, BaseWant, BaseOf, Paint,
      FirstPass, WalkPage, PteFlags, Touches, PoolExact, Uniform, AllWriteBack;
    UniformIff(s, q, through);
    var f := FlagsFor(through);
    var j :| 0 <= j < |s| && Touches(s[j], q);
    assert SpecialTouched(s, |s|, q);
    SpecialIsTouched(a.mapped, s, q);
    PaintAgreed(a.mapped, s, q, FirstPass(pool, |pool|, PteFlags(s[0].uefiAttr), q), f);
  }

  /** A page that only write-back ranges touch is cached if and only if it is past the first hole
      or the first range of the map is write-back: below the first hole, all such pages get the
      caching of the first range. */
  lemma CachedIff(m: Memory, pdpt: nat, s: seq<MemRange>, pool: seq<VaRange>, a: Attributes, p: nat)
    requires Ready(m, pdpt, s, pool, a) && p * 0x1000 < PoolEnd(pool) && !InSome(pool, p * 0x1000)
    requires p < 0x10_0000 && AllWriteBack(s, p)
    ensures WalkPage(m, pdpt, p) == IdPage(p, 0) <==> WriteBack(s[0].uefiAttr) || pool[0].start <= p * 0x1000
    ensures p * 0x1000 < pool[0].start && !WriteBack(s[0].uefiAttr) ==>
              WalkPage(m, pdpt, p) == IdPage(p, FlagsFor(WriteThrough(s[0].uefiAttr)))
  {
    UniformIff(s, p, true);
    PteFlagsIff(s[0].uefiAttr);
    hide AllWriteBack, Uniform, WriteBack, WriteThrough;
    hide InSome, IdPage, PoolOk, SpecialTouched, TouchedIn, FromMap, AllMapped, Rising, Later, MapOk, BaseWant,
      BaseOf, Paint, FirstPass, WalkPage, PteFlags, PageFlags, PoolExact;
    var flags := PteFlags(s[0].uefiAttr);
    FirstPassMeans(pool, flags, p);
    PaintMeans(a.mapped, p, FirstPass(pool, |pool|, flags, p));
    NotSpecial(s, p);
    if TouchedIn(a.mapped, p) {
      TouchedIsSpecial(a.mapped, s, p);
    }
    WriteBackIsCached();
    FlagsDiffer(p, s[0].uefiAttr, 8);
  }

  lemma WriteBackIsCached()
    ensures PteFlags(8) == 0
  {
  }

  /** What a page of base memory ends with: the flags of the last range that touches it, of those
      that the attribute pass maps, else the caching of the first range. */
  lemma BasePage(m: Memory, pdpt: nat, s: seq<MemRange>, pool: seq<VaRange>, a: Attributes, q: nat)
    requires Ready(m, pdpt, s, pool, a) && q < 0x100
    ensures WalkPage(m, pdpt, q) == Paint(BaseWant(a.start, 0, a.cap, a.had), q, IdPage(q, PteFlags(s[0].uefiAttr)))
  {
    hide IdPage, PoolOk, FromMap, AllMapped, Rising, Later, MapOk, BaseWant, BaseOf, Paint, FirstPass, WalkPage,
      PteFlags, PoolExact, InSome, PoolEnd;
    var flags := PteFlags(s[0].uefiAttr);
    if InSome(pool, q * 0x1000) {
      InPoolIsExtended(pool, q);
    }
    FirstPassMeans(pool, flags, q);
    PoolEndMeans(pool, q);
    PaintBase(a.mapped, q, FirstPass(pool, |pool|, flags, q));
  }

  /** An attribute pass over the map t maps a range of base memory that touches page q: its first
      special range does, or one that it reaches after that. */
  ghost predicate BaseReaches(t: seq<MemRange>, cap: nat, had: bool, q: nat) {
    var k := FirstSpecial(t, 0);
    && InBaseAt(t, k)
    && var t1 := SlotMapped(t, cap, had);
       Touches(t[k], q) || exists j: nat :: ReachedTouch(t1, AfterStart(t1, k, t[k].start), q, j)
  }

  lemma SlotMappedOk(t: seq<MemRange>, cap: nat, had: bool)
    requires MapOk(t) && |t| <= cap
    ensures MapOk(SlotMapped(t, cap, had)) && Later(t, SlotMapped(t, cap, had))
  {
    hide MapOk, Later, Alloc;
    LaterReflexive(t);
    if Alloc(t, cap, 0x1000, 0x1000, 0).Placed? {
      AllocIsLater(t, cap, 0x1000, 0x1000);
    }
  }

  lemma BaseReachesIff(t: seq<MemRange>, cap: nat, had: bool, q: nat)
    requires MapOk(t) && |t| <= cap
    ensures TouchedIn(BaseWant(t, 0, cap, had), q) <==> BaseReaches(t, cap, had, q)
  {
    hide Touches, NothingToDo, Rest, SlotMapped, MapOk, ReachedTouch, AfterStart;
    var k := FirstSpecial(t, 0);
    if InBaseAt(t, k) {
      var t1 := SlotMapped(t, cap, had);
      var i := AfterStart(t1, k, t[k].start);
      SlotMappedOk(t, cap, had);
      MapIsBaseFirst(t1);
      RestTouches(t1, i, q);
      TouchedInFirst(t[k], Rest(t1, i), q);
    }
  }

  lemma TouchedInFirst(r: MemRange, rest: seq<MemRange>, q: nat)
    ensures TouchedIn([r] + rest, q) <==> Touches(r, q) || TouchedIn(rest, q)
  {
    hide Touches;
    var all := [r] + rest;
    if TouchedIn(rest, q) {
      var k :| 0 <= k < |rest| && Touches(rest[k], q);
      assert all[k + 1] == rest[k];
    }
    if Touches(r, q) {
      assert all[0] == r;
    }
    if TouchedIn(all, q) && !Touches(r, q) {
      var k :| 0 <= k < |all| && Touches(all[k], q);
      assert all[k] == rest[k - 1];
    }
  }

  lemma {:induction false} BaseOfFromMap(mapped: seq<MemRange>, s: seq<MemRange>)
    requires FromMap(mapped, s)
    ensures FromMap(BaseOf(mapped), s)
  {
    hide NothingToDo, InsideSome;
    if mapped != [] {
      BaseOfFromMap(mapped[..|mapped| - 1], s);
    }
  }

  /** As long as no allocation has cut base memory, that is so if and only if the map itself has
      an entry that touches the page and is reached from its start. */
  lemma BaseReachesPlain(s: seq<MemRange>, t: seq<MemRange>, cap: nat, had: bool, q: nat)
    requires MapOk(s) && MapOk(t) && |t| <= cap && SameBase(s, t) && SameBase(s, SlotMapped(t, cap, had))
    ensures BaseReaches(t, cap, had, q) <==> exists k: nat :: ReachedTouch(s, 0, q, k)
  {
    hide Rest, SlotMapped, MapOk, ReachedTouch, BaseReaches, TouchedIn;
    SlotMappedOk(t, cap, had);
    MapIsBaseFirst(s);
    MapIsBaseFirst(t);
    MapIsBaseFirst(SlotMapped(t, cap, had));
    BaseReachesIff(t, cap, had, q);
    BaseWantPlain(s, t, cap, had);
    RestTouches(s, 0, q);
  }

  /** Below 1 MiB a page that all ranges touching it want written through, or all uncached, is
      mapped so if and only if one of them is reached or the first range of the map wants the
      same. */
  lemma BaseFlagsIff(m: Memory, pdpt: nat, s: seq<MemRange>, pool: seq<VaRange>, a: Attributes, q: nat, through: bool)
    requires Ready(m, pdpt, s, pool, a) && q < 0x100 && Uniform(s, q, through) && Touched(s, q)
    ensures var f := FlagsFor(through);
            && (WalkPage(m, pdpt, q) == IdPage(q, f)
                <==> PteFlags(s[0].uefiAttr) == f || BaseReaches(a.start, a.cap, a.had, q))
            && (WalkPage(m, pdpt, q) == IdPage(q, f) || WalkPage(m, pdpt, q) == IdPage(q, PteFlags(s[0].uefiAttr)))
  {
    UniformIff(s, q, through);
    hide Uniform, AllWriteBack;
    var f := FlagsFor(through);
    hide IdPage, PoolOk, FromMap, AllMapped, Rising, Later, MapOk, BaseWant, BaseOf, Paint, FirstPass, WalkPage,
      PteFlags, PoolExact, InSome, Touches, TouchedIn, BaseReaches, SpecialTouched, Passed;
    var want, w := BaseWant(a.start, 0, a.cap, a.had), IdPage(q, PteFlags(s[0].uefiAttr));
    BasePage(m, pdpt, s, pool, a, q);
    BaseReachesIff(a.start, a.cap, a.had, q);
    BaseOfFromMap(a.mapped, s);
    PaintMeans(want, q, w);
    if TouchedIn(want, q) {
      PaintAgreed(want, s, q, w, f);
    }
    var j :| 0 <= j < |s| && Touches(s[j], q);
    FlagsDiffer(q, s[0].uefiAttr, s[j].uefiAttr);
  }

  /** In that case the pages of base memory can be told from the map s alone. */
  lemma BaseFlagsPlain(m: Memory, pdpt: nat, s: seq<MemRange>, pool: seq<VaRange>, a: Attributes, q: nat,
                       through: bool)
    requires Ready(m, pdpt, s, pool, a) && BaseOf(a.mapped) == Rest(s, 0) && q < 0x100
    requires Uniform(s, q, through) && Touched(s, q)
    ensures WalkPage(m, pdpt, q) == IdPage(q, FlagsFor(through))
            <==> (!WriteBack(s[0].uefiAttr) && (WriteThrough(s[0].uefiAttr) <==> through))
                 || exists k: nat :: ReachedTouch(s, 0, q, k)
    ensures WalkPage(m, pdpt, q) == Paint(Rest(s, 0), q, IdPage(q, PteFlags(s[0].uefiAttr)))
  {
    PteFlagsIff(s[0].uefiAttr);
    hide Uniform, WriteBack, WriteThrough;
    hide IdPage, PoolOk, FromMap, AllMapped, Rising, Later, MapOk, BaseWant, BaseOf, Paint, FirstPass, WalkPage,
      PteFlags, PoolExact, InSome, Touches, TouchedIn, BaseReaches, SpecialTouched, Passed, PageFlags, Touched, Rest,
      ReachedTouch;
    BasePage(m, pdpt, s, pool, a, q);
    BaseFlagsIff(m, pdpt, s, pool, a, q, through);
    BaseReachesIff(a.start, a.cap, a.had, q);
    MapIsBaseFirst(s);
    RestTouches(s, 0, q);
  }

  // ---------------------------------------------------------------------------------------
  // Tables and lists

  /** Every page that holds some of [lo, hi) lies below the last hole's end, or is touched by a
      range that is not write-back. */
  ghost predicate Covered(s: seq<MemRange>, pool: seq<VaRange>, lo: nat, hi: nat) {
    forall p: nat :: OnPage(lo, hi, p) ==> p * 0x1000 < PoolEnd(pool) || SpecialTouched(s, |s|, p)
  }

  lemma OneIsOffPool(s: seq<MemRange>, pool: seq<VaRange>, lo: nat, hi: nat, p: nat)
    requires PoolOk(pool) && PoolExact(pool, s) && InOne(s, lo, hi) && lo < hi <= XM32_MAX_ADDR && OnPage(lo, hi, p)
    ensures p < 0x10_0000 && !InSome(pool, p * 0x1000)
  {
    hide InSome, PoolOk;
    var i :| 0 <= i < |s| && s[i].start <= lo && hi <= MemMap.End(s[i]);
    assert Touches(s[i], p);
    if InSome(pool, p * 0x1000) {
      InPoolIsExtended(pool, p);
    }
  }

  /** A part of a range of the map can be reached if and only if its pages are covered. */
  lemma AreaSafeIff(m: Memory, pdpt: nat, s: seq<MemRange>, pool: seq<VaRange>, a: Attributes, lo: nat, hi: nat)
    requires Ready(m, pdpt, s, pool, a) && InOne(s, lo, hi) && lo < hi <= XM32_MAX_ADDR
    ensures AreaSafe(m, pdpt, pool, lo, hi) <==> Covered(s, pool, lo, hi)
  {
    hide InSome, PoolOk, PoolExact, AttributesOk, Passed, WalkPage, SpecialTouched, PoolEnd, IdMapped, InOne;
    forall p: nat | OnPage(lo, hi, p)
      ensures PageSafe(m, pdpt, pool, p) <==> p * 0x1000 < PoolEnd(pool) || SpecialTouched(s, |s|, p)
    {
      assert PoolOk(pool) && PoolExact(pool, s);
      OneIsOffPool(s, pool, lo, hi, p);
      SelfMappedIff(m, pdpt, s, pool, a, p);
    }
  }

  lemma RamIsInOne(s: seq<MemRange>, lo: nat, hi: nat)
    requires InLowRam(s, lo, hi)
    ensures InOne(s, lo, hi) && hi <= XM32_MAX_ADDR
  {
  }

  /** All that stage 2 reaches by physical address lies in ranges of s: the map itself in
      [mapAt, mapEnd), the list of holes in [listAt, listEnd) and the tables in its low RAM. */
  ghost predicate Housed(s: seq<MemRange>, pdpt: nat, owner: Owner, listAt: nat, listEnd: nat, mapAt: nat,
                         mapEnd: nat) {
    && InLowRam(s, pdpt, pdpt + 32) && listAt < listEnd && InLowRam(s, listAt, listEnd)
    && mapAt < mapEnd <= XM32_MAX_ADDR && InOne(s, mapAt, mapEnd)
    && forall f :: f in owner ==> InLowRam(s, f, f + 0x1000)
  }

  ghost predicate RamCovered(s: seq<MemRange>, pool: seq<VaRange>, t: seq<MemRange>) {
    forall i :: 0 <= i < |t| && LowRam(t[i]) ==> Covered(s, pool, t[i].start, MemMap.End(t[i]))
  }

  ghost predicate FramesCovered(s: seq<MemRange>, pool: seq<VaRange>, owner: Owner) {
    forall f :: f in owner ==> Covered(s, pool, f, f + 0x1000)
  }

  /** All of it, and the RAM of t, is covered. */
  ghost predicate AllCovered(s: seq<MemRange>, pool: seq<VaRange>, t: seq<MemRange>, pdpt: nat, owner: Owner,
                             listAt: nat, listEnd: nat, mapAt: nat, mapEnd: nat) {
    && Covered(s, pool, pdpt, pdpt + 32) && Covered(s, pool, listAt, listEnd) && Covered(s, pool, mapAt, mapEnd)
    && FramesCovered(s, pool, owner) && RamCovered(s, pool, t)
  }

  lemma RamSafeIff(m: Memory, pdpt: nat, s: seq<MemRange>, pool: seq<VaRange>, a: Attributes, t: seq<MemRange>)
    requires Ready(m, pdpt, s, pool, a) && Later(s, t) && MapOk(t)
    ensures RamSafe(m, pdpt, pool, t) <==> RamCovered(s, pool, t)
  {
    hide Ready, AreaSafe, Covered, InLowRam, Refines, RamShrinks, Grew, OnlyRamCut, InOne;
    RangesOk(t);
    hide MapOk;
    forall i | 0 <= i < |t| && LowRam(t[i])
      ensures AreaSafe(m, pdpt, pool, t[i].start, MemMap.End(t[i])) <==> Covered(s, pool, t[i].start, MemMap.End(t[i]))
    {
      RamIsInOne(s, t[i].start, MemMap.End(t[i]));
      AreaSafeIff(m, pdpt, s, pool, a, t[i].start, MemMap.End(t[i]));
    }
  }

  lemma FramesSafeIff(m: Memory, pdpt: nat, s: seq<MemRange>, pool: seq<VaRange>, a: Attributes, owner: Owner)
    requires Ready(m, pdpt, s, pool, a) && forall f :: f in owner ==> InLowRam(s, f, f + 0x1000)
    ensures FramesSafe(m, pdpt, pool, owner) <==> FramesCovered(s, pool, owner)
  {
    hide Ready, AreaSafe, Covered, InLowRam, InOne;
    forall f | f in owner
      ensures AreaSafe(m, pdpt, pool, f, f + 0x1000) <==> Covered(s, pool, f, f + 0x1000)
    {
      RamIsInOne(s, f, f + 0x1000);
      AreaSafeIff(m, pdpt, s, pool, a, f, f + 0x1000);
    }
  }

  lemma ThreeSafeIff(m: Memory, pdpt: nat, s: seq<MemRange>, pool: seq<VaRange>, a: Attributes, owner: Owner,
                     listAt: nat, listEnd: nat, mapAt: nat, mapEnd: nat)
    requires Ready(m, pdpt, s, pool, a) && Housed(s, pdpt, owner, listAt, listEnd, mapAt, mapEnd)
    ensures AreaSafe(m, pdpt, pool, pdpt, pdpt + 32) <==> Covered(s, pool, pdpt, pdpt + 32)
    ensures AreaSafe(m, pdpt, pool, listAt, listEnd) <==> Covered(s, pool, listAt, listEnd)
    ensures AreaSafe(m, pdpt, pool, mapAt, mapEnd) <==> Covered(s, pool, mapAt, mapEnd)
  {
    hide Ready, AreaSafe, Covered, InLowRam, InOne;
    RamIsInOne(s, pdpt, pdpt + 32);
    RamIsInOne(s, listAt, listEnd);
    AreaSafeIff(m, pdpt, s, pool, a, pdpt, pdpt + 32);
    AreaSafeIff(m, pdpt, s, pool, a, listAt, listEnd);
    AreaSafeIff(m, pdpt, s, pool, a, mapAt, mapEnd);
  }

  /** Stage 2 reaches all its tables and lists, now and after every later allocation, if and only
      if they are covered, and so is the RAM that is left. */
  lemma AllSafeIff(m: Memory, pdpt: nat, s: seq<MemRange>, pool: seq<VaRange>, a: Attributes, t: seq<MemRange>,
                   owner: Owner, listAt: nat, listEnd: nat, mapAt: nat, mapEnd: nat)
    requires Ready(m, pdpt, s, pool, a) && Later(s, t) && MapOk(t)
    requires Housed(s, pdpt, owner, listAt, listEnd, mapAt, mapEnd)
    ensures AllSafe(m, pdpt, pool, owner, t, listAt, listEnd, mapAt, mapEnd)
            <==> AllCovered(s, pool, t, pdpt, owner, listAt, listEnd, mapAt, mapEnd)
  {
    hide Ready, AreaSafe, Covered, Later, MapOk, InLowRam, InOne, RamSafe, RamCovered, FramesSafe, FramesCovered;
    ThreeSafeIff(m, pdpt, s, pool, a, owner, listAt, listEnd, mapAt, mapEnd);
    RamSafeIff(m, pdpt, s, pool, a, t);
    FramesSafeIff(m, pdpt, s, pool, a, owner);
  }

  /** RAM below 4 GiB ends below the end of the last hole. */
  ghost predicate RamEndsBelow(s: seq<MemRange>, e: nat) {
    forall i :: 0 <= i < |s| && LowRam(s[i]) ==> MemMap.End(s[i]) <= e
  }

  lemma BelowIsCovered(s: seq<MemRange>, pool: seq<VaRange>, lo: nat, hi: nat)
    requires hi <= PoolEnd(pool)
    ensures Covered(s, pool, lo, hi)
  {
  }

  lemma RamBelowIsCovered(s: seq<MemRange>, pool: seq<VaRange>, lo: nat, hi: nat)
    requires RamEndsBelow(s, PoolEnd(pool)) && InLowRam(s, lo, hi)
    ensures Covered(s, pool, lo, hi)
  {
    var i :| 0 <= i < |s| && LowRam(s[i]) && s[i].start <= lo && hi <= MemMap.End(s[i]);
    BelowIsCovered(s, pool, lo, hi);
  }

  /** All is well if all RAM below 4 GiB, and the map itself, ends below the end of the last hole. */
  lemma RamBelowSuffices(s: seq<MemRange>, pool: seq<VaRange>, t: seq<MemRange>, pdpt: nat, owner: Owner,
                         listAt: nat, listEnd: nat, mapAt: nat, mapEnd: nat)
    requires Later(s, t) && MapOk(t) && Housed(s, pdpt, owner, listAt, listEnd, mapAt, mapEnd)
    requires RamEndsBelow(s, PoolEnd(pool)) && mapEnd <= PoolEnd(pool)
    ensures AllCovered(s, pool, t, pdpt, owner, listAt, listEnd, mapAt, mapEnd)
  {
    hide Covered, PoolEnd, RamEndsBelow, InLowRam, InOne, Refines, RamShrinks, Grew, OnlyRamCut, MapOk;
    BelowIsCovered(s, pool, mapAt, mapEnd);
    RamBelowIsCovered(s, pool, pdpt, pdpt + 32);
    RamBelowIsCovered(s, pool, listAt, listEnd);
    forall i | 0 <= i < |t| && LowRam(t[i]) ensures Covered(s, pool, t[i].start, MemMap.End(t[i])) {
      RamBelowIsCovered(s, pool, t[i].start, MemMap.End(t[i]));
    }
    forall f | f in owner ensures Covered(s, pool, f, f + 0x1000) {
      RamBelowIsCovered(s, pool, f, f + 0x1000);
    }
  }
}

/** The pass of va_init over the memory attributes (stage2/mem.c:384-425), on values. The memory
    map may gain entries while the pass goes over it, when tables are allocated. The ranges that
    the pass maps, in order and as they were at the time, say what every page ends with. */
module SecondPass {
  import opened Machine
  import opened MemMap
  import opened PageTable
  import opened VaPool
  import opened VaTranslation
  import opened Holes
  import opened Identity
  import opened Paging

  /** Entry i needs no special flags below 4 GiB. */
  predicate NothingToDo(r: MemRange) {
    PteFlags(r.uefiAttr) == 0 || r.start >= XM32_MAX_ADDR
  }

  /** The translation of page p, at first w, after the ranges have been mapped: the last one that
      touches the page decides. */
  function Paint(mapped: seq<MemRange>, p: nat, w: Walk): Walk {
    if mapped == [] then w
    else
      var r := mapped[|mapped| - 1];
      if Touches(r, p) then IdPage(p, PteFlags(r.uefiAttr)) else Paint(mapped[..|mapped| - 1], p, w)
  }

  ghost predicate TouchedIn(mapped: seq<MemRange>, p: nat) {
    exists k :: 0 <= k < |mapped| && Touches(mapped[k], p)
  }

  /** The mapped ranges are parts of ranges of s that need special flags. */
  ghost predicate FromMap(mapped: seq<MemRange>, s: seq<MemRange>) {
    forall k :: 0 <= k < |mapped| ==> InsideSome(mapped[k], s) && !NothingToDo(mapped[k])
  }

  ghost predicate Painted(m0: Memory, m: Memory, pdpt: nat, mapped: seq<MemRange>) {
    forall p: nat :: p < 0x10_0000 ==> WalkPage(m, pdpt, p) == Paint(mapped, p, WalkPage(m0, pdpt, p))
  }

  /** One of the first i ranges touches page q and needs special flags. */
  ghost predicate SpecialTouched(t: seq<MemRange>, i: nat, q: nat) {
    exists j :: 0 <= j < i && j < |t| && Touches(t[j], q) && PteFlags(t[j].uefiAttr) != 0
  }

  /** One of the first i ranges holds byte a and has attribute word attr. */
  ghost predicate CoversBelow(t: seq<MemRange>, i: nat, a: int, attr: nat) {
    exists j :: 0 <= j < i && j < |t| && InRange(t[j], a) && t[j].uefiAttr == attr
  }

  /** A byte from 1 MiB up to 4 GiB with attributes that need special flags. */
  predicate SpecialByte(a: int, attr: nat) {
    BMEM_MAX_ADDR <= a < XM32_MAX_ADDR && PteFlags(attr) != 0
  }

  /** No byte of extended memory that one of the first i ranges wants special has been missed. */
  ghost predicate MappedBelow(mapped: seq<MemRange>, t: seq<MemRange>, i: nat) {
    forall a: int, attr: nat :: SpecialByte(a, attr) && CoversBelow(t, i, a, attr) ==> Covers(mapped, a, attr)
  }

  /** Ranges of extended memory have been mapped from the lowest up. */
  ghost predicate Rising(mapped: seq<MemRange>) {
    forall k, l :: 0 <= k < l < |mapped| && mapped[k].start >= BMEM_MAX_ADDR ==> mapped[k].start < mapped[l].start
  }

  /** Those still to come start higher. */
  ghost predicate RisesTo(mapped: seq<MemRange>, t: seq<MemRange>, i: nat) {
    forall k, l :: 0 <= k < |mapped| && mapped[k].start >= BMEM_MAX_ADDR && i <= l < |t| ==>
      mapped[k].start < t[l].start
  }

  /** Pages of the pool are absent. */
  ghost predicate PoolAbsent(m: Memory, pdpt: nat, pool: seq<VaRange>) {
    forall p: nat :: p < 0x10_0000 && InSome(pool, p * 0x1000) ==> WalkPage(m, pdpt, p) == Absent
  }

  /** The invariant of the pass: s is the map it started with, t the map now, i the next entry. */
  ghost predicate AttrInv(m0: Memory, m: Memory, pdpt: nat, pool: seq<VaRange>, s: seq<MemRange>, t: seq<MemRange>,
                          i: nat, mapped: seq<MemRange>) {
    && PoolAbsent(m, pdpt, pool) && LargeOffPool(m, pdpt, pool)
    && Painted(m0, m, pdpt, mapped) && FromMap(mapped, s) && MappedBelow(mapped, t, i)
    && Rising(mapped) && RisesTo(mapped, t, i)
  }

  lemma AttrStart(m: Memory, pdpt: nat, pool: seq<VaRange>, s: seq<MemRange>, t: seq<MemRange>)
    requires PoolAbsent(m, pdpt, pool) && LargeOffPool(m, pdpt, pool)
    ensures AttrInv(m, m, pdpt, pool, s, t, 0, [])
  {
  }

  // ---------------------------------------------------------------------------------------
  // Skipping a range

  lemma AttrSkip(m0: Memory, m: Memory, pdpt: nat, pool: seq<VaRange>, s: seq<MemRange>, t: seq<MemRange>, i: nat,
                 mapped: seq<MemRange>)
    requires AttrInv(m0, m, pdpt, pool, s, t, i, mapped) && i < |t| && NothingToDo(t[i])
    ensures AttrInv(m0, m, pdpt, pool, s, t, i + 1, mapped)
  {
    hide WalkPage, PteFlags, IdPage, Painted, PoolAbsent, LargeOffPool, FromMap;
    forall a: int, attr: nat | SpecialByte(a, attr) && CoversBelow(t, i + 1, a, attr) ensures CoversBelow(t, i, a, attr) {
    }
  }

  // ---------------------------------------------------------------------------------------
  // Mapping a range

  /** m1 is m with the pages that r touches mapped to themselves with flags f. */
  ghost predicate MapsRange(m: Memory, m1: Memory, pdpt: nat, r: MemRange, f: nat) {
    forall p: nat :: p < 0x10_0000 ==>
      WalkPage(m1, pdpt, p) == if Touches(r, p) then IdPage(p, f) else WalkPage(m, pdpt, p)
  }

  lemma IntervalMapsRange(m: Memory, m1: Memory, pdpt: nat, r: MemRange, f: nat)
    requires RangeOk(r) && r.start < XM32_MAX_ADDR
    requires var start, len := RoundDown(r.start), AttrLen(r);
             MapsTo(m, m1, pdpt, start / 0x1000, (start + len) / 0x1000, start, Attr(f))
    ensures MapsRange(m, m1, pdpt, r, f)
  {
    hide Touches, RoundDown, AttrLen, WalkPage, IdPage, Consecutive, Attr;
    AttrInterval(r);
    var start, len := RoundDown(r.start), AttrLen(r);
    forall p: nat | p < 0x10_0000
      ensures WalkPage(m1, pdpt, p) == if Touches(r, p) then IdPage(p, f) else WalkPage(m, pdpt, p)
    {
      if start / 0x1000 <= p {
        IdentityIsIdPage(start / 0x1000, p, f);
      }
    }
  }

  /** Entries of the map touch no page of the pool. */
  ghost predicate PoolUntouched(pool: seq<VaRange>, s: seq<MemRange>) {
    forall q: nat :: q < 0x10_0000 && InSome(pool, q * 0x1000) ==> !Touched(s, q)
  }

  lemma RangeOffPool(pool: seq<VaRange>, s: seq<MemRange>, t: seq<MemRange>, i: nat)
    requires PoolUntouched(pool, s) && Refines(t, s) && i < |t|
    ensures forall q: nat :: q < 0x10_0000 && Touches(t[i], q) ==> !InSome(pool, q * 0x1000)
  {
    hide Refines, InSome, Touches;
    forall q: nat | q < 0x10_0000 && Touches(t[i], q) ensures !InSome(pool, q * 0x1000) {
      assert Touched(t, q);
      TouchedLater(s, t, q);
    }
  }

  lemma PaintAppend(mapped: seq<MemRange>, r: MemRange, p: nat, w: Walk)
    ensures Paint(mapped + [r], p, w) == if Touches(r, p) then IdPage(p, PteFlags(r.uefiAttr)) else Paint(mapped, p, w)
  {
    assert (mapped + [r])[..|mapped|] == mapped;
  }

  lemma PaintedMore(m0: Memory, m: Memory, m1: Memory, pdpt: nat, mapped: seq<MemRange>, r: MemRange)
    requires Painted(m0, m, pdpt, mapped) && MapsRange(m, m1, pdpt, r, PteFlags(r.uefiAttr))
    ensures Painted(m0, m1, pdpt, mapped + [r])
  {
    hide WalkPage, IdPage, Touches, PteFlags, Paint;
    forall p: nat | p < 0x10_0000
      ensures WalkPage(m1, pdpt, p) == Paint(mapped + [r], p, WalkPage(m0, pdpt, p))
    {
      PaintAppend(mapped, r, p, WalkPage(m0, pdpt, p));
    }
  }

  lemma FromMapMore(mapped: seq<MemRange>, s: seq<MemRange>, t: seq<MemRange>, i: nat)
    requires FromMap(mapped, s) && Refines(t, s) && i < |t| && !NothingToDo(t[i])
    ensures FromMap(mapped + [t[i]], s)
  {
    hide NothingToDo, InsideSome, Covers;
  }

  lemma PoolStaysAbsent(m: Memory, m1: Memory, pdpt: nat, pool: seq<VaRange>, r: MemRange, f: nat)
    requires PoolAbsent(m, pdpt, pool) && MapsRange(m, m1, pdpt, r, f)
    requires forall q: nat :: q < 0x10_0000 && Touches(r, q) ==> !InSome(pool, q * 0x1000)
    ensures PoolAbsent(m1, pdpt, pool)
  {
    hide WalkPage, IdPage, Touches, InSome;
  }

  lemma HolderWas(t: seq<MemRange>, t1: seq<MemRange>, j: nat) returns (k: nat)
    requires Refines(t1, t) && j < |t1|
    ensures k < |t| && Inside(t1[j], t[k])
  {
    hide Covers;
    assert InsideSome(t1[j], t);
    k :| 0 <= k < |t| && Inside(t1[j], t[k]);
  }

  lemma StartNow(t: seq<MemRange>, t1: seq<MemRange>, i: nat) returns (j: nat)
    requires Grew(t, t1) && i < |t|
    ensures i <= j < |t1| && t1[j].start == t[i].start
  {
    assert StartsAtOrAfter(t1, i, t[i].start);
    j :| i <= j < |t1| && t1[j].start == t[i].start;
  }

  lemma HoldsAbove(t: seq<MemRange>, k: nat, a: int)
    requires MapOk(t) && k < |t| && InRange(t[k], a) && a >= BMEM_MAX_ADDR
    ensures t[k].start >= BMEM_MAX_ADDR
  {
    assert RangeOk(t[k]);
  }

  lemma AboveInOrder(t: seq<MemRange>, i: nat, k: nat)
    requires MapOk(t) && i < k < |t| && (t[i].start >= BMEM_MAX_ADDR || t[k].start >= BMEM_MAX_ADDR)
    ensures t[i].start < t[k].start
    ensures t[i].start >= BMEM_MAX_ADDR ==> MemMap.End(t[i]) <= t[k].start
  {
    assert RangeOk(t[i]);
  }

  /** After the tables needed for entry i have been allocated, and the scan has gone on to
      entry i1 of the new map t1, the entries below i1 hold no byte of extended memory that the
      entries up to i of the old map did not. */
  lemma BelowStays(t: seq<MemRange>, t1: seq<MemRange>, i: nat, i1: nat, a: int, attr: nat)
    requires MapOk(t) && MapOk(t1) && Refines(t1, t) && Grew(t, t1)
    requires i < |t| && i <= i1 <= |t1| && forall j :: i <= j < i1 ==> t1[j].start <= t[i].start
    requires BMEM_MAX_ADDR <= a && CoversBelow(t1, i1, a, attr)
    ensures CoversBelow(t, i + 1, a, attr)
  {
    hide MapOk, Refines, Grew;
    var j: nat :| 0 <= j < i1 && j < |t1| && InRange(t1[j], a) && t1[j].uefiAttr == attr;
    var k := HolderWas(t, t1, j);
    var i2 := StartNow(t, t1, i);
    HoldsAbove(t, k, a);
    HoldsAbove(t1, j, a);
    if i < k {
      AboveInOrder(t, i, k);
    }
    if j < i2 {
      AboveInOrder(t1, j, i2);
    }
  }

  lemma MappedBelowMore(mapped: seq<MemRange>, t: seq<MemRange>, t1: seq<MemRange>, i: nat, i1: nat)
    requires i < |t| && i <= i1 <= |t1| && forall j :: i <= j < i1 ==> t1[j].start <= t[i].start
    requires MappedBelow(mapped, t, i)
    requires MapOk(t) && MapOk(t1) && Refines(t1, t) && Grew(t, t1)
    ensures MappedBelow(mapped + [t[i]], t1, i1)
  {
    hide Refines, MapOk, Grew, PteFlags;
    var more := mapped + [t[i]];
    forall a: int, attr: nat | SpecialByte(a, attr) && CoversBelow(t1, i1, a, attr) ensures Covers(more, a, attr) {
      BelowStays(t, t1, i, i1, a, attr);
      if InRange(t[i], a) && t[i].uefiAttr == attr {
        assert more[|mapped|] == t[i];
      } else {
        assert CoversBelow(t, i, a, attr);
        var k :| 0 <= k < |mapped| && InRange(mapped[k], a) && mapped[k].uefiAttr == attr;
        assert more[k] == mapped[k];
      }
    }
  }

  lemma RisingMore(mapped: seq<MemRange>, t: seq<MemRange>, t1: seq<MemRange>, i: nat, i1: nat)
    requires i < |t| && i <= i1 <= |t1| && MapOk(t1)
    requires i1 < |t1| ==> t1[i1].start > t[i].start
    requires Rising(mapped) && RisesTo(mapped, t, i)
    ensures Rising(mapped + [t[i]]) && RisesTo(mapped + [t[i]], t1, i1)
  {
    var more := mapped + [t[i]];
    forall k, l | 0 <= k < |more| && more[k].start >= BMEM_MAX_ADDR && i1 <= l < |t1|
      ensures more[k].start < t1[l].start
    {
      assert more[k].start <= t[i].start;
      assert RangeOk(t1[i1]);
      assert i1 < l ==> t1[i1].start < MemMap.End(t1[i1]) <= t1[l].start;
    }
  }

  lemma AttrMap(m0: Memory, m: Memory, m1: Memory, pdpt: nat, pool: seq<VaRange>,
                s: seq<MemRange>, t: seq<MemRange>, t1: seq<MemRange>, i: nat, i1: nat, mapped: seq<MemRange>)
    requires i < |t| && !NothingToDo(t[i]) && i <= i1 <= |t1|
    requires forall j :: i <= j < i1 ==> t1[j].start <= t[i].start
    requires i1 < |t1| ==> t1[i1].start > t[i].start
    requires var start, len := RoundDown(t[i].start), AttrLen(t[i]);
             && MapsTo(m, m1, pdpt, start / 0x1000, (start + len) / 0x1000, start, Attr(PteFlags(t[i].uefiAttr)))
             && LargeOnlyIn(m, m1, pdpt, start / 0x1000, (start + len) / 0x1000)
    requires PoolUntouched(pool, s) && AttrInv(m0, m, pdpt, pool, s, t, i, mapped)
    requires MapOk(t) && MapOk(t1) && Refines(t, s) && Refines(t1, t) && Grew(t, t1)
    ensures AttrInv(m0, m1, pdpt, pool, s, t1, i1, mapped + [t[i]])
  {
    hide WalkPage, Refines, MapOk, Grew, PteFlags, IdPage, Touches, InSome, PoolUntouched, PoolAbsent,
      Painted, FromMap, MappedBelow, LargeOffPool, MapsTo, LargeOnlyIn, AttrLen, RoundDown, Rising, RisesTo;
    RangesOk(t);
    IntervalMapsRange(m, m1, pdpt, t[i], PteFlags(t[i].uefiAttr));
    RangeOffPool(pool, s, t, i);
    PoolStaysAbsent(m, m1, pdpt, pool, t[i], PteFlags(t[i].uefiAttr));
    PaintedMore(m0, m, m1, pdpt, mapped, t[i]);
    FromMapMore(mapped, s, t, i);
    MappedBelowMore(mapped, t, t1, i, i1);
    RisingMore(mapped, t, t1, i, i1);
    AttrInterval(t[i]);
    var start, len := RoundDown(t[i].start), AttrLen(t[i]);
    forall p: nat | start / 0x1000 <= p < (start + len) / 0x1000 ensures !InSome(pool, p * 0x1000) {
      assert p < 0x10_0000;
    }
    LargeStaysOffPool(m, m1, pdpt, pool, start / 0x1000, (start + len) / 0x1000);
  }

  // ---------------------------------------------------------------------------------------
  // What the mapped ranges mean for a page

  lemma IdPageIsId(p: nat, f: nat)
    requires p < 0x10_0000
    ensures IdMapped(IdPage(p, f), p)
  {
  }

  /** No two of the flags that ranges can ask for look alike. */
  lemma FlagsDiffer(p: nat, a: nat, b: nat)
    ensures IdPage(p, PteFlags(a)) == IdPage(p, PteFlags(b)) <==> PteFlags(a) == PteFlags(b)
  {
  }

  /** A page that no mapped range touches keeps its translation; all others are mapped to
      themselves. */
  lemma {:induction false} PaintMeans(mapped: seq<MemRange>, p: nat, w: Walk)
    requires p < 0x10_0000
    ensures !TouchedIn(mapped, p) ==> Paint(mapped, p, w) == w
    ensures TouchedIn(mapped, p) ==> IdMapped(Paint(mapped, p, w), p)
  {
    if mapped != [] {
      hide IdPage, IdMapped, Touches;
      var n := |mapped| - 1;
      PaintMeans(mapped[..n], p, w);
      IdPageIsId(p, PteFlags(mapped[n].uefiAttr));
      if TouchedIn(mapped, p) && !Touches(mapped[n], p) {
        var k :| 0 <= k < |mapped| && Touches(mapped[k], p);
        assert mapped[..n][k] == mapped[k];
      }
    }
  }

  /** If all ranges that touch a page want the same flags, a mapped one gives it those. */
  lemma {:induction false} PaintAgreed(mapped: seq<MemRange>, s: seq<MemRange>, p: nat, w: Walk, f: nat)
    requires FromMap(mapped, s) && PageFlags(s, p, f) && TouchedIn(mapped, p)
    ensures Paint(mapped, p, w) == IdPage(p, f) && f != 0
  {
    hide IdPage, Touches, PteFlags;
    var n := |mapped| - 1;
    if Touches(mapped[n], p) {
      var k := InsideTouches(s, mapped[n], p);
    } else {
      var k :| 0 <= k < |mapped| && Touches(mapped[k], p);
      assert mapped[..n][k] == mapped[k];
      PaintAgreed(mapped[..n], s, p, w, f);
    }
  }

  /** A mapped range that touches a page shows that some range of s wants it special. */
  lemma TouchedIsSpecial(mapped: seq<MemRange>, s: seq<MemRange>, p: nat)
    requires FromMap(mapped, s) && TouchedIn(mapped, p)
    ensures SpecialTouched(s, |s|, p)
  {
    hide Touches, PteFlags;
    var k :| 0 <= k < |mapped| && Touches(mapped[k], p);
    var i := InsideTouches(s, mapped[k], p);
  }

  /** All special bytes of extended memory are in mapped ranges. */
  ghost predicate AllMapped(mapped: seq<MemRange>, s: seq<MemRange>) {
    forall a: int, attr: nat :: SpecialByte(a, attr) && Covers(s, a, attr) ==> Covers(mapped, a, attr)
  }

  lemma EndsAllMapped(mapped: seq<MemRange>, s: seq<MemRange>, t: seq<MemRange>)
    requires MappedBelow(mapped, t, |t|) && Refines(t, s)
    ensures AllMapped(mapped, s)
  {
    hide SpecialByte;
    forall a: int, attr: nat | SpecialByte(a, attr) && Covers(s, a, attr) ensures Covers(mapped, a, attr) {
      assert Covers(t, a, attr);
      assert CoversBelow(t, |t|, a, attr);
    }
  }

  /** Page q has been mapped for range i of s, which touches it. */
  lemma SpecialIsMapped(mapped: seq<MemRange>, s: seq<MemRange>, i: nat, q: nat) returns (k: nat, b: nat)
    requires AllMapped(mapped, s) && MapOk(s) && 0x100 <= q < 0x10_0000
    requires i < |s| && Touches(s[i], q) && PteFlags(s[i].uefiAttr) != 0
    ensures k < |mapped| && Touches(mapped[k], q) && InRange(mapped[k], b) && InRange(s[i], b)
    ensures BMEM_MAX_ADDR <= s[i].start
  {
    hide PteFlags;
    b := TouchesByte(s[i], q);
    assert RangeOk(s[i]);
    assert SpecialByte(b, s[i].uefiAttr) && Covers(s, b, s[i].uefiAttr);
    k :| 0 <= k < |mapped| && InRange(mapped[k], b) && mapped[k].uefiAttr == s[i].uefiAttr;
  }

  /** The last mapped range that touches the page. */
  lemma {:induction false} PaintIsLast(mapped: seq<MemRange>, q: nat, w: Walk) returns (n: nat)
    requires TouchedIn(mapped, q)
    ensures n < |mapped| && Touches(mapped[n], q) && forall l :: n < l < |mapped| ==> !Touches(mapped[l], q)
    ensures Paint(mapped, q, w) == IdPage(q, PteFlags(mapped[n].uefiAttr))
  {
    hide Touches, IdPage, PteFlags;
    var m := |mapped| - 1;
    if Touches(mapped[m], q) {
      n := m;
    } else {
      var k :| 0 <= k < |mapped| && Touches(mapped[k], q);
      assert mapped[..m][k] == mapped[k];
      n := PaintIsLast(mapped[..m], q, w);
    }
  }

  /** The highest range that touches page q and needs special flags decides. */
  lemma HighestDecides(mapped: seq<MemRange>, s: seq<MemRange>, i: nat, q: nat, w: Walk)
    requires FromMap(mapped, s) && AllMapped(mapped, s) && Rising(mapped) && MapOk(s) && 0x100 <= q < 0x10_0000
    requires i < |s| && Touches(s[i], q) && PteFlags(s[i].uefiAttr) != 0
    requires forall j :: i < j < |s| && Touches(s[j], q) ==> PteFlags(s[j].uefiAttr) == 0
    ensures Paint(mapped, q, w) == IdPage(q, PteFlags(s[i].uefiAttr))
  {
    hide AllMapped, IdPage, PteFlags, Paint;
    var k, b := SpecialIsMapped(mapped, s, i, q);
    var n := PaintIsLast(mapped, q, w);
    var x := InsideTouches(s, mapped[n], q);
    var y := InsideTouches(s, mapped[k], q);
    assert x <= i && k <= n;
    TouchesAbove(s[x], q);
    TouchesAbove(s[y], q);
    TouchesAbove(mapped[n], q);
    assert RangeOk(s[x]) && RangeOk(s[y]) && RangeOk(s[i]);
    assert y == i;
  }

  lemma TouchesAbove(r: MemRange, q: nat)
    requires Touches(r, q) && 0x100 <= q
    ensures MemMap.End(r) > BMEM_MAX_ADDR
  {
  }

  lemma NotSpecial(s: seq<MemRange>, p: nat)
    ensures !SpecialTouched(s, |s|, p) <==> PageFlags(s, p, 0)
  {
    hide Touches, PteFlags;
  }
}

/** The identity mapping that va_init builds (stage2/mem.c:310-425), on values: which pages it
    maps in its first pass, and what the pass over the memory attributes makes of them. */
module Identity {
  import opened Machine
  import opened MemMap
  import opened AllocRuns
  import opened PageTable
  import opened VaPool
  import opened VaTranslation
  import opened Holes
  import opened Paging

  /** Write-back memory is cached as usual, write-through memory is made so, and all other
      memory is not cached. */
  function PteFlags(uefiAttr: nat): nat {
    if uefiAttr / 8 % 2 == 1 then 0
    else if uefiAttr / 4 % 2 == 1 then PTE_WT
    else PTE_CD
  }

  const EFI_MEMORY_WT := 4
  const EFI_MEMORY_WB := 8

  predicate WriteBack(uefiAttr: nat) {
    BitAnd(uefiAttr, EFI_MEMORY_WB) != 0
  }

  predicate WriteThrough(uefiAttr: nat) {
    BitAnd(uefiAttr, EFI_MEMORY_WT) != 0
  }

  /** For every attribute word, that depends on these two bits alone. */
  lemma PteFlagsIff(uefiAttr: nat)
    ensures PteFlags(uefiAttr) == 0 <==> WriteBack(uefiAttr)
    ensures PteFlags(uefiAttr) == PTE_WT <==> !WriteBack(uefiAttr) && WriteThrough(uefiAttr)
    ensures PteFlags(uefiAttr) == PTE_CD <==> !WriteBack(uefiAttr) && !WriteThrough(uefiAttr)
  {
    assert IsPow2(EFI_MEMORY_WT) && IsPow2(EFI_MEMORY_WB);
    hide BitAnd, IsPow2;
    AndSingleBit(uefiAttr, EFI_MEMORY_WT);
    AndSingleBit(uefiAttr, EFI_MEMORY_WB);
  }

  function IdPage(p: nat, flags: nat): Walk {
    Consecutive(p * 0x1000, 0, Attr(flags))
  }

  lemma IdentityIsIdPage(lo: nat, p: nat, flags: nat)
    requires lo <= p < 0x10_0000
    ensures Consecutive(lo * 0x1000, p - lo, Attr(flags)) == IdPage(p, flags)
  {
  }

  // ---------------------------------------------------------------------------------------
  // First pass: everything below the last hole that is not in a hole

  /** The translation of page p when the first pass has reached hole n. */
  ghost function FirstPass(pool: seq<VaRange>, n: nat, flags: nat, p: nat): Walk {
    if n == 0 || n > |pool| || p * 0x1000 >= pool[n - 1].start || InSome(pool, p * 0x1000) then Absent
    else IdPage(p, if p * 0x1000 < pool[0].start then flags else 0)
  }

  ghost predicate PassedTo(m: Memory, pdpt: nat, pool: seq<VaRange>, n: nat, flags: nat) {
    forall p: nat :: p < 0x10_0000 ==> WalkPage(m, pdpt, p) == FirstPass(pool, n, flags, p)
  }

  ghost predicate LargeOffPool(m: Memory, pdpt: nat, pool: seq<VaRange>) {
    forall k: nat :: k < 2048 && Large(Pde(m, pdpt, k)) ==> SlotOffPool(pool, k)
  }

  /** The pages between hole n - 1, or the start of memory, and hole n. */
  function GapStart(pool: seq<VaRange>, n: nat): nat
    requires n < |pool|
  {
    if n == 0 then 0 else VaPool.End(pool[n - 1])
  }

  lemma GapIsOffPool(pool: seq<VaRange>, n: nat, a: int)
    requires PoolOk(pool) && n < |pool| && GapStart(pool, n) <= a < pool[n].start
    ensures !InSome(pool, a)
  {
    forall k | 0 <= k < |pool| ensures !In(pool[k], a) {
      if k < n {
        assert VaPool.End(pool[k]) <= VaPool.End(pool[n - 1]);
      }
    }
  }

  lemma GapAligned(pool: seq<VaRange>, n: nat)
    requires PoolOk(pool) && n < |pool|
    ensures GapStart(pool, n) % 0x1000 == 0 && pool[n].start % 0x1000 == 0
    ensures GapStart(pool, n) <= pool[n].start < XM32_MAX_ADDR
    ensures n > 0 ==> pool[0].start <= pool[n - 1].start < GapStart(pool, n)
  {
    if n > 0 {
      assert Aligned(pool[n - 1]);
    }
  }

  lemma FirstPassStep(pool: seq<VaRange>, n: nat, flags: nat, p: nat)
    requires PoolOk(pool) && n < |pool| && p < 0x10_0000
    ensures var lo, hi := GapStart(pool, n) / 0x1000, pool[n].start / 0x1000;
            FirstPass(pool, n + 1, flags, p) ==
              if lo <= p < hi then IdPage(p, if n == 0 then flags else 0) else FirstPass(pool, n, flags, p)
  {
    hide IdPage;
    GapAligned(pool, n);
    var lo, hi := GapStart(pool, n) / 0x1000, pool[n].start / 0x1000;
    if lo <= p < hi {
      GapIsOffPool(pool, n, p * 0x1000);
    } else if n > 0 && pool[n - 1].start <= p * 0x1000 < GapStart(pool, n) {
      assert In(pool[n - 1], p * 0x1000);
    }
  }

  lemma FirstPassMaps(m0: Memory, m1: Memory, pdpt: nat, pool: seq<VaRange>, n: nat, flags: nat)
    requires PoolOk(pool) && n < |pool|
    requires PassedTo(m0, pdpt, pool, n, flags)
    requires MapsTo(m0, m1, pdpt, GapStart(pool, n) / 0x1000, pool[n].start / 0x1000, GapStart(pool, n),
               Attr(if n == 0 then flags else 0))
    ensures PassedTo(m1, pdpt, pool, n + 1, flags)
  {
    hide PoolOk, WalkPage, FirstPass, Consecutive, IdPage, Attr;
    GapAligned(pool, n);
    var lo := GapStart(pool, n) / 0x1000;
    forall p: nat | p < 0x10_0000 ensures WalkPage(m1, pdpt, p) == FirstPass(pool, n + 1, flags, p) {
      FirstPassStep(pool, n, flags, p);
      if lo <= p {
        IdentityIsIdPage(lo, p, if n == 0 then flags else 0);
      }
    }
  }

  /** Mapping pages that are not in the pool makes no large page there. */
  lemma LargeStaysOffPool(m0: Memory, m1: Memory, pdpt: nat, pool: seq<VaRange>, lo: nat, hi: nat)
    requires LargeOffPool(m0, pdpt, pool) && LargeOnlyIn(m0, m1, pdpt, lo, hi)
    requires forall p: nat :: lo <= p < hi ==> !InSome(pool, p * 0x1000)
    ensures LargeOffPool(m1, pdpt, pool)
  {
    hide Pde, Large, InSome;
    forall k: nat | k < 2048 && Large(Pde(m1, pdpt, k)) ensures SlotOffPool(pool, k) {
      if !Large(Pde(m0, pdpt, k)) {
        forall p: nat | p / 512 == k ensures !InSome(pool, p * 0x1000) {
          assert lo <= p < hi;
        }
      }
    }
  }

  lemma FirstPassLarge(m0: Memory, m1: Memory, pdpt: nat, pool: seq<VaRange>, n: nat)
    requires PoolOk(pool) && n < |pool| && LargeOffPool(m0, pdpt, pool)
    requires LargeOnlyIn(m0, m1, pdpt, GapStart(pool, n) / 0x1000, pool[n].start / 0x1000)
    ensures LargeOffPool(m1, pdpt, pool)
  {
    hide PoolOk, LargeOnlyIn, LargeOffPool, InSome;
    GapAligned(pool, n);
    var lo, hi := GapStart(pool, n) / 0x1000, pool[n].start / 0x1000;
    forall p: nat | lo <= p < hi ensures !InSome(pool, p * 0x1000) {
      GapIsOffPool(pool, n, p * 0x1000);
    }
    LargeStaysOffPool(m0, m1, pdpt, pool, lo, hi);
  }

  // ---------------------------------------------------------------------------------------
  // Attributes of pages

  /** Every range that touches page q asks for these flags. */
  ghost predicate PageFlags(s: seq<MemRange>, q: nat, flags: nat) {
    forall j :: 0 <= j < |s| && Touches(s[j], q) ==> PteFlags(s[j].uefiAttr) == flags
  }

  /** Every range that touches page q is write-back. */
  ghost predicate AllWriteBack(s: seq<MemRange>, q: nat) {
    forall j :: 0 <= j < |s| && Touches(s[j], q) ==> WriteBack(s[j].uefiAttr)
  }

  /** No range that touches page q is write-back; all can be written through, or none can. */
  ghost predicate Uniform(s: seq<MemRange>, q: nat, through: bool) {
    forall j :: 0 <= j < |s| && Touches(s[j], q) ==>
      !WriteBack(s[j].uefiAttr) && (WriteThrough(s[j].uefiAttr) <==> through)
  }

  function FlagsFor(through: bool): nat {
    if through then PTE_WT else PTE_CD
  }

  lemma UniformIff(s: seq<MemRange>, q: nat, through: bool)
    ensures Uniform(s, q, through) <==> PageFlags(s, q, FlagsFor(through))
    ensures AllWriteBack(s, q) <==> PageFlags(s, q, 0)
  {
    hide WriteBack, WriteThrough, PteFlags, Touches;
    forall j | 0 <= j < |s|
      ensures PteFlags(s[j].uefiAttr) == 0 <==> WriteBack(s[j].uefiAttr)
      ensures PteFlags(s[j].uefiAttr) == FlagsFor(through)
              <==> !WriteBack(s[j].uefiAttr) && (WriteThrough(s[j].uefiAttr) <==> through)
    {
      PteFlagsIff(s[j].uefiAttr);
    }
  }

  lemma TouchesByte(r: MemRange, q: nat) returns (a: nat)
    requires Touches(r, q)
    ensures InRange(r, a) && q * 0x1000 <= a < (q + 1) * 0x1000
  {
    a := if r.start > q * 0x1000 then r.start else q * 0x1000;
  }

  /** Splitting ranges changes neither which pages are touched nor what flags they get. */
  lemma TouchedLater(s: seq<MemRange>, t: seq<MemRange>, q: nat)
    requires Refines(t, s)
    ensures Touched(t, q) <==> Touched(s, q)
  {
    if Touched(s, q) {
      var k :| 0 <= k < |s| && Touches(s[k], q);
      var a := TouchesByte(s[k], q);
      assert Covers(s, a, s[k].uefiAttr);
      var j :| 0 <= j < |t| && InRange(t[j], a);
      assert Touches(t[j], q);
    }
    if Touched(t, q) {
      var j :| 0 <= j < |t| && Touches(t[j], q);
      var k := InsideTouches(s, t[j], q);
    }
  }

  lemma InsideTouches(s: seq<MemRange>, r: MemRange, q: nat) returns (k: nat)
    requires InsideSome(r, s) && Touches(r, q)
    ensures k < |s| && Inside(r, s[k]) && Touches(s[k], q)
  {
    k :| 0 <= k < |s| && Inside(r, s[k]);
  }

  lemma PageFlagsLater(s: seq<MemRange>, t: seq<MemRange>, q: nat, flags: nat)
    requires Refines(t, s)
    ensures PageFlags(t, q, flags) <==> PageFlags(s, q, flags)
  {
    hide PteFlags;
    if PageFlags(t, q, flags) {
      forall k | 0 <= k < |s| && Touches(s[k], q) ensures PteFlags(s[k].uefiAttr) == flags {
        var a := TouchesByte(s[k], q);
        assert Covers(s, a, s[k].uefiAttr);
        var j :| 0 <= j < |t| && InRange(t[j], a) && t[j].uefiAttr == s[k].uefiAttr;
        assert Touches(t[j], q);
      }
    }
    if PageFlags(s, q, flags) {
      forall j | 0 <= j < |t| && Touches(t[j], q) ensures PteFlags(t[j].uefiAttr) == flags {
        var k := InsideTouches(s, t[j], q);
      }
    }
  }

  // ---------------------------------------------------------------------------------------
  // The interval that the second pass maps for a range

  function AttrLen(r: MemRange): nat {
    var start := r.start;
    var len := if r.len >= XM32_MAX_ADDR - start then (XM32_MAX_ADDR - start) % XM32_MAX_ADDR else r.len;
    var len' := (len + start % 0x1000) % XM32_MAX_ADDR;
    if len' % 0x1000 == 0 then len' else (len' + 0xfff) % XM32_MAX_ADDR / 0x1000 * 0x1000
  }

  /** The interval covers exactly the pages that the range touches. */
  lemma AttrInterval(r: MemRange)
    requires RangeOk(r) && r.start < XM32_MAX_ADDR
    ensures var start, len := RoundDown(r.start), AttrLen(r);
            && start % 0x1000 == 0 && len % 0x1000 == 0 && start + len <= XM32_MAX_ADDR && len < XM32_MAX_ADDR
            && forall q: nat :: q < 0x10_0000 ==>
                 (start / 0x1000 <= q < (start + len) / 0x1000 <==> Touches(r, q))
  {
    hide Touches;
    AttrEnd(r);
    var start, len := RoundDown(r.start), AttrLen(r);
    forall q: nat | q < 0x10_0000
      ensures start / 0x1000 <= q < (start + len) / 0x1000 <==> Touches(r, q)
    {
      TouchesMeans(r, q);
    }
  }

  lemma TouchesMeans(r: MemRange, q: nat)
    requires r.len > 0
    ensures Touches(r, q) <==> r.start / 0x1000 <= q < (MemMap.End(r) + 0xfff) / 0x1000
  {
  }

  lemma AttrEnd(r: MemRange)
    requires RangeOk(r) && r.start < XM32_MAX_ADDR
    ensures var start, len := RoundDown(r.start), AttrLen(r);
            && start % 0x1000 == 0 && len % 0x1000 == 0 && len < XM32_MAX_ADDR
            && start + len == (if RoundUp(MemMap.End(r)) > XM32_MAX_ADDR then XM32_MAX_ADDR else RoundUp(MemMap.End(r)))
  {
    hide RoundUp, RoundDown, AttrLen;
    var k, o := r.start / 0x1000, r.start % 0x1000;
    AlignedStart(r.start, k, o);
    if r.len >= XM32_MAX_ADDR - r.start {
      ClippedLen(r, k, o);
      Rounded(MemMap.End(r));
    } else {
      RoundUpShift(k, r.len + o);
      RoundUpBelow(r.len + o, 0x10_0000 - k);
      WholeLen(r, k, o);
    }
  }

  lemma AlignedStart(start: nat, k: nat, o: nat)
    requires k == start / 0x1000 && o == start % 0x1000
    ensures RoundDown(start) == k * 0x1000 && start == k * 0x1000 + o
  {
  }

  lemma RoundUpShift(k: nat, n: nat)
    ensures RoundUp(k * 0x1000 + n) == k * 0x1000 + RoundUp(n)
  {
  }

  lemma RoundUpBelow(n: nat, k: int)
    requires n <= k * 0x1000
    ensures RoundUp(n) <= k * 0x1000 && RoundUp(n) % 0x1000 == 0
  {
  }

  lemma ClippedLen(r: MemRange, k: nat, o: nat)
    requires RangeOk(r) && r.start < XM32_MAX_ADDR && r.len >= XM32_MAX_ADDR - r.start
    requires r.start == k * 0x1000 + o && o == r.start % 0x1000
    ensures AttrLen(r) == XM32_MAX_ADDR - k * 0x1000 && 0 < k <= 0x10_0000
  {
    assert r.start >= BMEM_MAX_ADDR;
    var n := XM32_MAX_ADDR - r.start;
    MultipleMod(0, XM32_MAX_ADDR, n);
    MultipleMod(0, XM32_MAX_ADDR, n + o);
    MultipleMod(0x10_0000 - k, 0x1000, 0);
  }

  lemma WholeLen(r: MemRange, k: nat, o: nat)
    requires RangeOk(r) && r.start < XM32_MAX_ADDR && r.len < XM32_MAX_ADDR - r.start
    requires r.start == k * 0x1000 + o && o == r.start % 0x1000
    requires RoundUp(r.len + o) <= (0x10_0000 - k) * 0x1000
    ensures AttrLen(r) == RoundUp(r.len + o) < XM32_MAX_ADDR
  {
    var n := r.len + o;
    if k == 0 {
      assert n <= BMEM_MAX_ADDR;
    }
    RoundUpBounds(n);
    hide RoundUp;
    RoundUpBelow(n, 0x10_0000 - k);
    if k == 0 {
      RoundUpBelow(n, 0x100);
    }
    RoundedLen(n);
    MultipleMod(0, XM32_MAX_ADDR, n);
  }

  lemma RoundUpBounds(n: nat)
    ensures n <= RoundUp(n) < n + 0x1000
  {
  }

  /** The source's rounding of a length, in 32 bits. */
  lemma RoundedLen(n: nat)
    requires RoundUp(n) < XM32_MAX_ADDR
    ensures RoundUp(n) == if n % 0x1000 == 0 then n else (n + 0xfff) % XM32_MAX_ADDR / 0x1000 * 0x1000
  {
    var q, r := n / 0x1000, n % 0x1000;
    if r == 0 {
      MultipleMod(q, 0x1000, 0xfff);
    } else {
      MultipleMod(q + 1, 0x1000, r - 1);
      MultipleMod(0, XM32_MAX_ADDR, n + 0xfff);
    }
  }
}

/** How the page tables and the free list of virtual addresses agree (stage2/mem.c:473-544,
    with 240-308): live blocks translate to their memory, free pages are absent, and all other
    pages keep the translation they had when the pool was set up. */
module VaTranslation {
  import opened Machine
  import opened PageTable
  import opened VaPool

  ghost predicate LiveMapped(mem: Memory, pdpt: nat, live: Live) {
    forall v, p: nat :: v in live && p < 0x10_0000 && In(live[v].range, p * 0x1000) ==>
      WalkPage(mem, pdpt, p) == BlockPage(live[v], p)
  }

  /** The translation of page p of a live block. */
  function BlockPage(b: Block, p: nat): Walk
    requires b.range.start <= p * 0x1000
  {
    Consecutive(b.pa - b.pa % 0x1000, p - b.range.start / 0x1000, Attr(b.flags))
  }

  ghost predicate FreeAbsent(mem: Memory, pdpt: nat, free: seq<VaRange>) {
    forall p: nat :: p < 0x10_0000 && InSome(free, p * 0x1000) ==> WalkPage(mem, pdpt, p) == Absent
  }

  ghost predicate RestAsIn(mem: Memory, base: Memory, pdpt: nat, pool: seq<VaRange>) {
    forall p: nat :: p < 0x10_0000 && !InSome(pool, p * 0x1000) ==> WalkPage(mem, pdpt, p) == WalkPage(base, pdpt, p)
  }

  /** No page of slot k is in the pool. */
  ghost predicate SlotOffPool(pool: seq<VaRange>, k: nat) {
    forall p: nat :: p / 512 == k ==> !InSome(pool, p * 0x1000)
  }

  predicate SlotIn(r: VaRange, k: nat) {
    r.start <= k * 0x20_0000 && k * 0x20_0000 + 0x20_0000 <= End(r)
  }

  ghost predicate SlotInLive(live: Live, k: nat) {
    exists v :: v in live && SlotIn(live[v].range, k)
  }

  /** A large page lies outside the pool or wholly inside one live block. */
  ghost predicate LargeWhole(mem: Memory, pdpt: nat, pool: seq<VaRange>, live: Live) {
    forall k: nat :: k < 2048 && Large(Pde(mem, pdpt, k)) ==> SlotOffPool(pool, k) || SlotInLive(live, k)
  }

  ghost predicate Translates(mem: Memory, base: Memory, pdpt: nat, pool: seq<VaRange>, free: seq<VaRange>, live: Live) {
    && LiveMapped(mem, pdpt, live) && FreeAbsent(mem, pdpt, free)
    && RestAsIn(mem, base, pdpt, pool) && LargeWhole(mem, pdpt, pool, live)
  }

  // ---------------------------------------------------------------------------------------
  // Interval arithmetic

  lemma PageIn(r: VaRange, p: nat)
    requires Aligned(r)
    ensures In(r, p * 0x1000) <==> r.start / 0x1000 <= p < End(r) / 0x1000
  {
  }

  lemma InSomeOfLive(pool: seq<VaRange>, free: seq<VaRange>, live: Live, v: nat, a: int)
    requires Partition(pool, free, live) && v in live && In(live[v].range, a)
    ensures InSome(pool, a)
  {
    hide PoolOk, FreeOk, LiveOk, FreeApartLive;
    assert InLive(live, a);
  }

  lemma InSomeOfFree(pool: seq<VaRange>, free: seq<VaRange>, live: Live, a: int)
    requires Partition(pool, free, live) && InSome(free, a)
    ensures InSome(pool, a)
  {
    hide PoolOk, FreeOk, LiveOk, FreeApartLive;
  }

  /** An address is in at most one live block, and in none if it is free. */
  lemma LiveUnique(pool: seq<VaRange>, free: seq<VaRange>, live: Live, v: nat, w: nat, a: int)
    requires Partition(pool, free, live) && v in live && In(live[v].range, a)
    ensures !InSome(free, a)
    ensures w in live && In(live[w].range, a) ==> w == v
  {
    hide PoolOk, FreeOk, Cover;
    forall i | 0 <= i < |free| ensures !In(free[i], a) {
      assert Apart(free[i], live[v].range);
    }
    if w in live && w != v {
      assert Apart(live[v].range, live[w].range);
    }
  }

  // ---------------------------------------------------------------------------------------
  // mem_va_map

  lemma MapKeepsLive(m0: Memory, m1: Memory, pdpt: nat, pool: seq<VaRange>, free: seq<VaRange>, live: Live, b: Block)
    requires Partition(pool, free, live) && LiveMapped(m0, pdpt, live) && BlockOk(b)
    requires forall a: int :: In(b.range, a) ==> InSome(free, a)
    requires MapsTo(m0, m1, pdpt, b.range.start / 0x1000, End(b.range) / 0x1000, b.pa - b.pa % 0x1000, Attr(b.flags))
    ensures LiveMapped(m1, pdpt, live[b.range.start := b])
  {
    hide Partition, WalkPage, Consecutive, Attr, Span;
    var l := live[b.range.start := b];
    forall v, p: nat | v in l && p < 0x10_0000 && In(l[v].range, p * 0x1000)
      ensures WalkPage(m1, pdpt, p) == BlockPage(l[v], p)
    {
      PageIn(b.range, p);
      if v != b.range.start {
        LiveUnique(pool, free, live, v, v, p * 0x1000);
      }
    }
  }

  lemma MapKeepsFree(m0: Memory, m1: Memory, pdpt: nat, free: seq<VaRange>, f: seq<VaRange>, b: VaRange, pstart: nat,
                     attr: nat)
    requires FreeAbsent(m0, pdpt, free) && Aligned(b)
    requires forall a: int :: InSome(f, a) ==> InSome(free, a) && !In(b, a)
    requires MapsTo(m0, m1, pdpt, b.start / 0x1000, End(b) / 0x1000, pstart, attr)
    ensures FreeAbsent(m1, pdpt, f)
  {
    hide WalkPage, Consecutive, InSome;
    forall p: nat | p < 0x10_0000 && InSome(f, p * 0x1000) ensures WalkPage(m1, pdpt, p) == Absent {
      PageIn(b, p);
    }
  }

  lemma MapKeepsRest(m0: Memory, m1: Memory, base: Memory, pdpt: nat, pool: seq<VaRange>, b: VaRange, pstart: nat,
                     attr: nat)
    requires RestAsIn(m0, base, pdpt, pool) && Aligned(b)
    requires forall a: int :: In(b, a) ==> InSome(pool, a)
    requires MapsTo(m0, m1, pdpt, b.start / 0x1000, End(b) / 0x1000, pstart, attr)
    ensures RestAsIn(m1, base, pdpt, pool)
  {
    hide WalkPage, Consecutive, InSome;
    forall p: nat | p < 0x10_0000 && !InSome(pool, p * 0x1000)
      ensures WalkPage(m1, pdpt, p) == WalkPage(base, pdpt, p)
    {
      PageIn(b, p);
    }
  }

  lemma MapKeepsLarge(m0: Memory, m1: Memory, pdpt: nat, pool: seq<VaRange>, live: Live, b: Block)
    requires LargeWhole(m0, pdpt, pool, live) && Aligned(b.range) && b.range.start !in live
    requires LargeOnlyIn(m0, m1, pdpt, b.range.start / 0x1000, End(b.range) / 0x1000)
    ensures LargeWhole(m1, pdpt, pool, live[b.range.start := b])
  {
    hide Pde, Large, SlotOffPool;
    var l := live[b.range.start := b];
    forall k: nat | k < 2048 && Large(Pde(m1, pdpt, k)) ensures SlotOffPool(pool, k) || SlotInLive(l, k) {
      if Large(Pde(m0, pdpt, k)) {
        if SlotInLive(live, k) {
          var v :| v in live && SlotIn(live[v].range, k);
          assert SlotIn(l[v].range, k);
        }
      } else {
        SlotPages(b.range, k);
        assert SlotIn(l[b.range.start].range, k);
      }
    }
  }

  lemma SlotPages(r: VaRange, k: nat)
    requires Aligned(r)
    ensures SlotIn(r, k) <==> r.start / 0x1000 <= 512 * k && 512 * k + 512 <= End(r) / 0x1000
  {
  }

  /** What is free after the block has been taken was free before and is not in the block. */
  lemma TakenIsOut(pool: seq<VaRange>, free: seq<VaRange>, live: Live, b: Block, f: seq<VaRange>)
    requires Partition(pool, free, live) && Partition(pool, f, live[b.range.start := b])
    requires b.range.start !in live
    ensures forall a: int :: InSome(f, a) ==> InSome(free, a) && !In(b.range, a)
  {
    hide Partition, InSome;
    var l := live[b.range.start := b];
    assert l[b.range.start] == b;
    forall a: int | InSome(f, a) ensures InSome(free, a) && !In(b.range, a) {
      InSomeOfFree(pool, f, l, a);
      FreeIsNotLive(pool, f, l, a);
      PoolIsFreeOrLive(pool, free, live, a);
      if InLive(live, a) {
        var v :| v in live && In(live[v].range, a);
        assert In(l[v].range, a);
      }
    }
  }

  lemma FreeIsNotLive(pool: seq<VaRange>, free: seq<VaRange>, live: Live, a: int)
    requires Partition(pool, free, live) && InSome(free, a)
    ensures !InLive(live, a)
  {
    hide Partition;
    forall v | v in live ensures !In(live[v].range, a) {
      if In(live[v].range, a) {
        LiveUnique(pool, free, live, v, v, a);
      }
    }
  }

  lemma PoolIsFreeOrLive(pool: seq<VaRange>, free: seq<VaRange>, live: Live, a: int)
    requires Partition(pool, free, live) && InSome(pool, a)
    ensures InSome(free, a) || InLive(live, a)
  {
    hide PoolOk, FreeOk, LiveOk, FreeApartLive;
  }

  /** Mapping a block taken from the free list keeps tables and lists in agreement. */
  lemma MapKeepsTranslation(m0: Memory, m1: Memory, base: Memory, pdpt: nat,
                            pool: seq<VaRange>, free: seq<VaRange>, live: Live, b: Block)
    requires BlockOk(b)
    requires MapsTo(m0, m1, pdpt, b.range.start / 0x1000, End(b.range) / 0x1000, b.pa - b.pa % 0x1000, Attr(b.flags))
    requires LargeOnlyIn(m0, m1, pdpt, b.range.start / 0x1000, End(b.range) / 0x1000)
    requires var t := Take(free, b.range.len); t.Taken? && b.range.start == t.start
    requires Partition(pool, free, live) && Translates(m0, base, pdpt, pool, free, live)
    ensures var f := Take(free, b.range.len).free'; var l := live[b.range.start := b];
            Partition(pool, f, l) && Translates(m1, base, pdpt, pool, f, l) && b.range.start !in live
  {
    hide Partition, LiveMapped, FreeAbsent, RestAsIn, LargeWhole, MapsTo, LargeOnlyIn, InSome, Attr, Take, Span;
    var f := Take(free, b.range.len).free';
    TakeKeepsPartition(pool, free, live, b);
    TakenIsOut(pool, free, live, b, f);
    forall a: int | InSome(free, a) ensures InSome(pool, a) {
      InSomeOfFree(pool, free, live, a);
    }
    MapKeepsLive(m0, m1, pdpt, pool, free, live, b);
    MapKeepsFree(m0, m1, pdpt, free, f, b.range, b.pa - b.pa % 0x1000, Attr(b.flags));
    MapKeepsRest(m0, m1, base, pdpt, pool, b.range, b.pa - b.pa % 0x1000, Attr(b.flags));
    MapKeepsLarge(m0, m1, pdpt, pool, live, b);
  }

  // ---------------------------------------------------------------------------------------
  // mem_va_unmap

  /** In a live block every large page can be removed whole: the skip in do_va_unmap is never
      taken there. */
  lemma LiveIsRemovable(m: Memory, pdpt: nat, pool: seq<VaRange>, free: seq<VaRange>, live: Live, v: nat, p: nat)
    requires Partition(pool, free, live) && LargeWhole(m, pdpt, pool, live)
    requires v in live && p < 0x10_0000 && In(live[v].range, p * 0x1000)
    ensures Removable(m, pdpt, p / 512, live[v].range.start / 0x1000, End(live[v].range) / 0x1000)
  {
    hide Partition, Pde, Large;
    var k := p / 512;
    if Large(Pde(m, pdpt, k)) {
      InSomeOfLive(pool, free, live, v, p * 0x1000);
      assert !SlotOffPool(pool, k);
      var w :| w in live && SlotIn(live[w].range, k);
      LiveUnique(pool, free, live, v, w, p * 0x1000);
      LiveAligned(pool, free, live, v);
      SlotPages(live[v].range, k);
    }
  }

  lemma LiveAligned(pool: seq<VaRange>, free: seq<VaRange>, live: Live, v: nat)
    requires Partition(pool, free, live) && v in live
    ensures Aligned(live[v].range) && live[v].range.start == v
  {
  }

  /** do_va_unmap on a live block: exactly its pages become absent. */
  lemma UnmapIsExact(m0: Memory, m1: Memory, pdpt: nat, pool: seq<VaRange>, free: seq<VaRange>, live: Live, v: nat)
    requires Partition(pool, free, live) && LargeWhole(m0, pdpt, pool, live) && v in live
    requires var lo, hi := live[v].range.start / 0x1000, End(live[v].range) / 0x1000;
             UnmappedUpTo(m0, m1, pdpt, lo, hi, hi)
    ensures UnmapsTo(m0, m1, pdpt, live[v].range.start / 0x1000, End(live[v].range) / 0x1000)
  {
    hide Partition, WalkPage, LargeWhole, Removable, Pde;
    var lo, hi := live[v].range.start / 0x1000, End(live[v].range) / 0x1000;
    LiveAligned(pool, free, live, v);
    forall p: nat | p < 0x10_0000 && lo <= p < hi ensures Removable(m0, pdpt, p / 512, lo, hi) {
      PageIn(live[v].range, p);
      LiveIsRemovable(m0, pdpt, pool, free, live, v, p);
    }
  }

  lemma UnmapKeepsLive(m0: Memory, m1: Memory, pdpt: nat, pool: seq<VaRange>, free: seq<VaRange>, live: Live, v: nat)
    requires Partition(pool, free, live) && LiveMapped(m0, pdpt, live) && v in live
    requires UnmapsTo(m0, m1, pdpt, live[v].range.start / 0x1000, End(live[v].range) / 0x1000)
    ensures LiveMapped(m1, pdpt, live - {v})
  {
    hide Partition, WalkPage, BlockPage;
    LiveAligned(pool, free, live, v);
    forall w, p: nat | w in live - {v} && p < 0x10_0000 && In((live - {v})[w].range, p * 0x1000)
      ensures WalkPage(m1, pdpt, p) == BlockPage((live - {v})[w], p)
    {
      PageIn(live[v].range, p);
      LiveUnique(pool, free, live, w, v, p * 0x1000);
    }
  }

  lemma UnmapKeepsFree(m0: Memory, m1: Memory, pdpt: nat, pool: seq<VaRange>, free: seq<VaRange>, live: Live, v: nat,
                       f: seq<VaRange>)
    requires v in live && UnmapsTo(m0, m1, pdpt, live[v].range.start / 0x1000, End(live[v].range) / 0x1000)
    requires FreeAbsent(m0, pdpt, free)
    requires Partition(pool, free, live) && Partition(pool, f, live - {v})
    ensures FreeAbsent(m1, pdpt, f)
  {
    hide Partition, WalkPage, InSome;
    LiveAligned(pool, free, live, v);
    forall p: nat | p < 0x10_0000 && InSome(f, p * 0x1000) ensures WalkPage(m1, pdpt, p) == Absent {
      PageIn(live[v].range, p);
      GivenIsBlock(pool, free, live, v, f, p * 0x1000);
    }
  }

  /** What is free after the unmapping was free before or is in the block. */
  lemma GivenIsBlock(pool: seq<VaRange>, free: seq<VaRange>, live: Live, v: nat, f: seq<VaRange>, a: int)
    requires Partition(pool, free, live) && Partition(pool, f, live - {v}) && v in live && InSome(f, a)
    ensures InSome(free, a) || In(live[v].range, a)
  {
    hide Partition, InSome;
    InSomeOfFree(pool, f, live - {v}, a);
    FreeIsNotLive(pool, f, live - {v}, a);
    PoolIsFreeOrLive(pool, free, live, a);
    assert forall w :: w in live && w != v ==> w in live - {v} && (live - {v})[w] == live[w];
    if InLive(live, a) {
      var w :| w in live && In(live[w].range, a);
    }
  }

  lemma UnmapKeepsRest(m0: Memory, m1: Memory, base: Memory, pdpt: nat, pool: seq<VaRange>, free: seq<VaRange>,
                       live: Live, v: nat)
    requires Partition(pool, free, live) && v in live && RestAsIn(m0, base, pdpt, pool)
    requires UnmapsTo(m0, m1, pdpt, live[v].range.start / 0x1000, End(live[v].range) / 0x1000)
    ensures RestAsIn(m1, base, pdpt, pool)
  {
    hide Partition, WalkPage, InSome;
    LiveAligned(pool, free, live, v);
    forall p: nat | p < 0x10_0000 && !InSome(pool, p * 0x1000)
      ensures WalkPage(m1, pdpt, p) == WalkPage(base, pdpt, p)
    {
      PageIn(live[v].range, p);
      if In(live[v].range, p * 0x1000) {
        InSomeOfLive(pool, free, live, v, p * 0x1000);
      }
    }
  }

  lemma LargeIsMapped(m: Memory, pdpt: nat, owner: Owner, p: nat)
    requires Wf(m, pdpt, owner) && p < 0x10_0000 && Large(Pde(m, pdpt, p / 512))
    ensures WalkPage(m, pdpt, p) != Absent
  {
    WalkIsPde(m, pdpt, owner, p);
    PdeIsBlankOrLarge(m, pdpt, owner, p / 512);
  }

  lemma UnmapKeepsLarge(m0: Memory, m1: Memory, pdpt: nat, owner: Owner, pool: seq<VaRange>, live: Live, v: nat)
    requires LargeWhole(m0, pdpt, pool, live) && v in live && Wf(m1, pdpt, owner) && Aligned(live[v].range)
    requires UnmapsTo(m0, m1, pdpt, live[v].range.start / 0x1000, End(live[v].range) / 0x1000)
    requires forall k: nat :: k < 2048 && Large(Pde(m1, pdpt, k)) ==> Large(Pde(m0, pdpt, k))
    ensures LargeWhole(m1, pdpt, pool, live - {v})
  {
    hide Wf, WalkPage, Pde, Large, SlotOffPool;
    forall k: nat | k < 2048 && Large(Pde(m1, pdpt, k)) ensures SlotOffPool(pool, k) || SlotInLive(live - {v}, k) {
      if !SlotOffPool(pool, k) {
        var w :| w in live && SlotIn(live[w].range, k);
        if w == v {
          SlotPages(live[v].range, k);
          LargeIsMapped(m1, pdpt, owner, 512 * k);
        } else {
          assert SlotIn((live - {v})[w].range, k);
        }
      }
    }
  }

  /** Unmapping a live block, and giving it back, keeps tables and lists in agreement. */
  lemma UnmapKeepsTranslation(m0: Memory, m1: Memory, base: Memory, pdpt: nat, owner: Owner,
                              pool: seq<VaRange>, free: seq<VaRange>, live: Live, v: nat, f: seq<VaRange>)
    requires v in live
    requires var lo, hi := live[v].range.start / 0x1000, End(live[v].range) / 0x1000;
             UnmappedUpTo(m0, m1, pdpt, lo, hi, hi)
    requires Wf(m1, pdpt, owner) && Translates(m0, base, pdpt, pool, free, live)
    requires Partition(pool, free, live) && Partition(pool, f, live - {v})
    ensures Translates(m1, base, pdpt, pool, f, live - {v})
  {
    hide Partition, LiveMapped, FreeAbsent, RestAsIn, LargeWhole, UnmapsTo, Wf, WalkPage, Removable;
    LiveAligned(pool, free, live, v);
    UnmapIsExact(m0, m1, pdpt, pool, free, live, v);
    UnmapKeepsLive(m0, m1, pdpt, pool, free, live, v);
    UnmapKeepsFree(m0, m1, pdpt, pool, free, live, v, f);
    UnmapKeepsRest(m0, m1, base, pdpt, pool, free, live, v);
    UnmapKeepsLarge(m0, m1, pdpt, owner, pool, live, v);
  }
}

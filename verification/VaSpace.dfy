/** mem_va_map and mem_va_unmap on memory (stage2/mem.c:469-544). */
module VaSpace {
  import opened Machine
  import opened PageTable
  import opened VaPool
  import opened VaTranslation
  import opened Reach
  import opened TableNeeds
  import MemMap
  import Paging
  import PhysMap
  import VaRuns

  // ---------------------------------------------------------------------------------------
  // The interval of a mapping, as computed on either side

  /** mem_va_map's size, computed modulo 2^64, is the span of the pages touched. */
  lemma SpanComputed(pa: uint64, sz: uint32)
    requires sz > 0
    ensures (FrameOf((pa + sz + 0xfff) % TWO64) - FrameOf(pa)) % TWO64 == Span(pa, sz)
    ensures Span(pa, sz) > 0 && FrameOf(pa) == pa - pa % 0x1000
  {
    var q, r := pa / 0x1000, pa % 0x1000;
    var n := (r + sz + 0xfff) / 0x1000;
    var x := pa + sz + 0xfff;
    assert pa == q * 0x1000 + r && x / 0x1000 == q + n;
    if x < TWO64 {
    } else {
      assert x % TWO64 == x - TWO64;
      assert (x - TWO64) / 0x1000 == q + n - TWO64 / 0x1000;
    }
  }

  /** From the pointer that mem_va_map returned and the size, mem_va_unmap computes the very
      interval that was mapped, also when it ends at 4 GiB and its end wraps around to 0. */
  lemma UnmapRecomputes(b: Block)
    requires BlockOk(b) && b.sz < XM32_MAX_ADDR
    requires b.range.start > 0 && End(b.range) <= XM32_MAX_ADDR
    ensures var va := b.range.start + b.pa % 0x1000;
            var vend := FrameOf((va + b.sz + 0xfff) % XM32_MAX_ADDR);
            && va < XM32_MAX_ADDR && FrameOf(va) == b.range.start
            && vend == End(b.range) % XM32_MAX_ADDR
            && (vend - b.range.start) % XM32_MAX_ADDR == b.range.len
  {
    hide FrameOf;
    var v, o := b.range.start, b.pa % 0x1000;
    var q, n := v / 0x1000, b.range.len / 0x1000;
    SpanPages(o, b.sz, n);
    OffsetFrame(q, o);
    PageSum(q, n, v + o + b.sz + 0xfff, o + b.sz + 0xfff);
    WrapFrame(v + o + b.sz + 0xfff, q + n);
    WrapBack(v, b.range.len);
  }

  lemma SpanPages(o: nat, sz: nat, n: nat)
    requires o < 0x1000 && sz > 0 && n * 0x1000 == (o + sz + 0xfff) / 0x1000 * 0x1000
    ensures n == (o + sz + 0xfff) / 0x1000 && n > 0
  {
  }

  lemma OffsetFrame(q: nat, o: nat)
    requires o < 0x1000
    ensures FrameOf(q * 0x1000 + o) == q * 0x1000
  {
  }

  lemma PageSum(q: nat, n: nat, x: nat, y: nat)
    requires x == q * 0x1000 + y && y / 0x1000 == n
    ensures x / 0x1000 == q + n
  {
  }

  lemma WrapFrame(x: nat, k: nat)
    requires x / 0x1000 == k && k <= 0x10_0000
    ensures FrameOf(x % XM32_MAX_ADDR) == k * 0x1000 % XM32_MAX_ADDR
  {
    if k == 0x10_0000 {
      assert x - XM32_MAX_ADDR < 0x1000;
    }
  }

  lemma WrapBack(v: nat, len: nat)
    requires 0 < v && v + len <= XM32_MAX_ADDR
    ensures ((v + len) % XM32_MAX_ADDR - v) % XM32_MAX_ADDR == len
  {
  }

  // ---------------------------------------------------------------------------------------

  /** Where GiveRange put a block. */
  datatype Place = Merged | NewEntry | NoEntryLeft | Nowhere

  lemma InsertedSeq(s: seq<VaRange>, i: nat, x: VaRange, t: seq<VaRange>)
    requires i <= |s| && |t| == |s| + 1 && t[i] == x
    requires forall k :: 0 <= k < i ==> t[k] == s[k]
    requires forall k :: i < k < |t| ==> t[k] == s[k - 1]
    ensures t == s[..i] + [x] + s[i..]
  {
  }

  /** The pages of a mapping are 4 GiB or more, or no free range can hold them. */
  ghost predicate Unserved(free: seq<VaRange>, pa: nat, sz: nat)
    requires sz > 0
  {
    Span(pa, sz) >= XM32_MAX_ADDR || forall i :: 0 <= i < |free| ==> free[i].len < Span(pa, sz)
  }

  /** The pages of a mapping have been cut off the last range that can hold them, and va is where
      its first byte is; free1 is left. */
  ghost predicate ServedAt(free: seq<VaRange>, pa: nat, sz: nat, va: int, free1: seq<VaRange>) {
    CutFromSome(free, Span(pa, sz), va - pa % 0x1000, free1)
  }

  lemma NotServed(free: seq<VaRange>, pa: nat, sz: nat)
    requires sz > 0
    ensures Span(pa, sz) >= XM32_MAX_ADDR || Take(free, Span(pa, sz)).NoSpace? <==> Unserved(free, pa, sz)
  {
    hide Take, Span;
    TakeIff(free, Span(pa, sz));
  }

  lemma IsServed(free: seq<VaRange>, pa: nat, sz: nat, va: int, free1: seq<VaRange>)
    requires var t := Take(free, Span(pa, sz)); t.Taken? && va == t.start + pa % 0x1000 && free1 == t.free'
    ensures ServedAt(free, pa, sz, va, free1)
  {
    hide Take, Span, CutFromSome;
    TakeIff(free, Span(pa, sz));
    assert va - pa % 0x1000 == Take(free, Span(pa, sz)).start;
  }

  const VA_RANGE_SIZE := 8   // sizeof(va_range_t)

  class VaSpace {
    const pg: Paging.Paging
    const listAt: nat              // the address of unused_va_ranges
    const ranges: array<VaRange>   // unused_va_ranges, with room for max_unused_va_ranges
    var num: nat                   // num_unused_va_ranges
    ghost const pool: seq<VaRange>
    ghost const base: Memory       // memory when the pool was set up
    ghost var live: Live

    ghost function Free(): seq<VaRange>
      reads this, ranges
    {
      if num <= ranges.Length then ranges[..num] else []
    }

    ghost predicate Valid()
      reads this, ranges, pg, pg.mm, pg.mm.ranges
    {
      && num <= ranges.Length && pg.Valid() && ListsApart()
      && Partition(pool, ranges[..num], live)
      && Translates(pg.mem, base, pg.pdpt, pool, ranges[..num], live)
    }

    ghost function ListEnd(): nat {
      listAt + ranges.Length * VA_RANGE_SIZE
    }

    ghost function MapEnd(): nat {
      pg.mm.at + pg.mm.ranges.Length * PhysMap.RANGE_SIZE
    }

    /** The list of unused ranges, the memory map and the page tables do not overlap, and the
        allocator will hand out no byte of the lists. */
    ghost predicate ListsApart()
      reads this, pg, pg.mm, pg.mm.ranges
    {
      && Kept(pg.mm.View(), pg.pdpt, pg.owner, listAt, ListEnd())
      && Kept(pg.mm.View(), pg.pdpt, pg.owner, pg.mm.at, MapEnd())
      && (ListEnd() <= pg.mm.at || MapEnd() <= listAt)
    }

    /** The code reaches its page tables, the list of unused ranges and the memory map, and will
        reach whatever tables it may yet allocate, by their physical addresses. */
    ghost predicate Reachable()
      reads this, pg, pg.mm, pg.mm.ranges
    {
      AllSafe(base, pg.pdpt, pool, pg.owner, pg.mm.View(), listAt, ListEnd(), pg.mm.at, MapEnd())
    }

    constructor (pg: Paging.Paging, listAt: nat, ranges: array<VaRange>, num: nat, ghost base: Memory)
      requires num <= ranges.Length && pg.Valid()
      requires var listEnd, mapEnd := listAt + ranges.Length * VA_RANGE_SIZE,
                                      pg.mm.at + pg.mm.ranges.Length * PhysMap.RANGE_SIZE;
               && Kept(pg.mm.View(), pg.pdpt, pg.owner, listAt, listEnd)
               && Kept(pg.mm.View(), pg.pdpt, pg.owner, pg.mm.at, mapEnd)
               && (listEnd <= pg.mm.at || mapEnd <= listAt)
      requires Partition(ranges[..num], ranges[..num], map[])
      requires Translates(pg.mem, base, pg.pdpt, ranges[..num], ranges[..num], map[])
      ensures this.pg == pg && this.listAt == listAt && this.ranges == ranges && this.num == num && this.base == base
      ensures pool == ranges[..num] && live == map[] && Valid()
    {
      hide Partition, Translates, Kept, Wf, MemMap.MapOk, Paging.TablesReserved;
      this.pg := pg;
      this.listAt := listAt;
      this.ranges := ranges;
      this.num := num;
      this.pool := ranges[..num];
      this.base := base;
      this.live := map[];
    }

    /** Takes the top span bytes of the last range that has so many. */
    method TakeRange(span: nat) returns (found: bool, vstart: nat)
      requires num <= ranges.Length
      modifies ranges
      ensures found <==> !NoneHolds(old(Free()), span)
      ensures found ==> CutFromSome(old(Free()), span, vstart, Free())
      ensures match Take(old(Free()), span)
              case NoSpace => !found && Free() == old(Free())
              case Taken(_, v, f) => found && vstart == v && Free() == f
    {
      ghost var s := Free();
      TakeIff(s, span);
      TakeIndexIsLast(s, num, span);
      hide NoneHolds, CutFromSome;
      var i: nat := num;
      while i != 0
        invariant i <= num && Free() == s
        invariant TakeIndex(s, i, span) == TakeIndex(s, num, span)
        decreases i
      {
        i := i - 1;
        var vrsz := ranges[i].len;
        if vrsz >= span {
          vrsz := vrsz - span;
          ranges[i] := ranges[i].(len := vrsz);
          return true, ranges[i].start + vrsz;
        }
      }
      return false, 0;
    }

    /** Maps sz bytes of physical memory at pa and returns their virtual address: 0 for sz 0.
        The machine halts when no free range is large enough or no table can be allocated. Were
        a table or list not reachable, it would fault. */
    method MemVaMap(pa: uint64, sz: uint32, flags: nat) returns (r: Outcome, va: nat)
      requires Valid() && Reachable() && flags < 0x80
      modifies this`live, ranges, pg, pg.mm`num, pg.mm.ranges
      ensures sz == 0 ==> r == Done && va == 0 && live == old(live) && Free() == old(Free()) && pg.mem == old(pg.mem)
      ensures num == old(num) && pg.Valid() && ListsApart() && Reachable() && (r == Done ==> Valid())
      ensures Paging.Later(old(pg.mm.View()), pg.mm.View())
      ensures r == Done && sz > 0 ==>
                && Take(old(Free()), Span(pa, sz)).Taken?
                && Free() == Take(old(Free()), Span(pa, sz)).free'
                && var v := Take(old(Free()), Span(pa, sz)).start;
                   && v !in old(live) && va == v + pa % 0x1000
                   && live == old(live)[v := Block(VaRange(v, Span(pa, sz)), pa, sz, flags)]
      ensures r == Done && sz > 0 ==> ServedAt(old(Free()), pa, sz, va, Free())
      ensures sz > 0 && Unserved(old(Free()), pa, sz) ==> r == Halted && Free() == old(Free()) && pg.mem == old(pg.mem)
      ensures r != Done ==> sz > 0 && (Unserved(old(Free()), pa, sz) || Paging.NoFrame(pg.mm))
    {
      hide Partition, Translates, Span, FrameOf, Take, Wf, MemMap.MapOk, Paging.TablesReserved, Paging.Later,
        Paging.NoFrame, AllSafe, Unserved, Kept, ServedAt, NoneHolds, CutFromSome;
      ghost var s := Free();
      Paging.LaterReflexive(pg.mm.View());
      va := 0;
      if sz == 0 {
        return Done, 0;
      }
      SpanComputed(pa, sz);
      var pend := FrameOf((pa + sz + 0xfff) % TWO64);
      var span := (pend - FrameOf(pa)) % TWO64;
      NotServed(s, pa, sz);
      if span >= XM32_MAX_ADDR {
        return Halted, 0;
      }
      var found, vstart := TakeRange(span);
      if !found {
        return Halted, 0;
      }
      r := MapTaken(Block(VaRange(vstart, span), pa, sz, flags), s);
      if r == Done {
        va := vstart + pa % 0x1000;
        IsServed(s, pa, sz, va, Free());
      }
    }

    /** Maps the block b that has been taken from the free list s. */
    method MapTaken(b: Block, ghost s: seq<VaRange>) returns (r: Outcome)
      requires num <= ranges.Length && pg.Valid() && ListsApart() && Reachable()
      requires Partition(pool, s, live) && Translates(pg.mem, base, pg.pdpt, pool, s, live)
      requires b.pa < TWO64 && b.sz > 0 && b.flags < 0x80 && b.range.len == Span(b.pa, b.sz) < XM32_MAX_ADDR
      requires Take(s, b.range.len).Taken? && b.range.start == Take(s, b.range.len).start
      requires Free() == Take(s, b.range.len).free'
      modifies this`live, pg, pg.mm`num, pg.mm.ranges
      ensures pg.Valid() && ListsApart() && Reachable() && Paging.Later(old(pg.mm.View()), pg.mm.View())
      ensures r == Done ==> Valid() && b.range.start !in old(live) && live == old(live)[b.range.start := b]
      ensures r != Done ==> Paging.NoFrame(pg.mm)
    {
      hide Partition, Translates, MapsTo, LargeOnlyIn, Attr, Span, Take, Wf, MemMap.MapOk, FrameOf,
        Paging.TablesReserved, Paging.Later, Paging.NoFrame, AllSafe, Paging.FramesFrom, Kept, PtsWithin, SpentOn,
        Stuck;
      ghost var m0, t0, o0 := pg.mem, pg.mm.View(), pg.owner;
      TakenBlockOk(pool, s, live, b);
      FrameIsBase(b.pa);
      SpanPositive(b);
      r := pg.DoVaMap(b.range.start, FrameOf(b.pa), b.range.len, b.flags);
      AllStaySafe(base, pg.pdpt, pool, t0, pg.mm.View(), o0, pg.owner, listAt, ListEnd(), pg.mm.at, MapEnd());
      StaysKept(t0, pg.mm.View(), pg.pdpt, o0, pg.owner, listAt, ListEnd());
      StaysKept(t0, pg.mm.View(), pg.pdpt, o0, pg.owner, pg.mm.at, MapEnd());
      if r == Done {
        MapKeepsTranslation(m0, pg.mem, base, pg.pdpt, pool, s, live, b);
        live := live[b.range.start := b];
      }
    }

    /** Moves the entries from i on up by one. */
    method OpenGap(i: nat)
      requires i <= num < ranges.Length
      modifies this`num, ranges
      ensures num == old(num) + 1
      ensures forall k :: 0 <= k < i ==> ranges[k] == old(ranges[k])
      ensures forall k :: i < k < num ==> ranges[k] == old(ranges[k - 1])
    {
      num := num + 1;
      var j := num;
      while j != i + 1
        invariant i + 1 <= j <= num == old(num) + 1
        invariant forall k :: 0 <= k < j && k < old(num) ==> ranges[k] == old(ranges[k])
        invariant forall k :: j <= k < num ==> ranges[k] == old(ranges[k - 1])
        decreases j
      {
        j := j - 1;
        ranges[j] := ranges[j - 1];
      }
    }

    /** Looks for a place for a block among the free ranges, from the last one down. */
    method GiveRange(vstart: nat, vend: nat, len: nat) returns (place: Place)
      requires num <= ranges.Length
      modifies this`num, ranges
      ensures num <= ranges.Length
      ensures match Give(old(Free()), old(num), ranges.Length, vstart, vend, len)
              case Given(f, inserted) => place == (if inserted then NewEntry else Merged) && Free() == f
              case Full => place == NoEntryLeft && Free() == old(Free())
              case FellOut => place == Nowhere && Free() == old(Free())
    {
      ghost var s := Free();
      var i: nat := num;
      while i != 0
        invariant i <= num == old(num) && Free() == s
        invariant Give(s, i, ranges.Length, vstart, vend, len) == Give(s, num, ranges.Length, vstart, vend, len)
        decreases i
      {
        i := i - 1;
        var vr := ranges[i];
        if vr.start == vend {
          ranges[i] := VaRange(vstart, vr.len + len);
          return Merged;
        }
        if End(vr) % XM32_MAX_ADDR == vstart {
          ranges[i] := vr.(len := vr.len + len);
          return Merged;
        }
        if vr.start < vstart {
          if num == ranges.Length {
            return NoEntryLeft;
          }
          OpenGap(i + 1);
          ranges[i + 1] := VaRange(vstart, len);
          InsertedSeq(s, i + 1, VaRange(vstart, len), Free());
          return NewEntry;
        }
      }
      return Nowhere;
    }

    /** Unmaps the block v that MemVaMap(pa, sz, _) returned as va. Halts when the free list
        needs a new entry and has no room for one. */
    method MemVaUnmap(va: uint32, sz: uint32, ghost v: nat) returns (r: Outcome)
      requires Valid() && Reachable()
      requires sz > 0 ==> v in live && va == v + live[v].pa % 0x1000 && sz == live[v].sz
      modifies this`live, this`num, ranges, pg`mem
      ensures num <= ranges.Length
      ensures sz == 0 ==> r == Done && live == old(live) && Free() == old(Free()) && pg.mem == old(pg.mem)
      ensures Reachable() && (r == Done ==> Valid())
      ensures sz > 0 ==> v in old(live)
      ensures sz > 0 ==>
                var b := old(live[v].range);
                match Give(old(Free()), old(num), ranges.Length, b.start, End(b) % XM32_MAX_ADDR, b.len)
                case Given(f, _) => r == Done && live == old(live) - {v} && Free() == f
                case Full => r == Halted && old(num) == ranges.Length
                case FellOut => false
      ensures sz > 0 ==>
                && (r == if NeedsEntry(old(Free()), old(live[v].range)) && old(num) == ranges.Length then Halted
                         else Done)
                && (r == Done ==> live == old(live) - {v} && GivenBack(old(Free()), old(live[v].range), Free()))
    {
      hide Partition, Translates, UnmappedUpTo, Span, FrameOf, Give, Wf, MemMap.MapOk, Paging.TablesReserved, AllSafe,
        Kept, NeedsEntry, GivenBack;
      if sz == 0 {
        return Done;
      }
      ghost var s, l, m0, b := Free(), live, pg.mem, live[v];
      LiveBlockOk(pool, s, l, v);
      UnmapRecomputes(b);
      var vstart := FrameOf(va);
      var vend := FrameOf((va + sz + 0xfff) % XM32_MAX_ADDR);
      var len := (vend - vstart) % XM32_MAX_ADDR;
      pg.DoVaUnmap(vstart, len);
      GiveKeepsPartition(pool, s, l, ranges.Length, v);
      GiveIff(pool, s, l, ranges.Length, v);
      var place := GiveRange(vstart, vend, len);
      if place == Merged || place == NewEntry {
        UnmapKeepsTranslation(m0, pg.mem, base, pg.pdpt, pg.owner, pool, s, l, v, Free());
        live := l - {v};
        return Done;
      }
      r := Halted;
    }
  }

  /** Byte a is part of a page table, of the list of unused ranges or of the memory map. */
  ghost predicate IsUsed(vs: VaSpace, a: nat)
    reads vs, vs.pg
  {
    || vs.pg.pdpt <= a < vs.pg.pdpt + 32
    || vs.listAt <= a < vs.ListEnd()
    || vs.pg.mm.at <= a < vs.MapEnd()
    || exists f :: f in vs.pg.owner && f <= a < f + 0x1000
  }

  /** Whatever has been mapped, the code finds its tables and lists where it looks for them. */
  lemma UsedIsInPlace(vs: VaSpace, a: nat)
    requires vs.Valid() && vs.Reachable() && IsUsed(vs, a)
    ensures VaRuns.Translate(vs.pg.mem, vs.pg.pdpt, a) == VaRuns.Address(a)
  {
    hide Partition, LiveMapped, FreeAbsent, RestAsIn, LargeWhole, Wf, WalkPage, AreaSafe, RamSafe, Kept, MemMap.MapOk,
      Paging.TablesReserved;
    var m, base, pdpt, pool := vs.pg.mem, vs.base, vs.pg.pdpt, vs.pool;
    var listEnd, mapEnd := vs.ListEnd(), vs.MapEnd();
    if pdpt <= a < pdpt + 32 {
      SafeByte(m, base, pdpt, pool, pdpt, pdpt + 32, a);
    } else if vs.listAt <= a < listEnd {
      SafeByte(m, base, pdpt, pool, vs.listAt, listEnd, a);
    } else if vs.pg.mm.at <= a < mapEnd {
      SafeByte(m, base, pdpt, pool, vs.pg.mm.at, mapEnd, a);
    } else {
      var f :| f in vs.pg.owner && f <= a < f + 0x1000;
      SafeByte(m, base, pdpt, pool, f, f + 0x1000, a);
    }
  }

  lemma LiveBlockOk(pool: seq<VaRange>, free: seq<VaRange>, live: Live, v: nat)
    requires Partition(pool, free, live) && v in live
    ensures BlockOk(live[v]) && live[v].range.start == v && v % 0x1000 == 0 && live[v].range.len % 0x1000 == 0
    ensures BMEM_MAX_ADDR <= v && End(live[v].range) <= XM32_MAX_ADDR && live[v].range.len > 0
  {
    LiveBlock(pool, free, live, v);
    PoolBounds(pool, live[v].range);
  }

  /** The block that MemVaMap takes is page-aligned and ends at or below 4 GiB. */
  lemma TakenBlockOk(pool: seq<VaRange>, free: seq<VaRange>, live: Live, b: Block)
    requires Partition(pool, free, live) && b.pa < TWO64 && b.sz > 0 && b.flags < 0x80
    requires b.range.len == Span(b.pa, b.sz)
    requires Take(free, b.range.len).Taken? && b.range.start == Take(free, b.range.len).start
    ensures BlockOk(b) && b.range.start % 0x1000 == 0 && b.range.len % 0x1000 == 0
    ensures BMEM_MAX_ADDR <= b.range.start && End(b.range) <= XM32_MAX_ADDR
  {
    hide EntriesApart, Anchored, LiveOk, FreeApartLive, Cover, WithinSome;
    var t := Take(free, b.range.len);
    TakeIndexIsLast(free, |free|, b.range.len);
    assert WithinSome(free[t.index], pool);
    PoolBounds(pool, free[t.index]);
    CutAligned(free[t.index], b.range.len);
  }
}

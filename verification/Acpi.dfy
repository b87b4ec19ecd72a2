/** The walk over the ACPI tables (stage2/irq.c:97-203), a client of mem_va_map and
    mem_va_unmap whose calls are well nested. */
module Acpi {
  import opened Machine
  import opened VaPool
  import opened VaNesting
  import opened VaTranslation
  import PageTable
  import Paging
  import Reach
  import VaRuns
  import VS = VaSpace

  const IOAPIC_SIZE := 0x20   // sizeof(ioapic_t)

  /** An interrupt controller structure of a MADT. */
  datatype Controller = IoApic(address: uint32) | OtherController

  /** What the walk reads of a table in physical memory: its length, whether it is a MADT, the
      controllers of a MADT and the pointers of an XSDT. */
  datatype Table = Table(length: uint32, isMadt: bool, controllers: seq<Controller>, pointers: seq<uint64>)

  type Tables = map<nat, Table>   // by physical address

  /** Every pointer leads to a table. */
  ghost predicate TablesOk(tables: Tables) {
    forall a, i :: a in tables && 0 <= i < |tables[a].pointers| ==> tables[a].pointers[i] in tables
  }

  /** The size that both acpi_map_tab and acpi_unmap_tab settle on: it holds the table, and the
      largest structure of any. */
  function MappedSize(t: Table, unionSize: uint32): (sz: uint32)
    ensures t.length <= sz && unionSize <= sz && (sz == t.length || sz == unionSize)
  {
    if t.length > unionSize then t.length else unionSize
  }

  /** A mapping of sz bytes at pa took the lists from free0, live0 to free1, live1. */
  ghost predicate MappedOn(free0: seq<VaRange>, live0: Live, free1: seq<VaRange>, live1: Live, v: nat, pa: nat,
                           sz: nat, flags: nat) {
    && Take(free0, Span(pa, sz)).Taken? && v == Take(free0, Span(pa, sz)).start
    && free1 == Take(free0, Span(pa, sz)).free'
    && v !in live0 && live1 == live0[v := Block(VaRange(v, Span(pa, sz)), pa, sz, flags)]
  }

  // ---------------------------------------------------------------------------------------
  // What the walk does, and what it needs

  /** A store: the physical address that it reaches, and the low bits of the entry that maps it. */
  datatype Access = Access(address: nat, attr: nat)

  /** An I/O APIC is reached at its own address, uncached. */
  function Uncached(address: uint32): Access {
    Access(address, PageTable.Attr(PageTable.PTE_CD))
  }

  /** The stores to the I/O APICs that the controllers of a MADT describe. */
  function IoApics(cs: seq<Controller>, n: nat): seq<Access>
    requires n <= |cs|
  {
    if n == 0 then [] else IoApics(cs, n - 1) + if cs[n - 1].IoApic? then [Uncached(cs[n - 1].address)] else []
  }

  function TableIoApics(t: Table): seq<Access> {
    if t.isMadt then IoApics(t.controllers, |t.controllers|) else []
  }

  /** Those of all MADTs among the first n tables pointed to. */
  function AllIoApics(tables: Tables, pointers: seq<uint64>, n: nat): seq<Access>
    requires n <= |pointers| && forall i :: 0 <= i < |pointers| ==> pointers[i] in tables
  {
    if n == 0 then []
    else AllIoApics(tables, pointers, n - 1) + TableIoApics(tables[pointers[n - 1]])
  }

  /** The free list while a mapping is in force. */
  function FreeDuring(free: seq<VaRange>, pa: nat, sz: nat): seq<VaRange> {
    match Take(free, Span(pa, sz)) case Taken(_, _, f) => f case NoSpace => free
  }

  /** No free range can hold some I/O APIC. */
  ghost predicate MadtUnserved(free: seq<VaRange>, cs: seq<Controller>) {
    exists i :: 0 <= i < |cs| && cs[i].IoApic? && VS.Unserved(free, cs[i].address, IOAPIC_SIZE)
  }

  /** No free range can hold the table, in the size it is mapped with first or in full. */
  ghost predicate TableUnserved(free: seq<VaRange>, pa: nat, t: Table, unionSize: uint32)
    requires unionSize > 0
  {
    VS.Unserved(free, pa, unionSize) || VS.Unserved(free, pa, MappedSize(t, unionSize))
  }

  ghost predicate TableFails(free: seq<VaRange>, pa: nat, t: Table, unionSize: uint32)
    requires unionSize > 0
  {
    TableUnserved(free, pa, t, unionSize)
    || (t.isMadt && MadtUnserved(FreeDuring(free, pa, MappedSize(t, unionSize)), t.controllers))
  }

  ghost predicate XsdtFails(free: seq<VaRange>, tables: Tables, pointers: seq<uint64>, unionSize: uint32)
    requires unionSize > 0
  {
    exists i :: 0 <= i < |pointers| && pointers[i] in tables
      && TableFails(free, pointers[i], tables[pointers[i]], unionSize)
  }

  lemma MappedIsDuring(free0: seq<VaRange>, live0: Live, free1: seq<VaRange>, live1: Live, v: nat, pa: nat, sz: nat,
                       flags: nat)
    requires MappedOn(free0, live0, free1, live1, v, pa, sz, flags)
    ensures free1 == FreeDuring(free0, pa, sz) && v in live1 && live1[v].pa == pa && live1[v].flags == flags
  {
  }

  lemma PoolOfPartition(pool: seq<VaRange>, free: seq<VaRange>, live: Live)
    requires Partition(pool, free, live)
    ensures PoolOk(pool)
  {
  }

  /** A walk leads to byte pa, for reading and writing, with the given low bits. */
  predicate LeadsTo(w: PageTable.Walk, offset: nat, pa: nat, attr: nat) {
    w.Mapped? && w.leaf.writable && w.leaf.frame + offset == pa && w.leaf.attr == attr
  }

  /** The first byte of a mapping can be written, and is where it should be. */
  lemma StoreReaches(m: PageTable.Memory, pdpt: nat, live: Live, v: nat)
    requires LiveMapped(m, pdpt, live) && v in live && BlockOk(live[v]) && live[v].range.start == v && v % 0x1000 == 0
    requires live[v].range.len > 0 && VaPool.End(live[v].range) <= XM32_MAX_ADDR
    ensures var b := live[v]; var o := b.pa % 0x1000;
            && (v + o) / 0x1000 == v / 0x1000 && (v + o) % 0x1000 == o
            && LeadsTo(PageTable.WalkPage(m, pdpt, v / 0x1000), o, b.pa, PageTable.Attr(b.flags))
  {
    hide LiveMapped, PageTable.WalkPage, PageTable.Attr, Span;
    var b := live[v];
    assert v == v / 0x1000 * 0x1000;
    VaRuns.PageOfByte(v / 0x1000, b.pa % 0x1000, 0);
    VaRuns.PageIsIn(b.range, v / 0x1000, 0);
    VaRuns.LivePage(m, pdpt, live, v, v / 0x1000);
    VaRuns.ByteOfFrame(b.pa, b.pa % 0x1000, 0);
  }

  // ---------------------------------------------------------------------------------------
  // Which I/O APICs, and in which order

  /** Controller j of the table that pointer i leads to. */
  datatype Place = Place(i: int, j: int)

  ghost predicate IsApic(tables: Tables, pointers: seq<uint64>, p: Place) {
    && 0 <= p.i < |pointers| && pointers[p.i] in tables && tables[pointers[p.i]].isMadt
    && 0 <= p.j < |tables[pointers[p.i]].controllers| && tables[pointers[p.i]].controllers[p.j].IoApic?
  }

  predicate Before(p: Place, q: Place) {
    p.i < q.i || (p.i == q.i && p.j < q.j)
  }

  /** All I/O APICs of MADTs among the first n tables, and the first m controllers of the next,
      by pointer and then by controller, each once. */
  ghost predicate Enumerates(tables: Tables, pointers: seq<uint64>, n: nat, m: nat, ps: seq<Place>) {
    && (forall k :: 0 <= k < |ps| ==> IsApic(tables, pointers, ps[k]) && Before(ps[k], Place(n, m)))
    && (forall k, l :: 0 <= k < l < |ps| ==> Before(ps[k], ps[l]))
    && (forall p: Place :: IsApic(tables, pointers, p) && Before(p, Place(n, m)) ==> p in ps)
  }

  ghost predicate StoredAt(tables: Tables, pointers: seq<uint64>, ps: seq<Place>, masked: seq<Access>) {
    |masked| == |ps| && forall k :: 0 <= k < |ps| ==>
      && IsApic(tables, pointers, ps[k])
      && masked[k] == Uncached(tables[pointers[ps[k].i]].controllers[ps[k].j].address)
  }

  /** There has been one store, uncached, for each I/O APIC of each MADT that is pointed to, by
      pointer and then by controller. */
  ghost predicate MasksAll(tables: Tables, pointers: seq<uint64>, masked: seq<Access>) {
    exists ps :: Enumerates(tables, pointers, |pointers|, 0, ps) && StoredAt(tables, pointers, ps, masked)
  }

  lemma {:induction false} MadtListed(tables: Tables, pointers: seq<uint64>, n: nat, m: nat, ps0: seq<Place>,
                                      masked0: seq<Access>) returns (ps: seq<Place>)
    requires n < |pointers| && pointers[n] in tables && tables[pointers[n]].isMadt
    requires m <= |tables[pointers[n]].controllers|
    requires Enumerates(tables, pointers, n, 0, ps0) && StoredAt(tables, pointers, ps0, masked0)
    ensures Enumerates(tables, pointers, n, m, ps)
    ensures StoredAt(tables, pointers, ps, masked0 + IoApics(tables[pointers[n]].controllers, m))
  {
    if m == 0 {
      ps := ps0;
      assert masked0 + [] == masked0;
    } else {
      var cs := tables[pointers[n]].controllers;
      var qs := MadtListed(tables, pointers, n, m - 1, ps0, masked0);
      IoApicsUnfold(cs, m - 1);
      var x, y := masked0 + IoApics(cs, m - 1), if cs[m - 1].IoApic? then [Uncached(cs[m - 1].address)] else [];
      assert masked0 + IoApics(cs, m) == x + y;
      hide IoApics;
      ps := NextListed(tables, pointers, n, m - 1, qs, x);
    }
  }

  lemma NextListed(tables: Tables, pointers: seq<uint64>, n: nat, m: nat, qs: seq<Place>, x: seq<Access>)
    returns (ps: seq<Place>)
    requires n < |pointers| && pointers[n] in tables && tables[pointers[n]].isMadt
    requires m < |tables[pointers[n]].controllers|
    requires Enumerates(tables, pointers, n, m, qs) && StoredAt(tables, pointers, qs, x)
    ensures Enumerates(tables, pointers, n, m + 1, ps)
    ensures var c := tables[pointers[n]].controllers[m];
            StoredAt(tables, pointers, ps, x + if c.IoApic? then [Uncached(c.address)] else [])
  {
    var p := Place(n, m);
    if tables[pointers[n]].controllers[m].IoApic? {
      ps := qs + [p];
      assert IsApic(tables, pointers, p);
      assert forall q: Place :: Before(q, Place(n, m + 1)) ==> Before(q, p) || q == p;
      assert forall q: Place :: q in qs ==> q in ps;
    } else {
      ps := qs;
      assert x + [] == x;
      assert !IsApic(tables, pointers, p);
      assert forall q: Place :: Before(q, Place(n, m + 1)) ==> Before(q, p) || q == p;
    }
  }

  /** The next table. */
  lemma TableListed(tables: Tables, pointers: seq<uint64>, n: nat, m: nat, ps: seq<Place>)
    requires n < |pointers| && pointers[n] in tables && Enumerates(tables, pointers, n, m, ps)
    requires tables[pointers[n]].isMadt ==> m == |tables[pointers[n]].controllers|
    ensures Enumerates(tables, pointers, n + 1, 0, ps)
  {
    forall p: Place | IsApic(tables, pointers, p) && Before(p, Place(n + 1, 0)) ensures p in ps {
      assert Before(p, Place(n, m));
    }
  }

  lemma NoneListed(tables: Tables, pointers: seq<uint64>)
    ensures Enumerates(tables, pointers, 0, 0, []) && StoredAt(tables, pointers, [], [])
  {
  }

  lemma {:induction false} AllListed(tables: Tables, pointers: seq<uint64>, n: nat) returns (ps: seq<Place>)
    requires n <= |pointers| && forall i :: 0 <= i < |pointers| ==> pointers[i] in tables
    ensures Enumerates(tables, pointers, n, 0, ps)
    ensures StoredAt(tables, pointers, ps, AllIoApics(tables, pointers, n))
  {
    hide Enumerates, StoredAt, IoApics;
    if n == 0 {
      ps := [];
      NoneListed(tables, pointers);
    } else {
      var qs := AllListed(tables, pointers, n - 1);
      var x, t := AllIoApics(tables, pointers, n - 1), tables[pointers[n - 1]];
      MoreIoApics(tables, pointers, n - 1);
      hide AllIoApics;
      if t.isMadt {
        ps := MadtListed(tables, pointers, n - 1, |t.controllers|, qs, x);
        TableListed(tables, pointers, n - 1, |t.controllers|, ps);
      } else {
        ps := qs;
        assert x + [] == x;
        TableListed(tables, pointers, n - 1, 0, ps);
      }
    }
  }

  lemma AllAreMasked(tables: Tables, pointers: seq<uint64>)
    requires forall i :: 0 <= i < |pointers| ==> pointers[i] in tables
    ensures MasksAll(tables, pointers, AllIoApics(tables, pointers, |pointers|))
  {
    hide Enumerates, StoredAt, AllIoApics;
    var ps := AllListed(tables, pointers, |pointers|);
  }

  lemma IoApicsUnfold(cs: seq<Controller>, n: nat)
    requires n <= |cs|
    ensures IoApics(cs, 0) == []
    ensures n < |cs| ==> IoApics(cs, n + 1) == IoApics(cs, n) + if cs[n].IoApic? then [Uncached(cs[n].address)] else []
  {
  }

  lemma OneUnserved(free: seq<VaRange>, cs: seq<Controller>, i: nat)
    requires i < |cs| && cs[i].IoApic?
    ensures VS.Unserved(free, cs[i].address, IOAPIC_SIZE) ==> MadtUnserved(free, cs)
  {
    hide VS.Unserved;
  }

  lemma NoIoApics(tables: Tables, pointers: seq<uint64>)
    requires forall i :: 0 <= i < |pointers| ==> pointers[i] in tables
    ensures AllIoApics(tables, pointers, 0) == []
  {
  }

  lemma MoreIoApics(tables: Tables, pointers: seq<uint64>, n: nat)
    requires n < |pointers| && forall i :: 0 <= i < |pointers| ==> pointers[i] in tables
    ensures AllIoApics(tables, pointers, n + 1) == AllIoApics(tables, pointers, n) + TableIoApics(tables[pointers[n]])
  {
  }

  lemma OneTableFails(free: seq<VaRange>, tables: Tables, pointers: seq<uint64>, unionSize: uint32, i: nat)
    requires unionSize > 0 && i < |pointers| && pointers[i] in tables
    ensures TableFails(free, pointers[i], tables[pointers[i]], unionSize) ==>
              XsdtFails(free, tables, pointers, unionSize)
  {
    hide TableFails;
  }

  class Acpi {
    const vs: VS.VaSpace
    const tables: Tables
    const unionSize: uint32   // sizeof(acpi_table_union_t)

    constructor (vs: VS.VaSpace, tables: Tables, unionSize: uint32)
      ensures this.vs == vs && this.tables == tables && this.unionSize == unionSize
    {
      this.vs := vs;
      this.tables := tables;
      this.unionSize := unionSize;
    }

    ghost predicate Valid()
      reads this, vs, vs.ranges, vs.pg, vs.pg.mm, vs.pg.mm.ranges
    {
      vs.Valid() && vs.Reachable() && OnePerRegion(vs.pool, vs.Free()) && TablesOk(tables) && unionSize > 0
    }

    /** Byte k of the mapping of pa at va. */
    ghost predicate ByteReached(va: nat, pa: nat, k: nat)
      reads vs, vs.pg
    {
      VaRuns.Translate(vs.pg.mem, vs.pg.pdpt, va + k) == VaRuns.Address((pa + k) % TWO64)
    }

    /** The table that the processor reads through virtual address va: every byte of the mapping
        reaches the byte of the table that it stands for, also where the pages are not next to
        each other in physical memory at 2^64. */
    method ReadTable(va: nat, ghost v: nat) returns (t: Table)
      requires Valid() && v in vs.live && va == v + vs.live[v].pa % 0x1000 && vs.live[v].pa in tables
      ensures forall k: nat :: k < vs.live[v].sz ==> ByteReached(va, vs.live[v].pa, k)
      ensures t == tables[vs.live[v].pa]
    {
      hide Partition, LiveMapped, FreeAbsent, RestAsIn, LargeWhole, PageTable.Wf, Reach.AllSafe, PageTable.WalkPage,
        OnePerRegion;
      ghost var b := vs.live[v];
      VS.LiveBlockOk(vs.pool, vs.Free(), vs.live, v);
      forall k: nat | k < b.sz ensures ByteReached(va, b.pa, k) {
        VaRuns.LiveByte(vs.pg.mem, vs.pg.pdpt, vs.pool, vs.Free(), vs.live, v, k);
      }
      assert ByteReached(va, b.pa, 0);
      var where := VaRuns.Translate(vs.pg.mem, vs.pg.pdpt, va);
      t := tables[where.pa];
    }

    /** Where a store through virtual address va, the start of a mapping, goes. */
    method Store(va: nat, ghost v: nat) returns (w: Access)
      requires Valid() && v in vs.live && va == v + vs.live[v].pa % 0x1000
      ensures w == Access(vs.live[v].pa, PageTable.Attr(vs.live[v].flags))
    {
      hide Partition, LiveMapped, FreeAbsent, RestAsIn, LargeWhole, PageTable.Wf, Reach.AllSafe, PageTable.WalkPage,
        OnePerRegion, Reach.Kept, PageTable.Attr, Span;
      VS.LiveBlockOk(vs.pool, vs.Free(), vs.live, v);
      StoreReaches(vs.pg.mem, vs.pg.pdpt, vs.live, v);
      var leaf := PageTable.WalkPage(vs.pg.mem, vs.pg.pdpt, va / 0x1000).leaf;
      w := Access(leaf.frame + va % 0x1000, leaf.attr);
    }

    /** mem_va_map, as used here. */
    method Map(pa: uint64, sz: uint32, flags: nat) returns (r: Outcome, va: nat, ghost v: nat)
      requires Valid() && sz > 0 && flags < 0x80
      modifies vs`live, vs.ranges, vs.pg, vs.pg.mm`num, vs.pg.mm.ranges
      ensures vs.num == old(vs.num)
      ensures r == Done ==>
                && Valid() && MappedOn(old(vs.Free()), old(vs.live), vs.Free(), vs.live, v, pa, sz, flags)
                && va == v + pa % 0x1000
      ensures r != Done ==> VS.Unserved(old(vs.Free()), pa, sz) || Paging.NoFrame(vs.pg.mm)
    {
      hide Partition, Translates, Span, Take, PageTable.Wf, Reach.AllSafe, Paging.Later, Paging.TablesReserved,
        Paging.NoFrame, VS.Unserved;
      ghost var free0 := vs.Free();
      PoolOfPartition(vs.pool, free0, vs.live);
      r, va := vs.MemVaMap(pa, sz, flags);
      v := 0;
      if r == Done {
        v := Take(free0, Span(pa, sz)).start;
        TakeKeepsOnePerRegion(vs.pool, free0, Span(pa, sz));
      }
    }

    /** mem_va_unmap of the mapping made last: it succeeds, and undoes that mapping. */
    method Unmap(va: nat, sz: uint32, ghost v: nat, ghost pa: nat, ghost flags: nat, ghost free0: seq<VaRange>,
                 ghost live0: Live)
      requires Valid() && sz > 0 && OnePerRegion(vs.pool, free0)
      requires MappedOn(free0, live0, vs.Free(), vs.live, v, pa, sz, flags) && va == v + pa % 0x1000
      modifies vs`live, vs`num, vs.ranges, vs.pg`mem
      ensures Valid() && vs.Free() == free0 && vs.live == live0
    {
      hide Partition, Translates, Span, Take, Give, OnePerRegion, PageTable.Wf, Reach.AllSafe, Paging.TablesReserved;
      PoolOfPartition(vs.pool, vs.Free(), vs.live);
      VS.LiveBlockOk(vs.pool, vs.Free(), vs.live, v);
      SpanIsPositive(pa, sz);
      GiveUndoesTake(vs.pool, free0, vs.ranges.Length, Span(pa, sz));
      AddrOfBlock(vs.live[v]);
      var r := vs.MemVaUnmap(va, sz, v);
    }

    /** acpi_map_tab: maps a table, first as much of it as any table has, then all of it. */
    method MapTable(tab64: uint64) returns (r: Outcome, va: nat, ghost v: nat)
      requires Valid() && tab64 in tables
      modifies vs`live, vs`num, vs.ranges, vs.pg, vs.pg.mm`num, vs.pg.mm.ranges
      ensures r == Done ==>
                && Valid() && va == v + tab64 % 0x1000
                && MappedOn(old(vs.Free()), old(vs.live), vs.Free(), vs.live, v, tab64,
                            MappedSize(tables[tab64], unionSize), 0)
      ensures r != Done ==>
                TableUnserved(old(vs.Free()), tab64, tables[tab64], unionSize) || Paging.NoFrame(vs.pg.mm)
    {
      hide Paging.NoFrame, VS.Unserved, Partition, Translates, Span, Take, OnePerRegion, PageTable.Wf, Reach.AllSafe,
        Paging.TablesReserved;
      ghost var free0, live0 := vs.Free(), vs.live;
      r, va, v := Map(tab64, unionSize, 0);
      if r != Done {
        return;
      }
      var tab := ReadTable(va, v);
      var sz := tab.length;
      if sz > unionSize {
        Unmap(va, unionSize, v, tab64, 0, free0, live0);
        r, va, v := Map(tab64, sz, 0);
      }
    }

    /** acpi_unmap_tab: recomputes the size that MapTable used. */
    method UnmapTable(va: nat, ghost v: nat, ghost tab64: nat, ghost free0: seq<VaRange>, ghost live0: Live)
      requires Valid() && tab64 in tables && OnePerRegion(vs.pool, free0) && va == v + tab64 % 0x1000
      requires MappedOn(free0, live0, vs.Free(), vs.live, v, tab64, MappedSize(tables[tab64], unionSize), 0)
      modifies vs`live, vs`num, vs.ranges, vs.pg`mem
      ensures Valid() && vs.Free() == free0 && vs.live == live0
    {
      hide Partition, Translates, Span, Take, OnePerRegion, PageTable.Wf, Reach.AllSafe, Paging.TablesReserved;
      var tab := ReadTable(va, v);
      var sz := tab.length;
      if sz < unionSize {
        sz := unionSize;
      }
      Unmap(va, sz, v, tab64, 0, free0, live0);
    }

    /** acpi_process_madt: maps, masks and unmaps the I/O APICs one after another. */
    method ProcessMadt(madt: Table) returns (r: Outcome, masked: seq<Access>)
      requires Valid()
      modifies vs`live, vs`num, vs.ranges, vs.pg, vs.pg.mm`num, vs.pg.mm.ranges
      ensures r == Done ==> Valid() && vs.Free() == old(vs.Free()) && vs.live == old(vs.live)
      ensures r == Done ==> masked == IoApics(madt.controllers, |madt.controllers|)
      ensures r != Done ==> MadtUnserved(old(vs.Free()), madt.controllers) || Paging.NoFrame(vs.pg.mm)
    {
      hide Paging.NoFrame, VS.Unserved, Partition, Translates, Span, Take, OnePerRegion, PageTable.Wf, Reach.AllSafe,
        Paging.TablesReserved, TablesOk, IoApics, MadtUnserved, Reach.Kept, MappedOn,
        FreeDuring;
      ghost var free0, live0 := vs.Free(), vs.live;
      IoApicsUnfold(madt.controllers, 0);
      masked := [];
      var i: nat := 0;
      while i < |madt.controllers|
        invariant i <= |madt.controllers| && masked == IoApics(madt.controllers, i)
        invariant Valid() && vs.Free() == free0 && vs.live == live0
      {
        var ic := madt.controllers[i];
        IoApicsUnfold(madt.controllers, i);
        if ic.IoApic? {
          var va;
          ghost var v;
          r, va, v := Map(ic.address, IOAPIC_SIZE, PageTable.PTE_CD);
          if r != Done {
            OneUnserved(free0, madt.controllers, i);
            return;
          }
          MappedIsDuring(free0, live0, vs.Free(), vs.live, v, ic.address, IOAPIC_SIZE, PageTable.PTE_CD);
          var store := Store(va, v);
          masked := masked + [store];
          Unmap(va, IOAPIC_SIZE, v, ic.address, PageTable.PTE_CD, free0, live0);
        }
        i := i + 1;
      }
      r := Done;
    }

    /** One table of acpi_process_xsdt. */
    method ProcessTable(tab64: uint64) returns (r: Outcome, masked: seq<Access>)
      requires Valid() && tab64 in tables
      modifies vs`live, vs`num, vs.ranges, vs.pg, vs.pg.mm`num, vs.pg.mm.ranges
      ensures r == Done ==> Valid() && vs.Free() == old(vs.Free()) && vs.live == old(vs.live)
      ensures r == Done ==> masked == TableIoApics(tables[tab64])
      ensures r != Done ==> TableFails(old(vs.Free()), tab64, tables[tab64], unionSize) || Paging.NoFrame(vs.pg.mm)
    {
      hide Paging.NoFrame, VS.Unserved, MadtUnserved, IoApics, MappedOn, TableUnserved, FreeDuring;
      hide Partition, Translates, Span, Take, OnePerRegion, PageTable.Wf, Reach.AllSafe, Paging.TablesReserved,
        TablesOk;
      ghost var free0, live0 := vs.Free(), vs.live;
      masked := [];
      var va;
      ghost var v;
      r, va, v := MapTable(tab64);
      if r != Done {
        return;
      }
      MappedIsDuring(free0, live0, vs.Free(), vs.live, v, tab64, MappedSize(tables[tab64], unionSize), 0);
      var tab := ReadTable(va, v);
      if tab.isMadt {
        r, masked := ProcessMadt(tab);
        if r != Done {
          return;
        }
      }
      UnmapTable(va, v, tab64, free0, live0);
    }

    /** acpi_process_xsdt: maps each table in turn, and processes it if it is a MADT. */
    method ProcessXsdt(xsdt: Table) returns (r: Outcome, masked: seq<Access>)
      requires Valid() && forall i :: 0 <= i < |xsdt.pointers| ==> xsdt.pointers[i] in tables
      modifies vs`live, vs`num, vs.ranges, vs.pg, vs.pg.mm`num, vs.pg.mm.ranges
      ensures r == Done ==> Valid() && vs.Free() == old(vs.Free()) && vs.live == old(vs.live)
      ensures r == Done ==> masked == AllIoApics(tables, xsdt.pointers, |xsdt.pointers|)
      ensures r == Done ==> MasksAll(tables, xsdt.pointers, masked)
      ensures r != Done ==> XsdtFails(old(vs.Free()), tables, xsdt.pointers, unionSize) || Paging.NoFrame(vs.pg.mm)
    {
      hide Paging.NoFrame, TableFails, TableIoApics, Partition, Translates, OnePerRegion, PageTable.Wf, Reach.AllSafe,
        Paging.TablesReserved, TablesOk, AllIoApics, XsdtFails, MasksAll;
      NoIoApics(tables, xsdt.pointers);
      AllAreMasked(tables, xsdt.pointers);
      ghost var free0, live0 := vs.Free(), vs.live;
      masked := [];
      var i := 0;
      while i < |xsdt.pointers|
        invariant 0 <= i <= |xsdt.pointers| && masked == AllIoApics(tables, xsdt.pointers, i)
        invariant Valid() && vs.Free() == free0 && vs.live == live0
      {
        var more;
        r, more := ProcessTable(xsdt.pointers[i]);
        if r != Done {
          OneTableFails(free0, tables, xsdt.pointers, unionSize, i);
          return;
        }
        MoreIoApics(tables, xsdt.pointers, i);
        masked := masked + more;
        i := i + 1;
      }
      r := Done;
    }

    /** The part of irq_init that walks the tables: from the RSDP, whose XSDT pointer is xsdt64
        and whose signature may be wrong, through the XSDT. Whatever tables the firmware left,
        a walk that completes has masked all I/O APICs of all MADTs, in order, and leaves the
        address space as it found it, entry for entry. */
    method ProcessRsdp(rsdpAddr: uint64, rsdpSize: uint32, signatureOk: bool, xsdt64: uint64)
      returns (r: Outcome, masked: seq<Access>)
      requires Valid() && rsdpSize > 0 && xsdt64 in tables
      modifies vs`live, vs`num, vs.ranges, vs.pg, vs.pg.mm`num, vs.pg.mm.ranges
      ensures r == Done ==> signatureOk && Valid() && vs.Free() == old(vs.Free()) && vs.live == old(vs.live)
      ensures r == Done ==>
                && TablesOk(tables) && masked == AllIoApics(tables, tables[xsdt64].pointers, |tables[xsdt64].pointers|)
                && MasksAll(tables, tables[xsdt64].pointers, masked)
      ensures r != Done ==>
                || !signatureOk || Paging.NoFrame(vs.pg.mm) || VS.Unserved(old(vs.Free()), rsdpAddr, rsdpSize)
                || RootFails(FreeDuring(old(vs.Free()), rsdpAddr, rsdpSize), tables, xsdt64, unionSize)
    {
      hide Paging.NoFrame, VS.Unserved, TableUnserved, XsdtFails, AllIoApics, MappedOn, FreeDuring,
        MasksAll;
      hide Partition, Translates, Span, Take, OnePerRegion, PageTable.Wf, Reach.AllSafe, Paging.TablesReserved;
      ghost var free0, live0 := vs.Free(), vs.live;
      masked := [];
      var rsdp;
      ghost var v;
      r, rsdp, v := Map(rsdpAddr, rsdpSize, 0);
      if r != Done {
        return;
      }
      if !signatureOk {
        return Halted, [];
      }
      ghost var free1, live1 := vs.Free(), vs.live;
      MappedIsDuring(free0, live0, free1, live1, v, rsdpAddr, rsdpSize, 0);
      var xsdt;
      ghost var w;
      r, xsdt, w := MapTable(xsdt64);
      if r != Done {
        return;
      }
      MappedIsDuring(free1, live1, vs.Free(), vs.live, w, xsdt64, MappedSize(tables[xsdt64], unionSize), 0);
      var tab := ReadTable(xsdt, w);
      r, masked := ProcessXsdt(tab);
      if r != Done {
        return;
      }
      UnmapTable(xsdt, w, xsdt64, free1, live1);
      Unmap(rsdp, rsdpSize, v, rsdpAddr, 0, free0, live0);
    }
  }

  /** The XSDT, or a table that it points to, finds no free range that can hold it. */
  ghost predicate RootFails(free: seq<VaRange>, tables: Tables, xsdt64: nat, unionSize: uint32)
    requires unionSize > 0 && xsdt64 in tables
  {
    TableUnserved(free, xsdt64, tables[xsdt64], unionSize)
    || XsdtFails(FreeDuring(free, xsdt64, MappedSize(tables[xsdt64], unionSize)), tables, tables[xsdt64].pointers,
                 unionSize)
  }

  lemma AddrOfBlock(b: Block)
    requires BlockOk(b) && BMEM_MAX_ADDR <= b.range.start && VaPool.End(b.range) <= XM32_MAX_ADDR && b.range.len > 0
    ensures b.range.start + b.pa % 0x1000 < XM32_MAX_ADDR
  {
    SpanPositive(b);
  }
}

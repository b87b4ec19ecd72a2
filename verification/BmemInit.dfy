/** Setting up base memory: grabbing all of it from the firmware, grouping it into blocks, and
    finding out how much there will be at run time (stage1/bmem.c:155-263). */
module BmemInit {
  import opened Machine
  import opened BmemSpec
  import opened HandOver
  import Bmem

  const BMEM_PAGES := 256        // BMEM_MAX_ADDR / EFI_PAGE_SIZE
  const MAX_BMEM_BLKS := 128     // BMEM_MAX_ADDR / EFI_PAGE_SIZE / 2

  predicate RunFree(free: set<nat>, page: nat, count: nat) {
    page + count <= BMEM_PAGES && forall i: nat :: page <= i < page + count ==> i in free
  }

  /** Some run of count free pages lies below 1 MiB. */
  ghost predicate CanGrab(free: set<nat>, count: nat) {
    exists page: nat :: RunFree(free, page, count)
  }

  function Without(free: set<nat>, page: nat, count: nat): set<nat> {
    set i | i in free && !(page <= i < page + count)
  }

  /** The firmware's free pages below 1 MiB. Which of the runs that fit is returned is up to
      the firmware. */
  class Firmware {
    var free: set<nat>

    ghost predicate Valid()
      reads this
    {
      forall i :: i in free ==> i < BMEM_PAGES
    }

    constructor (free: set<nat>)
      requires forall i :: i in free ==> i < BMEM_PAGES
      ensures Valid() && this.free == free
    {
      this.free := free;
    }

    /** AllocatePages(AllocateMaxAddress, ..) with 1 MiB as the limit. */
    method AllocatePages(count: nat) returns (ok: bool, page: nat)
      requires Valid() && count > 0
      modifies this
      ensures Valid() && ok == CanGrab(old(free), count)
      ensures ok ==> RunFree(old(free), page, count) && free == Without(old(free), page, count)
      ensures !ok ==> free == old(free)
    {
      if p: nat :| p < BMEM_PAGES && RunFree(free, p, count) {
        ok, page := true, p;
        free := Without(free, p, count);
      } else {
        ok, page := false, 0;
      }
    }
  }

  // ---------------------------------------------------------------------------------------
  // The grab loop

  /** The bit vector marks the pages that were taken from the firmware. */
  ghost predicate Marks(avail: seq<bool>, free0: set<nat>, free: set<nat>) {
    && |avail| == BMEM_PAGES && free <= free0
    && forall i: nat :: i < BMEM_PAGES ==> (avail[i] <==> i in free0 && i !in free)
  }

  lemma RunShrinks(free: set<nat>, page: nat, count: nat)
    requires RunFree(free, page, count) && count > 0
    ensures |Without(free, page, count)| < |free|
  {
    var rest := Without(free, page, count);
    assert page in free && page !in rest;
    SubsetSmaller(rest, free, page);
  }

  lemma SubsetSmaller(s: set<nat>, t: set<nat>, x: nat)
    requires s <= t && x in t && x !in s
    ensures |s| < |t|
  {
    assert s <= t - {x};
    SubsetSize(s, t - {x});
  }

  lemma {:induction false} SubsetSize(s: set<nat>, t: set<nat>)
    requires s <= t
    ensures |s| <= |t|
  {
    if s != {} {
      var x :| x in s;
      SubsetSize(s - {x}, t - {x});
    }
  }

  lemma NoneLeft(free: set<nat>)
    requires forall i :: i in free ==> i < BMEM_PAGES
    ensures free == {} || CanGrab(free, 1)
  {
    if i :| i in free {
      assert RunFree(free, i, 1);
    }
  }

  /** Marks the pages of a run that was just taken. */
  method MarkRun(avail: array<bool>, page: nat, count: nat, ghost free0: set<nat>, ghost free: set<nat>)
    requires Marks(avail[..], free0, free) && RunFree(free, page, count)
    modifies avail
    ensures Marks(avail[..], free0, Without(free, page, count))
  {
    var i: nat := 0;
    while i < count
      invariant i <= count
      invariant forall k: nat :: k < BMEM_PAGES ==> avail[k] == (old(avail[k]) || page <= k < page + i)
    {
      avail[page + i] := true;
      i := i + 1;
    }
  }

  /** Takes all the free pages below 1 MiB. After a success the page count wraps around to its
      greatest value, and is halved again from there. */
  method Grab(fw: Firmware, avail: array<bool>)
    requires fw.Valid() && avail.Length == BMEM_PAGES && forall i :: 0 <= i < BMEM_PAGES ==> !avail[i]
    modifies fw, avail
    ensures fw.Valid() && fw.free == {} && Marks(avail[..], old(fw.free), {})
  {
    ghost var free0 := fw.free;
    var pageCount: uint64 := BMEM_PAGES / 2;
    while pageCount != 0
      invariant fw.Valid() && Marks(avail[..], free0, fw.free)
      invariant pageCount == 0 ==> fw.free == {}
      decreases |fw.free|, pageCount
    {
      ghost var before, count := fw.free, pageCount;
      while true
        invariant fw.Valid() && Marks(avail[..], free0, fw.free) && pageCount > 0
        invariant (fw.free == before && pageCount == count) || |fw.free| < |before|
        decreases |fw.free|
      {
        ghost var free := fw.free;
        var ok, page := fw.AllocatePages(pageCount);
        if !ok {
          break;
        }
        RunShrinks(free, page, pageCount);
        MarkRun(avail, page, pageCount, free0, free);
        pageCount := TWO64 - 1;
      }
      if pageCount == 1 {
        NoneLeft(fw.free);
      }
      pageCount := pageCount / 2;
    }
  }

  // ---------------------------------------------------------------------------------------
  // Grouping into blocks

  /** Pages [first, last). */
  datatype Group = Group(first: nat, last: nat)

  function BlkOf(g: Group): Blk {
    Blk(g.first * PAGE_SIZE, g.last * PAGE_SIZE, g.last * PAGE_SIZE)
  }

  predicate Marked(avail: seq<bool>, i: int) {
    0 <= i < |avail| && avail[i]
  }

  /** A run of marked pages, from page 1 on, that cannot be made longer. */
  ghost predicate MaximalRun(avail: seq<bool>, g: Group) {
    && 1 <= g.first < g.last <= |avail|
    && (forall i :: g.first <= i < g.last ==> Marked(avail, i))
    && (g.first == 1 || !Marked(avail, g.first - 1)) && !Marked(avail, g.last)
  }

  ghost predicate InGroup(gs: seq<Group>, i: int) {
    exists k :: 0 <= k < |gs| && gs[k].first <= i < gs[k].last
  }

  /** The groups are the maximal runs of marked pages, in order, among pages 1 to n - 1. */
  ghost predicate Grouped(avail: seq<bool>, gs: seq<Group>, n: int) {
    && (forall k :: 0 <= k < |gs| ==> MaximalRun(avail, gs[k]) && gs[k].last <= n)
    && (forall k, l :: 0 <= k < l < |gs| ==> gs[k].last < gs[l].first)
    && (forall i :: 1 <= i < n && Marked(avail, i) ==> InGroup(gs, i))
  }

  /** Two groups are a page apart, so there are not many. */
  lemma {:induction false} GroupsAreFew(avail: seq<bool>, gs: seq<Group>, n: nat, k: nat)
    requires Grouped(avail, gs, n) && k < |gs|
    ensures 2 * (k + 1) <= gs[k].last
  {
    assert MaximalRun(avail, gs[k]);
    if k > 0 {
      GroupsAreFew(avail, gs, n, k - 1);
    }
  }

  /** The blocks are these groups. */
  ghost predicate BlksAre(blk: seq<Blk>, gs: seq<Group>) {
    |blk| == |gs| && forall k :: 0 <= k < |gs| ==> blk[k] == BlkOf(gs[k])
  }

  /** Page idx is the next; the run that it may continue starts at page first, if not 0. */
  ghost predicate Grouping(avail: seq<bool>, gs: seq<Group>, idx: nat, first: nat) {
    if first == 0 then Grouped(avail, gs, idx) && (idx > 1 ==> !Marked(avail, idx - 1))
    else
      && 1 <= first < idx && Grouped(avail, gs, first) && (first == 1 || !Marked(avail, first - 1))
      && forall i :: first <= i < idx ==> Marked(avail, i)
  }

  lemma GroupStays(avail: seq<bool>, gs: seq<Group>, n: nat)
    requires Grouped(avail, gs, n) && !Marked(avail, n)
    ensures Grouped(avail, gs, n + 1)
  {
  }

  lemma GroupEnds(avail: seq<bool>, gs: seq<Group>, first: nat, idx: nat)
    requires Grouping(avail, gs, idx, first) && first != 0 && idx <= |avail| && !Marked(avail, idx)
    ensures Grouped(avail, gs + [Group(first, idx)], idx + 1)
  {
    var gs1 := gs + [Group(first, idx)];
    assert MaximalRun(avail, Group(first, idx));
    forall i | 1 <= i < idx + 1 && Marked(avail, i) ensures InGroup(gs1, i) {
      if i < first {
        assert InGroup(gs, i);
        var k :| 0 <= k < |gs| && gs[k].first <= i < gs[k].last;
        assert gs1[k] == gs[k];
      } else {
        assert gs1[|gs|] == Group(first, idx);
      }
    }
    forall k | 0 <= k < |gs| ensures gs[k].last < first {
      assert MaximalRun(avail, gs[k]);
    }
  }

  lemma GroupsFit(avail: seq<bool>, gs: seq<Group>, idx: nat, first: nat)
    requires Grouping(avail, gs, idx, first) && first != 0 && idx <= |avail| == BMEM_PAGES
    ensures |gs| < MAX_BMEM_BLKS
  {
    if |gs| > 0 {
      GroupsAreFew(avail, gs, first, |gs| - 1);
    }
  }

  /** Groups the marked pages, without page 0, into blocks: never more than there is room for. */
  method GroupPages(avail: array<bool>, blk: array<Blk>) returns (num: nat, ghost gs: seq<Group>)
    requires avail.Length == BMEM_PAGES && blk.Length == MAX_BMEM_BLKS
    modifies blk
    ensures num <= MAX_BMEM_BLKS && BlksAre(blk[..num], gs)
    ensures Grouped(avail[..], gs, BMEM_PAGES)
  {
    ghost var v := avail[..];
    hide Grouped;
    num, gs := 0, [];
    var start := BMEM_MAX_ADDR;
    ghost var first: nat := 0;
    var idx: nat := 1;
    NothingGrouped(v);
    while idx < BMEM_PAGES
      invariant 1 <= idx <= BMEM_PAGES && num <= MAX_BMEM_BLKS && BlksAre(blk[..num], gs)
      invariant Grouping(v, gs, idx, first)
      invariant start == if first == 0 then BMEM_MAX_ADDR else first * PAGE_SIZE
    {
      assert Marked(v, idx) == avail[idx];
      if avail[idx] {
        if start == BMEM_MAX_ADDR {
          start := idx * PAGE_SIZE;
          first := idx;
        }
      } else if start != BMEM_MAX_ADDR {
        GroupsFit(v, gs, idx, first);
        GroupEnds(v, gs, first, idx);
        blk[num] := Blk(start, idx * PAGE_SIZE, idx * PAGE_SIZE);
        num, gs := num + 1, gs + [Group(first, idx)];
        start, first := BMEM_MAX_ADDR, 0;
      } else {
        GroupStays(v, gs, idx);
      }
      idx := idx + 1;
    }
    if start != BMEM_MAX_ADDR {
      GroupsFit(v, gs, idx, first);
      GroupEnds(v, gs, first, idx);
      GroupsBelow(v, gs + [Group(first, idx)]);
      blk[num] := Blk(start, idx * PAGE_SIZE, idx * PAGE_SIZE);
      num, gs := num + 1, gs + [Group(first, idx)];
    }
  }

  lemma NothingGrouped(avail: seq<bool>)
    ensures Grouped(avail, [], 1)
  {
  }

  lemma GroupsBelow(avail: seq<bool>, gs: seq<Group>)
    requires Grouped(avail, gs, |avail| + 1)
    ensures Grouped(avail, gs, |avail|)
  {
    forall k | 0 <= k < |gs| ensures gs[k].last <= |avail| {
      assert MaximalRun(avail, gs[k]);
    }
  }

  // ---------------------------------------------------------------------------------------
  // Base memory at run time

  const UEFI_ATTR_START := 0xA701B   // the attributes that all usable base memory may have

  /** One past the last page of a descriptor, in 32-bit arithmetic. */
  function EndPage(d: Desc): nat {
    (d.start / PAGE_SIZE + d.pages) % XM32_MAX_ADDR
  }

  predicate UsableBase(d: Desc) {
    IsUsable(d.kind) && d.start < BMEM_MAX_ADDR
  }

  /** Page i will be free once boot services end. */
  predicate Frees(d: Desc, i: nat) {
    UsableBase(d) && d.start / PAGE_SIZE <= i < EndPage(d)
  }

  /** For a descriptor that starts at a page, these are the pages of base memory that it covers. */
  lemma FreesIff(d: Desc, i: nat)
    requires d.start % PAGE_SIZE == 0 && d.start / PAGE_SIZE + d.pages < XM32_MAX_ADDR && i < BMEM_PAGES
    ensures Frees(d, i) <==> IsUsable(d.kind) && d.start <= i * PAGE_SIZE && (i + 1) * PAGE_SIZE <= DescEnd(d)
  {
    var n := d.start / PAGE_SIZE;
    assert d.start == n * PAGE_SIZE;
  }

  ghost predicate FreedByFirst(ds: seq<Desc>, n: nat, i: nat) {
    exists k :: 0 <= k < n && k < |ds| && Frees(ds[k], i)
  }

  ghost predicate MarksAlso(w: seq<bool>, v: seq<bool>, ds: seq<Desc>, n: nat) {
    |w| == |v| == BMEM_PAGES
    && forall i: nat :: i < BMEM_PAGES ==> (Marked(w, i) <==> Marked(v, i) || FreedByFirst(ds, n, i))
  }

  function AttrOf(ds: seq<Desc>, n: nat): nat
    requires n <= |ds|
  {
    if n == 0 then UEFI_ATTR_START
    else if UsableBase(ds[n - 1]) then BitAnd(AttrOf(ds, n - 1), ds[n - 1].attr)
    else AttrOf(ds, n - 1)
  }

  predicate HasBit(x: nat, a: nat)
    requires a > 0
  {
    x / a % 2 == 1
  }

  lemma {:induction false} AndHasBit(x: nat, y: nat, a: nat)
    requires IsPow2(a)
    ensures HasBit(BitAnd(x, y), a) <==> HasBit(x, a) && HasBit(y, a)
    decreases a
  {
    if x == 0 || y == 0 {
      assert 0 / a == 0;
    } else if a == 1 {
      assert BitAnd(x, y) / 1 == BitAnd(x, y) && x / 1 == x && y / 1 == y;
    } else {
      AndHasBit(x / 2, y / 2, a / 2);
      assert a == 2 * (a / 2);
      ModDouble(x, a / 2);
      ModDouble(y, a / 2);
      ModDouble(BitAnd(x, y), a / 2);
      assert BitAnd(x, y) / 2 == BitAnd(x / 2, y / 2);
    }
  }

  ghost predicate AllHaveBit(ds: seq<Desc>, n: nat, a: nat)
    requires a > 0
  {
    forall k :: 0 <= k < n && k < |ds| && UsableBase(ds[k]) ==> HasBit(ds[k].attr, a)
  }

  /** Base memory is given exactly the attributes that every usable descriptor supports. */
  lemma {:induction false} AttrIsShared(ds: seq<Desc>, n: nat, a: nat)
    requires n <= |ds| && IsPow2(a)
    ensures HasBit(AttrOf(ds, n), a) <==> HasBit(UEFI_ATTR_START, a) && AllHaveBit(ds, n, a)
  {
    if n > 0 {
      AttrIsShared(ds, n - 1, a);
      AndHasBit(AttrOf(ds, n - 1), ds[n - 1].attr, a);
      hide HasBit, BitAnd, IsPow2;
    }
  }

  /** Marks the pages below 1 MiB of a usable descriptor. */
  method MarkDesc(avail: array<bool>, d: Desc, ghost v: seq<bool>, ghost ds: seq<Desc>, ghost n: nat)
    requires MarksAlso(avail[..], v, ds, n) && n < |ds| && ds[n] == d && UsableBase(d)
    modifies avail
    ensures MarksAlso(avail[..], v, ds, n + 1)
  {
    var idx: nat := d.start / PAGE_SIZE;
    var endIdx := EndPage(d);
    if endIdx > BMEM_PAGES {
      endIdx := BMEM_PAGES;
    }
    ghost var first, w := idx, avail[..];
    while idx < endIdx
      invariant first <= idx <= BMEM_PAGES && (idx <= endIdx || idx == first)
      invariant forall k: nat :: k < BMEM_PAGES ==> avail[k] == (w[k] || first <= k < idx)
    {
      avail[idx] := true;
      idx := idx + 1;
    }
    forall i: nat | i < BMEM_PAGES
      ensures Marked(avail[..], i) <==> Marked(v, i) || FreedByFirst(ds, n + 1, i)
    {
      assert Marked(w, i) <==> Marked(v, i) || FreedByFirst(ds, n, i);
      FreedByNext(ds, n, i);
      assert Marked(avail[..], i) <==> Marked(w, i) || Frees(d, i);
    }
  }

  lemma FreedByNext(ds: seq<Desc>, n: nat, i: nat)
    requires n < |ds|
    ensures FreedByFirst(ds, n + 1, i) <==> FreedByFirst(ds, n, i) || Frees(ds[n], i)
  {
  }

  /** Counts in the memory that the firmware will free, and the attributes it supports. */
  method AddUsable(avail: array<bool>, ds: seq<Desc>) returns (attr: nat)
    requires avail.Length == BMEM_PAGES
    modifies avail
    ensures MarksAlso(avail[..], old(avail[..]), ds, |ds|) && attr == AttrOf(ds, |ds|)
  {
    ghost var v := avail[..];
    attr := UEFI_ATTR_START;
    for n := 0 to |ds|
      invariant MarksAlso(avail[..], v, ds, n) && attr == AttrOf(ds, n)
    {
      hide BitAnd, Frees, FreedByFirst, Marked;
      if UsableBase(ds[n]) {
        MarkDesc(avail, ds[n], v, ds, n);
        attr := BitAnd(attr, ds[n].attr);
      } else {
        NotFreed(avail[..], v, ds, n);
      }
    }
  }

  lemma NotFreed(w: seq<bool>, v: seq<bool>, ds: seq<Desc>, n: nat)
    requires MarksAlso(w, v, ds, n) && n < |ds| && !UsableBase(ds[n])
    ensures MarksAlso(w, v, ds, n + 1)
  {
    forall i: nat | i < BMEM_PAGES ensures FreedByFirst(ds, n + 1, i) <==> FreedByFirst(ds, n, i) {
      FreedByNext(ds, n, i);
    }
  }

  /** Pages 0 to t - 1 are marked, and page t is not. */
  ghost predicate MarkedUpTo(w: seq<bool>, t: nat) {
    t <= |w| && (forall i :: 0 <= i < t ==> Marked(w, i)) && !Marked(w, t)
  }

  function RunOf(g: Group): Run {
    Run(g.first * PAGE_SIZE, g.last * PAGE_SIZE)
  }

  function RunsOf(gs: seq<Group>): seq<Run> {
    seq(|gs|, k requires 0 <= k < |gs| => RunOf(gs[k]))
  }

  lemma GroupBounds(avail: seq<bool>, gs: seq<Group>, k: nat)
    requires Grouped(avail, gs, BMEM_PAGES) && k < |gs|
    ensures 1 <= gs[k].first < gs[k].last <= BMEM_PAGES
  {
    assert MaximalRun(avail, gs[k]);
  }

  lemma RunsAreOk(avail: seq<bool>, gs: seq<Group>)
    requires Grouped(avail, gs, BMEM_PAGES)
    ensures RunsOk(RunsOf(gs))
  {
    forall k | 0 <= k < |gs| ensures 1 <= gs[k].first < gs[k].last <= BMEM_PAGES {
      GroupBounds(avail, gs, k);
    }
  }

  lemma BlksAreOk(avail: seq<bool>, gs: seq<Group>, blk: seq<Blk>)
    requires Grouped(avail, gs, BMEM_PAGES) && BlksAre(blk, gs)
    ensures BlksOk(RunsOf(gs), blk)
  {
    forall k | 0 <= k < |gs|
      ensures blk[k].start <= blk[k].end <= blk[k].origEnd && InRun(RunsOf(gs), blk[k].start, blk[k].origEnd)
    {
      GroupBounds(avail, gs, k);
      assert RunsOf(gs)[k] == RunOf(gs[k]);
    }
  }

  lemma TopSplitsNone(v: seq<bool>, gs: seq<Group>, blk: seq<Blk>, w: seq<bool>, t: nat)
    requires Grouped(v, gs, BMEM_PAGES) && BlksAre(blk, gs) && |v| == |w| == BMEM_PAGES && MarkedUpTo(w, t)
    requires forall i: nat :: Marked(v, i) ==> Marked(w, i)
    ensures NoneStraddles(blk, t * PAGE_SIZE) && CutsAbove(blk, t * PAGE_SIZE)
  {
    forall k | 0 <= k < |gs| ensures gs[k].last <= t || t <= gs[k].first {
      assert MaximalRun(v, gs[k]);
      assert gs[k].first <= t < gs[k].last ==> Marked(v, t);
    }
  }

  lemma StartIsOk(v: seq<bool>, gs: seq<Group>, blk: seq<Blk>, w: seq<bool>, ds: seq<Desc>, t: nat)
    requires Grouped(v, gs, BMEM_PAGES) && BlksAre(blk, gs) && MarkedUpTo(w, t) && MarksAlso(w, v, ds, |ds|)
    ensures BmemOk(RunsOf(gs), blk, [], PAGE_SIZE, t * PAGE_SIZE)
  {
    hide Grouped, BlksAre, BlksOk, RunsOk, NoneStraddles, MarkedUpTo;
    RunsAreOk(v, gs);
    BlksAreOk(v, gs, blk);
    TopSplitsNone(v, gs, blk, w, t);
  }

  /** What base memory looks like when bmem_init is done: the pages that were free are the
      firmware's no more, and form the blocks; and the watermark is where the pages end that
      are free or will be. */
  ghost predicate Initialised(bm: Bmem.Bmem, gs: seq<Group>, free0: set<nat>, ds: seq<Desc>, v: seq<bool>,
                              w: seq<bool>, t: nat)
    reads bm, bm.blk
  {
    && Marks(v, free0, {}) && Grouped(v, gs, BMEM_PAGES) && BlksAre(bm.View(), gs)
    && MarksAlso(w, v, ds, |ds|) && MarkedUpTo(w, t) && bm.top == t * PAGE_SIZE
    && bm.attr == AttrOf(ds, |ds|) && bm.bot == PAGE_SIZE && bm.used == []
  }

  /** bmem_init. The loader gives up if less than 192 KiB will be free from address 0 on. */
  method BmemInit(fw: Firmware, ds: seq<Desc>)
    returns (bm: Bmem.Bmem?, ghost gs: seq<Group>, ghost v: seq<bool>, ghost w: seq<bool>, ghost t: nat)
    requires fw.Valid()
    modifies fw
    ensures fw.free == {}
    ensures MarksAlso(w, v, ds, |ds|) && MarkedUpTo(w, t) && Marks(v, old(fw.free), {})
    ensures bm == null <==> t * PAGE_SIZE < 192 * KIBYTE
    ensures bm != null ==> fresh(bm) && fresh(bm.blk) && bm.Valid() && Initialised(bm, gs, old(fw.free), ds, v, w, t)
  {
    hide BmemOk, Grouped, MarksAlso, Marks, BlksAre, AttrOf, Marked;
    bm := null;
    var avail := new bool[BMEM_PAGES](_ => false);
    var blk := new Blk[MAX_BMEM_BLKS](_ => Blk(0, 0, 0));
    Grab(fw, avail);
    v := avail[..];
    var num;
    num, gs := GroupPages(avail, blk);
    var attr := AddUsable(avail, ds);
    w := avail[..];
    var idx: nat := FirstGap(avail);
    t := idx;
    StartIsOk(v, gs, blk[..num], w, ds, t);
    if idx < 192 * KIBYTE / PAGE_SIZE {
      return;
    }
    var top := idx * PAGE_SIZE;
    if top < 192 * KIBYTE || PAGE_SIZE > top - 128 * KIBYTE {
      return;
    }
    bm := new Bmem.Bmem(blk, num, top, attr, RunsOf(gs));
  }

  method FirstGap(avail: array<bool>) returns (idx: nat)
    requires avail.Length == BMEM_PAGES
    ensures idx <= BMEM_PAGES && MarkedUpTo(avail[..], idx)
  {
    idx := 0;
    while idx < BMEM_PAGES && avail[idx]
      invariant idx <= BMEM_PAGES && forall i :: 0 <= i < idx ==> Marked(avail[..], i)
    {
      assert Marked(avail[..], idx);
      idx := idx + 1;
    }
  }
}

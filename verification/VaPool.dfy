/** The free list of virtual address ranges, on values (stage2/mem.c:39-47, 473-544): what
    mem_va_map takes from it, what mem_va_unmap gives back, and the invariant both keep. */
module VaPool {
  import opened Machine

  datatype VaRange = VaRange(start: nat, len: nat)

  /** A mapping made by mem_va_map(pa, sz, flags) and not yet undone: the pages it occupies. */
  datatype Block = Block(range: VaRange, pa: nat, sz: nat, flags: nat)

  type Live = map<nat, Block>   // by first address

  function End(r: VaRange): nat {
    r.start + r.len
  }

  predicate In(r: VaRange, a: int) {
    r.start <= a < End(r)
  }

  predicate Within(r: VaRange, q: VaRange) {
    q.start <= r.start && End(r) <= End(q)
  }

  predicate Apart(r: VaRange, q: VaRange) {
    r.len == 0 || q.len == 0 || End(r) <= q.start || End(q) <= r.start
  }

  predicate Aligned(r: VaRange) {
    r.start % 0x1000 == 0 && r.len % 0x1000 == 0
  }

  ghost predicate InSome(s: seq<VaRange>, a: int) {
    exists i :: 0 <= i < |s| && In(s[i], a)
  }

  ghost predicate WithinSome(r: VaRange, s: seq<VaRange>) {
    exists i :: 0 <= i < |s| && Within(r, s[i])
  }

  ghost predicate InLive(live: Live, a: int) {
    exists v :: v in live && In(live[v].range, a)
  }

  ghost predicate StartsSome(a: nat, s: seq<VaRange>) {
    exists i :: 0 <= i < |s| && s[i].start == a
  }

  /** The regions of unused addresses that va_init leaves: page-aligned, non-empty, above
      1 MiB, in order, and with a gap between any two. */
  ghost predicate PoolOk(pool: seq<VaRange>) {
    && (forall i :: 0 <= i < |pool| ==>
          Aligned(pool[i]) && pool[i].len > 0 && BMEM_MAX_ADDR <= pool[i].start && End(pool[i]) <= XM32_MAX_ADDR)
    && (forall i, j :: 0 <= i < j < |pool| ==> End(pool[i]) < pool[j].start)
  }

  ghost predicate EntriesOk(pool: seq<VaRange>, free: seq<VaRange>) {
    forall i :: 0 <= i < |free| ==> Aligned(free[i]) && WithinSome(free[i], pool) && free[i].start < XM32_MAX_ADDR
  }

  ghost predicate EntriesApart(free: seq<VaRange>) {
    forall i, j :: 0 <= i < j < |free| ==> Apart(free[i], free[j])
  }

  /** Every region of the pool still has an entry that starts where the region starts. */
  ghost predicate Anchored(pool: seq<VaRange>, free: seq<VaRange>) {
    forall i {:trigger StartsSome(pool[i].start, free)} :: 0 <= i < |pool| ==> StartsSome(pool[i].start, free)
  }

  ghost predicate FreeOk(pool: seq<VaRange>, free: seq<VaRange>) {
    EntriesOk(pool, free) && EntriesApart(free) && Anchored(pool, free)
  }

  /** The bytes from the page of pa to the page of its last byte. */
  function Span(pa: nat, sz: nat): nat {
    (pa % 0x1000 + sz + 0xfff) / 0x1000 * 0x1000
  }

  /** It is whole pages, enough for sz bytes at the offset of pa, and no page more. */
  lemma SpanIsLeast(pa: nat, sz: nat)
    ensures Span(pa, sz) % 0x1000 == 0
    ensures pa % 0x1000 + sz <= Span(pa, sz) < pa % 0x1000 + sz + 0x1000
  {
  }

  predicate BlockOk(b: Block) {
    && Aligned(b.range) && b.sz > 0 && b.range.len == Span(b.pa, b.sz)
    && b.pa < TWO64 && b.flags < 0x80
  }

  ghost predicate LiveOk(pool: seq<VaRange>, live: Live) {
    && (forall v :: v in live ==> BlockOk(live[v]) && live[v].range.start == v && WithinSome(live[v].range, pool))
    && (forall v, w :: v in live && w in live && v != w ==> Apart(live[v].range, live[w].range))
  }

  /** Free entries and live blocks partition the pool. Free entries may be empty and need not
      be in order. */
  ghost predicate Partition(pool: seq<VaRange>, free: seq<VaRange>, live: Live) {
    && PoolOk(pool) && FreeOk(pool, free) && LiveOk(pool, live)
    && FreeApartLive(free, live) && Cover(pool, free, live)
  }

  ghost predicate FreeApartLive(free: seq<VaRange>, live: Live) {
    forall i, v :: 0 <= i < |free| && v in live ==> Apart(free[i], live[v].range)
  }

  ghost predicate Cover(pool: seq<VaRange>, free: seq<VaRange>, live: Live) {
    forall a: int :: InSome(pool, a) <==> InSome(free, a) || InLive(live, a)
  }

  // ---------------------------------------------------------------------------------------
  // mem_va_map

  datatype TakeResult = Taken(index: nat, start: nat, free': seq<VaRange>) | NoSpace

  function TakeIndex(free: seq<VaRange>, n: nat, span: nat): int
    requires n <= |free|
  {
    if n == 0 then -1 else if free[n - 1].len >= span then n - 1 else TakeIndex(free, n - 1, span)
  }

  lemma {:induction false} TakeIndexIsLast(free: seq<VaRange>, n: nat, span: nat)
    requires n <= |free|
    ensures var i := TakeIndex(free, n, span);
            && -1 <= i < n && (i >= 0 ==> free[i].len >= span)
            && forall j :: i < j < n ==> free[j].len < span
    decreases n
  {
    if n > 0 && free[n - 1].len < span {
      TakeIndexIsLast(free, n - 1, span);
    }
  }

  /** The top span bytes of the last range that has so many. */
  function Take(free: seq<VaRange>, span: nat): TakeResult {
    TakeIndexIsLast(free, |free|, span);
    var i := TakeIndex(free, |free|, span);
    if i == -1 then NoSpace
    else Taken(i, End(free[i]) - span, free[i := free[i].(len := free[i].len - span)])
  }

  ghost predicate NoneHolds(free: seq<VaRange>, span: nat) {
    forall i :: 0 <= i < |free| ==> free[i].len < span
  }

  /** Range i is the last with room for span bytes, and they are cut off its end: they start at
      start, and f is what is left. */
  ghost predicate CutFromLast(free: seq<VaRange>, span: nat, i: int, start: int, f: seq<VaRange>) {
    && 0 <= i < |free| && free[i].len >= span && (forall j :: i < j < |free| ==> free[j].len < span)
    && start + span == End(free[i]) && f == free[i := VaRange(free[i].start, free[i].len - span)]
  }

  ghost predicate CutFromSome(free: seq<VaRange>, span: nat, start: int, f: seq<VaRange>) {
    exists i :: CutFromLast(free, span, i, start, f)
  }

  /** There is no space exactly if no range has room; else the top of the last one that has. */
  lemma TakeIff(free: seq<VaRange>, span: nat)
    ensures Take(free, span).NoSpace? <==> NoneHolds(free, span)
    ensures Take(free, span).Taken? ==> CutFromSome(free, span, Take(free, span).start, Take(free, span).free')
  {
    TakeIndexIsLast(free, |free|, span);
    var t := Take(free, span);
    assert t.Taken? ==> CutFromLast(free, span, t.index, t.start, t.free');
  }

  // ---------------------------------------------------------------------------------------
  // mem_va_unmap

  datatype GiveResult = Given(free': seq<VaRange>, inserted: bool) | Full | FellOut

  /** The search of mem_va_unmap among the first n entries, going down. vend is the 32-bit end
      of the block: 0 when the block ends at 4 GiB. */
  function Give(free: seq<VaRange>, n: nat, cap: nat, vstart: nat, vend: nat, len: nat): GiveResult
    requires n <= |free|
  {
    if n == 0 then FellOut
    else
      var vr := free[n - 1];
      if vr.start == vend then Given(free[n - 1 := VaRange(vstart, vr.len + len)], false)
      else if End(vr) % XM32_MAX_ADDR == vstart then Given(free[n - 1 := vr.(len := vr.len + len)], false)
      else if vr.start < vstart then
        if |free| == cap then Full else Given(free[..n] + [VaRange(vstart, len)] + free[n..], true)
      else Give(free, n - 1, cap, vstart, vend, len)
  }

  // ---------------------------------------------------------------------------------------
  // The invariant is kept

  lemma SameRegion(pool: seq<VaRange>, i: nat, j: nat, a: nat)
    requires PoolOk(pool) && i < |pool| && j < |pool|
    requires pool[i].start <= a <= End(pool[i]) && pool[j].start <= a <= End(pool[j])
    ensures i == j
  {
  }

  /** Two ranges of the pool that touch lie in the same region. */
  lemma TouchingWithinSome(pool: seq<VaRange>, r: VaRange, q: VaRange)
    requires PoolOk(pool) && WithinSome(r, pool) && WithinSome(q, pool) && End(r) == q.start
    ensures WithinSome(VaRange(r.start, r.len + q.len), pool)
  {
    var i :| 0 <= i < |pool| && Within(r, pool[i]);
    var j :| 0 <= j < |pool| && Within(q, pool[j]);
    SameRegion(pool, i, j, End(r));
    assert Within(VaRange(r.start, r.len + q.len), pool[i]);
  }

  /** Moving the start of an entry below its old start cannot take away the entry that starts a
      region: nothing of the pool lies just below a region. */
  lemma RegionStartStays(pool: seq<VaRange>, b: VaRange, i: nat)
    requires PoolOk(pool) && WithinSome(b, pool) && b.len > 0 && i < |pool|
    ensures End(b) != pool[i].start
  {
    var j :| 0 <= j < |pool| && Within(b, pool[j]);
  }

  /** Block b is the top of free entry i; f is the free list without it. */
  ghost predicate TopCut(free: seq<VaRange>, i: nat, b: VaRange, f: seq<VaRange>) {
    && i < |free| && b.len <= free[i].len && b.start == End(free[i]) - b.len
    && f == free[i := free[i].(len := free[i].len - b.len)]
  }

  lemma CutAligned(r: VaRange, len: nat)
    requires Aligned(r) && len % 0x1000 == 0 && len <= r.len
    ensures Aligned(r.(len := r.len - len)) && Aligned(VaRange(End(r) - len, len))
  {
  }

  lemma PartWithinSome(pool: seq<VaRange>, r: VaRange, q: VaRange)
    requires WithinSome(r, pool) && Within(q, r)
    ensures WithinSome(q, pool)
  {
    var k :| 0 <= k < |pool| && Within(r, pool[k]);
    assert Within(q, pool[k]);
  }

  lemma CutEntriesOk(pool: seq<VaRange>, free: seq<VaRange>, i: nat, b: VaRange, f: seq<VaRange>)
    requires EntriesOk(pool, free) && TopCut(free, i, b, f) && b.len % 0x1000 == 0
    ensures EntriesOk(pool, f) && Aligned(b) && WithinSome(b, pool)
  {
    hide Aligned, WithinSome;
    CutAligned(free[i], b.len);
    assert b == VaRange(End(free[i]) - b.len, b.len);
    PartWithinSome(pool, free[i], b);
    PartWithinSome(pool, free[i], f[i]);
  }

  lemma CutEntriesApart(free: seq<VaRange>, i: nat, b: VaRange, f: seq<VaRange>)
    requires EntriesApart(free) && TopCut(free, i, b, f)
    ensures EntriesApart(f)
  {
    forall j, k | 0 <= j < k < |f| ensures Apart(f[j], f[k]) {
      assert Apart(free[j], free[k]);
    }
  }

  lemma CutAnchored(pool: seq<VaRange>, free: seq<VaRange>, i: nat, b: VaRange, f: seq<VaRange>)
    requires Anchored(pool, free) && TopCut(free, i, b, f)
    ensures Anchored(pool, f)
  {
    forall k | 0 <= k < |pool| ensures StartsSome(pool[k].start, f) {
      assert StartsSome(pool[k].start, free);
      var j :| 0 <= j < |free| && free[j].start == pool[k].start;
      assert f[j].start == pool[k].start;
    }
  }

  lemma CutLiveOk(pool: seq<VaRange>, free: seq<VaRange>, live: Live, i: nat, b: Block, f: seq<VaRange>)
    requires LiveOk(pool, live) && FreeApartLive(free, live) && TopCut(free, i, b.range, f)
    requires BlockOk(b) && b.range.len > 0 && WithinSome(b.range, pool)
    ensures b.range.start !in live && LiveOk(pool, live[b.range.start := b])
  {
    forall v | v in live ensures Apart(live[v].range, b.range) && v != b.range.start {
      assert Apart(free[i], live[v].range);
      SpanPositive(live[v]);
    }
  }

  lemma SpanPositive(b: Block)
    requires BlockOk(b)
    ensures b.range.len >= 0x1000
  {
  }

  lemma CutApart(free: seq<VaRange>, live: Live, i: nat, b: Block, f: seq<VaRange>)
    requires EntriesApart(free) && FreeApartLive(free, live) && TopCut(free, i, b.range, f)
    ensures FreeApartLive(f, live[b.range.start := b])
  {
    forall j, v | 0 <= j < |f| && v in live ensures Apart(f[j], live[v].range) {
      assert Apart(free[j], live[v].range);
    }
    forall j | 0 <= j < |f| ensures Apart(f[j], b.range) {
      if j < i {
        assert Apart(free[j], free[i]);
      } else if j > i {
        assert Apart(free[i], free[j]);
      }
    }
  }

  lemma CutCover(pool: seq<VaRange>, free: seq<VaRange>, live: Live, i: nat, b: Block, f: seq<VaRange>)
    requires Cover(pool, free, live) && TopCut(free, i, b.range, f) && b.range.start !in live
    ensures Cover(pool, f, live[b.range.start := b])
    ensures forall a: int :: In(b.range, a) ==> InSome(free, a)
  {
    var l := live[b.range.start := b];
    forall a: int ensures (InSome(f, a) || InLive(l, a)) <==> (InSome(free, a) || InLive(live, a)) {
      if InSome(free, a) {
        var j :| 0 <= j < |free| && In(free[j], a);
        assert In(f[j], a) || In(l[b.range.start].range, a);
      }
      if InLive(live, a) {
        var v :| v in live && In(live[v].range, a);
        assert In(l[v].range, a);
      }
      if InSome(f, a) {
        var j :| 0 <= j < |f| && In(f[j], a);
        assert In(free[j], a);
      }
      if InLive(l, a) {
        var v :| v in l && In(l[v].range, a);
        assert v == b.range.start ==> In(free[i], a);
        assert v != b.range.start ==> In(live[v].range, a);
      }
    }
    forall a: int | In(b.range, a) ensures InSome(free, a) {
      assert In(free[i], a);
    }
  }

  /** mem_va_map keeps the partition, and takes its block from free addresses. */
  lemma TakeKeepsPartition(pool: seq<VaRange>, free: seq<VaRange>, live: Live, b: Block)
    requires Partition(pool, free, live) && BlockOk(b)
    requires var t := Take(free, b.range.len); t.Taken? && b.range.start == t.start
    ensures Partition(pool, Take(free, b.range.len).free', live[b.range.start := b])
    ensures b.range.start !in live && WithinSome(b.range, pool)
    ensures forall a: int :: In(b.range, a) ==> InSome(free, a)
  {
    hide EntriesOk, EntriesApart, Anchored, LiveOk, Cover, FreeApartLive, PoolOk, WithinSome, InSome;
    SpanPositive(b);
    TakeIndexIsLast(free, |free|, b.range.len);
    var t := Take(free, b.range.len);
    assert TopCut(free, t.index, b.range, t.free');
    CutEntriesOk(pool, free, t.index, b.range, t.free');
    CutEntriesApart(free, t.index, b.range, t.free');
    CutAnchored(pool, free, t.index, b.range, t.free');
    CutLiveOk(pool, free, live, t.index, b, t.free');
    CutApart(free, live, t.index, b, t.free');
    CutCover(pool, free, live, t.index, b, t.free');
  }

  // ---------------------------------------------------------------------------------------
  // Giving a block back

  /** f is free with block b joined to entry i, at whichever end they touch. */
  ghost predicate Joined(free: seq<VaRange>, i: nat, b: VaRange, f: seq<VaRange>) {
    && i < |free|
    && ((End(b) == free[i].start && f == free[i := VaRange(b.start, free[i].len + b.len)])
        || (End(free[i]) == b.start && f == free[i := VaRange(free[i].start, free[i].len + b.len)]))
  }

  /** f is free with block b as a new entry i. */
  ghost predicate Inserted(free: seq<VaRange>, i: nat, b: VaRange, f: seq<VaRange>) {
    i <= |free| && f == free[..i] + [b] + free[i..]
  }

  ghost predicate JoinedSomewhere(free: seq<VaRange>, b: VaRange, f: seq<VaRange>) {
    exists i: nat :: Joined(free, i, b, f)
  }

  ghost predicate InsertedSomewhere(free: seq<VaRange>, b: VaRange, f: seq<VaRange>) {
    exists i: nat :: Inserted(free, i, b, f)
  }

  lemma PoolBounds(pool: seq<VaRange>, r: VaRange)
    requires PoolOk(pool) && WithinSome(r, pool)
    ensures BMEM_MAX_ADDR <= r.start && End(r) <= XM32_MAX_ADDR
  {
  }

  /** The two adjacency tests, made in 32-bit arithmetic, are exact, also at 4 GiB. */
  lemma TouchTests(pool: seq<VaRange>, r: VaRange, b: VaRange)
    requires PoolOk(pool) && WithinSome(r, pool) && WithinSome(b, pool) && b.len > 0 && r.start < XM32_MAX_ADDR
    ensures r.start == End(b) % XM32_MAX_ADDR <==> End(b) == r.start
    ensures End(r) % XM32_MAX_ADDR == b.start <==> End(r) == b.start
  {
    hide PoolOk, WithinSome;
    PoolBounds(pool, r);
    PoolBounds(pool, b);
  }

  lemma {:induction false} GiveShape(pool: seq<VaRange>, free: seq<VaRange>, n: nat, cap: nat, b: VaRange)
    requires PoolOk(pool) && EntriesOk(pool, free) && WithinSome(b, pool) && b.len > 0 && n <= |free|
    ensures match Give(free, n, cap, b.start, End(b) % XM32_MAX_ADDR, b.len)
            case Given(f, false) => JoinedSomewhere(free, b, f)
            case Given(f, true) => InsertedSomewhere(free, b, f) && |free| != cap
            case Full => |free| == cap
            case FellOut => true
    decreases n
  {
    hide PoolOk, WithinSome;
    if n > 0 {
      TouchTests(pool, free[n - 1], b);
      if free[n - 1].start != End(b) && End(free[n - 1]) != b.start && free[n - 1].start >= b.start {
        GiveShape(pool, free, n - 1, cap, b);
      } else {
        var r := Give(free, n, cap, b.start, End(b) % XM32_MAX_ADDR, b.len);
        if r.Given? {
          assert Joined(free, n - 1, b, r.free') || Inserted(free, n, b, r.free');
        }
      }
    }
  }

  /** The search ends at a range that the block touches, or that starts below it. */
  predicate StopsAt(r: VaRange, b: VaRange) {
    r.start == End(b) || End(r) == b.start || r.start < b.start
  }

  /** Block b has been given back at range k, the last where the search can end: the range above
      or below has been joined to it, or it has its own entry after one that starts below it. */
  ghost predicate PutBack(free: seq<VaRange>, b: VaRange, k: int, f: seq<VaRange>) {
    && 0 <= k < |free| && StopsAt(free[k], b) && (forall j :: k < j < |free| ==> !StopsAt(free[j], b))
    && if free[k].start == End(b) then f == free[k := VaRange(b.start, b.len + free[k].len)]
       else if End(free[k]) == b.start then f == free[k := VaRange(free[k].start, free[k].len + b.len)]
       else f == free[..k + 1] + [b] + free[k + 1..]
  }

  /** There, an entry is needed. */
  ghost predicate NeedsEntry(free: seq<VaRange>, b: VaRange) {
    exists k :: 0 <= k < |free| && StopsAt(free[k], b) && free[k].start != End(b) && End(free[k]) != b.start
      && forall j :: k < j < |free| ==> !StopsAt(free[j], b)
  }

  ghost predicate GivenBack(free: seq<VaRange>, b: VaRange, f: seq<VaRange>) {
    exists k :: PutBack(free, b, k, f)
  }

  lemma {:induction false} GiveMeans(pool: seq<VaRange>, free: seq<VaRange>, n: nat, cap: nat, b: VaRange)
    requires PoolOk(pool) && EntriesOk(pool, free) && WithinSome(b, pool) && b.len > 0 && n <= |free|
    requires forall j :: n <= j < |free| ==> !StopsAt(free[j], b)
    ensures match Give(free, n, cap, b.start, End(b) % XM32_MAX_ADDR, b.len)
            case Given(f, inserted) =>
              GivenBack(free, b, f) && (inserted <==> NeedsEntry(free, b)) && (inserted ==> |free| != cap)
            case Full => NeedsEntry(free, b) && |free| == cap
            case FellOut => forall j :: 0 <= j < |free| ==> !StopsAt(free[j], b)
    decreases n
  {
    hide PoolOk, WithinSome;
    if n > 0 {
      TouchTests(pool, free[n - 1], b);
      if !StopsAt(free[n - 1], b) {
        GiveMeans(pool, free, n - 1, cap, b);
      } else {
        var r := Give(free, n, cap, b.start, End(b) % XM32_MAX_ADDR, b.len);
        if r.Given? {
          assert PutBack(free, b, n - 1, r.free');
        }
        StopIsLast(free, b, n - 1);
      }
    }
  }

  lemma StopIsLast(free: seq<VaRange>, b: VaRange, k: int)
    requires 0 <= k < |free| && StopsAt(free[k], b) && forall j :: k < j < |free| ==> !StopsAt(free[j], b)
    ensures NeedsEntry(free, b) <==> free[k].start != End(b) && End(free[k]) != b.start
  {
  }

  /** How a live block is given back. */
  lemma GiveIff(pool: seq<VaRange>, free: seq<VaRange>, live: Live, cap: nat, v: nat)
    requires Partition(pool, free, live) && v in live
    ensures var b := live[v].range;
            match Give(free, |free|, cap, b.start, End(b) % XM32_MAX_ADDR, b.len)
            case Given(f, _) => GivenBack(free, b, f) && !(NeedsEntry(free, b) && |free| == cap)
            case Full => NeedsEntry(free, b) && |free| == cap
            case FellOut => false
  {
    hide FreeApartLive, LiveOk, PoolOk, Give, EntriesOk, GivenBack, Anchored, EntriesApart, Cover, NeedsEntry;
    GiveNeverFallsOut(pool, free, live, cap, v);
    LiveBlock(pool, free, live, v);
    GiveMeans(pool, free, |free|, cap, live[v].range);
  }

  /** The search ends at the latest at the entry that starts the region of the block. */
  lemma {:induction false} GiveEnds(pool: seq<VaRange>, free: seq<VaRange>, n: nat, cap: nat, b: VaRange, i: nat)
    requires PoolOk(pool) && EntriesOk(pool, free) && WithinSome(b, pool) && b.len > 0
    requires i < n <= |free| && free[i].start <= b.start && Apart(free[i], b)
    ensures Give(free, n, cap, b.start, End(b) % XM32_MAX_ADDR, b.len) != FellOut
    decreases n
  {
    hide PoolOk, WithinSome;
    TouchTests(pool, free[n - 1], b);
    if i < n - 1 {
      GiveEnds(pool, free, n - 1, cap, b, i);
    }
  }

  /** Unmapping a live block never runs off the free list, in whatever order its entries are. */
  lemma GiveNeverFallsOut(pool: seq<VaRange>, free: seq<VaRange>, live: Live, cap: nat, v: nat)
    requires Partition(pool, free, live) && v in live
    ensures var b := live[v].range;
            Give(free, |free|, cap, b.start, End(b) % XM32_MAX_ADDR, b.len) != FellOut
  {
    hide FreeApartLive, LiveOk, FreeOk, PoolOk, Give, EntriesOk;
    LiveBlock(pool, free, live, v);
    var i := AnchorOf(pool, free, live[v].range);
    LiveApartFree(free, live, v);
    GiveEnds(pool, free, |free|, cap, live[v].range, i);
  }

  lemma AnchorOf(pool: seq<VaRange>, free: seq<VaRange>, b: VaRange) returns (i: nat)
    requires FreeOk(pool, free) && WithinSome(b, pool)
    ensures i < |free| && free[i].start <= b.start
  {
    var k :| 0 <= k < |pool| && Within(b, pool[k]);
    assert StartsSome(pool[k].start, free);
    i :| 0 <= i < |free| && free[i].start == pool[k].start;
  }

  lemma JoinedAligned(r: VaRange, b: VaRange)
    requires Aligned(r) && Aligned(b)
    ensures Aligned(VaRange(b.start, r.len + b.len)) && Aligned(VaRange(r.start, r.len + b.len))
  {
  }

  lemma JoinEntriesOk(pool: seq<VaRange>, free: seq<VaRange>, i: nat, b: VaRange, f: seq<VaRange>)
    requires PoolOk(pool) && EntriesOk(pool, free) && Joined(free, i, b, f) && Aligned(b) && WithinSome(b, pool)
    ensures EntriesOk(pool, f)
  {
    assert End(b) == free[i].start ==> b.start < XM32_MAX_ADDR;
    hide Aligned, PoolOk, WithinSome;
    JoinedAligned(free[i], b);
    if End(b) == free[i].start && f == free[i := VaRange(b.start, free[i].len + b.len)] {
      TouchingWithinSome(pool, b, free[i]);
    } else {
      TouchingWithinSome(pool, free[i], b);
    }
  }

  lemma JoinEntriesApart(free: seq<VaRange>, i: nat, b: VaRange, f: seq<VaRange>)
    requires EntriesApart(free) && Joined(free, i, b, f) && b.len > 0
    requires forall j :: 0 <= j < |free| ==> Apart(free[j], b)
    ensures EntriesApart(f)
  {
    forall j, k | 0 <= j < k < |f| ensures Apart(f[j], f[k]) {
      assert Apart(free[j], free[k]);
      assert Apart(free[j], b) && Apart(free[k], b);
    }
  }

  lemma JoinAnchored(pool: seq<VaRange>, free: seq<VaRange>, i: nat, b: VaRange, f: seq<VaRange>)
    requires PoolOk(pool) && Anchored(pool, free) && Joined(free, i, b, f) && b.len > 0 && WithinSome(b, pool)
    ensures Anchored(pool, f)
  {
    hide PoolOk, WithinSome;
    forall k | 0 <= k < |pool| ensures StartsSome(pool[k].start, f) {
      assert StartsSome(pool[k].start, free);
      var j :| 0 <= j < |free| && free[j].start == pool[k].start;
      RegionStartStays(pool, b, k);
      assert f[j].start == pool[k].start;
    }
  }

  lemma JoinApart(free: seq<VaRange>, live: Live, i: nat, v: nat, f: seq<VaRange>)
    requires FreeApartLive(free, live) && v in live && Joined(free, i, live[v].range, f) && live[v].range.len > 0
    requires forall w :: w in live && w != v ==> Apart(live[v].range, live[w].range)
    ensures FreeApartLive(f, live - {v})
  {
    forall j, w | 0 <= j < |f| && w in live - {v} ensures Apart(f[j], (live - {v})[w].range) {
      assert Apart(free[j], live[w].range);
      assert Apart(live[v].range, live[w].range);
    }
  }

  lemma JoinCover(pool: seq<VaRange>, free: seq<VaRange>, live: Live, i: nat, v: nat, f: seq<VaRange>)
    requires Cover(pool, free, live) && v in live && Joined(free, i, live[v].range, f)
    ensures Cover(pool, f, live - {v})
  {
    var l := live - {v};
    forall a: int ensures (InSome(f, a) || InLive(l, a)) <==> (InSome(free, a) || InLive(live, a)) {
      if InSome(free, a) {
        var j :| 0 <= j < |free| && In(free[j], a);
        assert In(f[j], a);
      }
      if InLive(live, a) {
        var w :| w in live && In(live[w].range, a);
        assert w == v ==> In(f[i], a);
        assert w != v ==> In(l[w].range, a);
      }
      if InSome(f, a) {
        var j :| 0 <= j < |f| && In(f[j], a);
        assert In(free[j], a) || In(live[v].range, a);
      }
      if InLive(l, a) {
        var w :| w in l && In(l[w].range, a);
        assert In(live[w].range, a);
      }
    }
  }

  lemma JoinKeepsPartition(pool: seq<VaRange>, free: seq<VaRange>, live: Live, v: nat, f: seq<VaRange>)
    requires Partition(pool, free, live) && v in live && JoinedSomewhere(free, live[v].range, f)
    ensures Partition(pool, f, live - {v}) && |f| == |free|
  {
    hide EntriesOk, EntriesApart, Anchored, Cover, FreeApartLive, PoolOk, WithinSome, InSome;
    var b := live[v].range;
    var i: nat :| Joined(free, i, b, f);
    SpanPositive(live[v]);
    LiveApartFree(free, live, v);
    JoinEntriesOk(pool, free, i, b, f);
    JoinEntriesApart(free, i, b, f);
    JoinAnchored(pool, free, i, b, f);
    JoinApart(free, live, i, v, f);
    JoinCover(pool, free, live, i, v, f);
    LiveShrinks(pool, live, v);
  }

  lemma LiveApartFree(free: seq<VaRange>, live: Live, v: nat)
    requires FreeApartLive(free, live) && v in live
    ensures forall j :: 0 <= j < |free| ==> Apart(free[j], live[v].range)
  {
  }

  lemma LiveShrinks(pool: seq<VaRange>, live: Live, v: nat)
    requires LiveOk(pool, live)
    ensures LiveOk(pool, live - {v})
  {
  }

  // ---------------------------------------------------------------------------------------
  // A block as a new entry

  lemma InsertAt(free: seq<VaRange>, i: nat, b: VaRange, f: seq<VaRange>, j: nat)
    requires Inserted(free, i, b, f) && j < |f|
    ensures f[j] == if j < i then free[j] else if j == i then b else free[j - 1]
  {
  }

  lemma InsertContains(free: seq<VaRange>, i: nat, b: VaRange, f: seq<VaRange>, j: nat)
    requires Inserted(free, i, b, f) && j < |free|
    ensures free[j] == f[if j < i then j else j + 1]
  {
  }

  lemma InsertFreeOk(pool: seq<VaRange>, free: seq<VaRange>, i: nat, b: VaRange, f: seq<VaRange>)
    requires FreeOk(pool, free) && Inserted(free, i, b, f) && Aligned(b) && WithinSome(b, pool)
    requires b.start < XM32_MAX_ADDR
    requires forall j :: 0 <= j < |free| ==> Apart(free[j], b)
    ensures FreeOk(pool, f)
  {
    hide Aligned, WithinSome, Inserted;
    InsertLength(free, i, b, f);
    forall j | 0 <= j < |f| ensures Aligned(f[j]) && WithinSome(f[j], pool) && f[j].start < XM32_MAX_ADDR {
      InsertAt(free, i, b, f, j);
    }
    forall j, k | 0 <= j < k < |f| ensures Apart(f[j], f[k]) {
      InsertAt(free, i, b, f, j);
      InsertAt(free, i, b, f, k);
    }
    forall k | 0 <= k < |pool| ensures StartsSome(pool[k].start, f) {
      assert StartsSome(pool[k].start, free);
      var j :| 0 <= j < |free| && free[j].start == pool[k].start;
      InsertContains(free, i, b, f, j);
    }
  }

  lemma InsertLength(free: seq<VaRange>, i: nat, b: VaRange, f: seq<VaRange>)
    requires Inserted(free, i, b, f)
    ensures |f| == |free| + 1 && i <= |free|
  {
  }

  lemma InsertApart(free: seq<VaRange>, live: Live, i: nat, v: nat, f: seq<VaRange>)
    requires FreeApartLive(free, live) && v in live && Inserted(free, i, live[v].range, f)
    requires forall w :: w in live && w != v ==> Apart(live[v].range, live[w].range)
    ensures FreeApartLive(f, live - {v})
  {
    hide Inserted;
    InsertLength(free, i, live[v].range, f);
    forall j, w | 0 <= j < |f| && w in live - {v} ensures Apart(f[j], (live - {v})[w].range) {
      InsertAt(free, i, live[v].range, f, j);
    }
  }

  lemma InsertCover(pool: seq<VaRange>, free: seq<VaRange>, live: Live, i: nat, v: nat, f: seq<VaRange>)
    requires Cover(pool, free, live) && v in live && Inserted(free, i, live[v].range, f)
    ensures Cover(pool, f, live - {v})
  {
    var l := live - {v};
    var b := live[v].range;
    InsertLength(free, i, b, f);
    hide Inserted;
    forall a: int ensures (InSome(f, a) || InLive(l, a)) <==> (InSome(free, a) || InLive(live, a)) {
      if InSome(free, a) {
        var j :| 0 <= j < |free| && In(free[j], a);
        InsertContains(free, i, b, f, j);
      }
      if InLive(live, a) {
        var w :| w in live && In(live[w].range, a);
        InsertAt(free, i, b, f, i);
        assert w != v ==> In(l[w].range, a);
      }
      if InSome(f, a) {
        var j :| 0 <= j < |f| && In(f[j], a);
        InsertAt(free, i, b, f, j);
      }
      if InLive(l, a) {
        var w :| w in l && In(l[w].range, a);
        assert In(live[w].range, a);
      }
    }
  }

  lemma InsertKeepsPartition(pool: seq<VaRange>, free: seq<VaRange>, live: Live, v: nat, f: seq<VaRange>)
    requires Partition(pool, free, live) && v in live && InsertedSomewhere(free, live[v].range, f)
    ensures Partition(pool, f, live - {v}) && |f| == |free| + 1
  {
    hide FreeOk, Cover, FreeApartLive, PoolOk, WithinSome, InSome, Inserted;
    var b := live[v].range;
    var i: nat :| Inserted(free, i, b, f);
    LiveApartFree(free, live, v);
    InsertLength(free, i, b, f);
    LiveBlock(pool, free, live, v);
    PoolBounds(pool, b);
    InsertFreeOk(pool, free, i, b, f);
    InsertApart(free, live, i, v, f);
    InsertCover(pool, free, live, i, v, f);
    LiveShrinks(pool, live, v);
  }

  /** Unmapping a live block: the search finds a place for it unless a new entry is needed and
      the list is full, and the partition is kept. */
  lemma GiveKeepsPartition(pool: seq<VaRange>, free: seq<VaRange>, live: Live, cap: nat, v: nat)
    requires Partition(pool, free, live) && v in live && |free| <= cap
    ensures var b := live[v].range;
            match Give(free, |free|, cap, b.start, End(b) % XM32_MAX_ADDR, b.len)
            case Given(f, _) => Partition(pool, f, live - {v}) && |f| <= cap
            case Full => |free| == cap
            case FellOut => false
  {
    hide FreeOk, LiveOk, Cover, FreeApartLive, PoolOk, Give;
    var b := live[v].range;
    GiveNeverFallsOut(pool, free, live, cap, v);
    LiveBlock(pool, free, live, v);
    GiveShape(pool, free, |free|, cap, b);
    match Give(free, |free|, cap, b.start, End(b) % XM32_MAX_ADDR, b.len)
    case Given(f, true) => InsertKeepsPartition(pool, free, live, v, f);
    case Given(f, false) => JoinKeepsPartition(pool, free, live, v, f);
    case Full =>
    case FellOut =>
  }

  lemma LiveBlock(pool: seq<VaRange>, free: seq<VaRange>, live: Live, v: nat)
    requires Partition(pool, free, live) && v in live
    ensures PoolOk(pool) && EntriesOk(pool, free)
    ensures live[v].range.start == v && WithinSome(live[v].range, pool) && live[v].range.len > 0 && BlockOk(live[v])
  {
    SpanPositive(live[v]);
  }
}

/** Whole runs of mem_va_map and mem_va_unmap (stage2/mem.c:473-544), and what the invariant
    of VaSpace means for the bytes of a mapping. */
module VaRuns {
  import opened Machine
  import opened PageTable
  import opened VaPool
  import opened VaTranslation

  // ---------------------------------------------------------------------------------------
  // Bytes

  datatype Access = Fault | Address(pa: nat)

  /** The physical address that the processor reaches through virtual address a. */
  function Translate(m: Memory, pdpt: nat, a: nat): Access {
    match WalkPage(m, pdpt, a / 0x1000)
    case Absent => Fault
    case Mapped(l) => Address(l.frame + a % 0x1000)
  }

  lemma PageOfByte(q: nat, o: nat, k: nat)
    requires o < 0x1000
    ensures (q * 0x1000 + o + k) / 0x1000 == q + (o + k) / 0x1000
    ensures (q * 0x1000 + o + k) % 0x1000 == (o + k) % 0x1000
  {
  }

  /** A frame address that wrapped around at 2^64 is still a multiple of the page size. */
  lemma ByteOfFrame(pa: nat, o: nat, k: nat)
    requires o == pa % 0x1000
    ensures (pa - o + (o + k) / 0x1000 * 0x1000) % TWO64 + (o + k) % 0x1000 == (pa + k) % TWO64
  {
    var x := pa - o + (o + k) / 0x1000 * 0x1000;
    var y := (o + k) % 0x1000;
    assert x + y == pa + k;
    var q := x / 0x1000;
    assert x == q * 0x1000;
    var m := x / TWO64;
    assert x % TWO64 == (q - m * 0x10_0000_0000_0000) * 0x1000;
    assert x % TWO64 + y < TWO64;
  }

  lemma SpanHolds(pa: nat, sz: nat, k: nat)
    requires k < sz
    ensures pa % 0x1000 + k < Span(pa, sz)
  {
  }

  lemma PageIsIn(r: VaRange, q: nat, n: nat)
    requires r.start == q * 0x1000 && n < r.len && End(r) <= XM32_MAX_ADDR
    ensures In(r, (q + n / 0x1000) * 0x1000) && q + n / 0x1000 < 0x10_0000
  {
  }

  lemma LivePage(m: Memory, pdpt: nat, live: Live, v: nat, p: nat)
    requires LiveMapped(m, pdpt, live) && v in live && p < 0x10_0000 && In(live[v].range, p * 0x1000)
    ensures WalkPage(m, pdpt, p) == BlockPage(live[v], p)
  {
  }

  lemma LiveBounds(pool: seq<VaRange>, free: seq<VaRange>, live: Live, v: nat)
    requires Partition(pool, free, live) && v in live
    ensures live[v].range.start == v && v % 0x1000 == 0 && live[v].range.len == Span(live[v].pa, live[v].sz)
    ensures End(live[v].range) <= XM32_MAX_ADDR
  {
    hide Span, Partition;
    LiveBlock(pool, free, live, v);
    PoolBounds(pool, live[v].range);
  }

  /** Byte k of a live mapping of pa reaches physical byte pa + k, for every byte of it. */
  lemma LiveByte(m: Memory, pdpt: nat, pool: seq<VaRange>, free: seq<VaRange>, live: Live, v: nat, k: nat)
    requires v in live && k < live[v].sz && LiveMapped(m, pdpt, live)
    requires Partition(pool, free, live)
    ensures v + live[v].pa % 0x1000 + k < XM32_MAX_ADDR
    ensures Translate(m, pdpt, v + live[v].pa % 0x1000 + k) == Address((live[v].pa + k) % TWO64)
  {
    hide Partition, WalkPage, Span, Attr, LiveMapped, In;
    var b := live[v];
    var o := b.pa % 0x1000;
    var q := v / 0x1000;
    var p := q + (o + k) / 0x1000;
    LiveBounds(pool, free, live, v);
    SpanHolds(b.pa, b.sz, k);
    assert v == q * 0x1000;
    PageOfByte(q, o, k);
    PageIsIn(b.range, q, o + k);
    LivePage(m, pdpt, live, v, p);
    ByteOfFrame(b.pa, o, k);
  }

  // ---------------------------------------------------------------------------------------
  // Runs

  datatype Call = MapCall(pa: nat, sz: nat, flags: nat) | UnmapCall(v: nat)

  /** The lists after some calls, or the reason why the machine stopped. */
  datatype State = Lists(free: seq<VaRange>, live: Live) | HaltedFor(why: Reason)

  /** TooLarge and NoRange stop a mapping; NoEntry an unmapping that needs a new free entry
      when the list is full; Lost would be an unmapping that finds no place for its block. */
  datatype Reason = TooLarge | NoRange | NoEntry | Lost

  ghost predicate CallOk(c: Call) {
    c.MapCall? ==> c.pa < TWO64 && 0 < c.sz < XM32_MAX_ADDR && c.flags < 0x80
  }

  /** One call. An unmapping that matches no live mapping is not a legal call and is skipped. */
  ghost function Step(st: State, cap: nat, c: Call): State
    requires st.Lists?
  {
    match c
    case MapCall(pa, sz, flags) =>
      if Span(pa, sz) >= XM32_MAX_ADDR then HaltedFor(TooLarge)
      else
        (match Take(st.free, Span(pa, sz))
         case NoSpace => HaltedFor(NoRange)
         case Taken(_, v, f) => Lists(f, st.live[v := Block(VaRange(v, Span(pa, sz)), pa, sz, flags)]))
    case UnmapCall(v) =>
      if v !in st.live then st
      else
        var b := st.live[v].range;
        match Give(st.free, |st.free|, cap, b.start, End(b) % XM32_MAX_ADDR, b.len)
        case Given(f, _) => Lists(f, st.live - {v})
        case Full => HaltedFor(NoEntry)
        case FellOut => HaltedFor(Lost)
  }

  ghost function RunCalls(st: State, cap: nat, calls: seq<Call>): State
    decreases |calls|
  {
    if calls == [] || !st.Lists? then st else RunCalls(Step(st, cap, calls[0]), cap, calls[1..])
  }

  lemma StepKeepsPartition(pool: seq<VaRange>, st: State, cap: nat, c: Call)
    requires st.Lists? && |st.free| <= cap && CallOk(c)
    requires Partition(pool, st.free, st.live)
    ensures match Step(st, cap, c)
            case Lists(f, l) => Partition(pool, f, l) && |f| <= cap
            case HaltedFor(why) => why != Lost && (why == NoEntry ==> |st.free| == cap)
  {
    hide Partition, Take, Give;
    match c
    case MapCall(pa, sz, flags) =>
      var t := Take(st.free, Span(pa, sz));
      if Span(pa, sz) < XM32_MAX_ADDR && t.Taken? {
        TakenIsBlock(pool, st.free, st.live, c, t.start);
        TakeLength(st.free, Span(pa, sz));
      }
    case UnmapCall(v) =>
      if v in st.live {
        GiveKeepsPartition(pool, st.free, st.live, cap, v);
      }
  }

  lemma TakeLength(free: seq<VaRange>, span: nat)
    ensures Take(free, span).Taken? ==> |Take(free, span).free'| == |free|
  {
    TakeIndexIsLast(free, |free|, span);
  }

  lemma TakenIsBlock(pool: seq<VaRange>, free: seq<VaRange>, live: Live, c: Call, v: nat)
    requires c.MapCall? && CallOk(c)
    requires Take(free, Span(c.pa, c.sz)).Taken? && v == Take(free, Span(c.pa, c.sz)).start
    requires Partition(pool, free, live)
    ensures Partition(pool, Take(free, Span(c.pa, c.sz)).free',
                      live[v := Block(VaRange(v, Span(c.pa, c.sz)), c.pa, c.sz, c.flags)])
  {
    hide Take, Span, EntriesApart, Anchored, LiveOk, FreeApartLive, Cover, WithinSome, PoolOk;
    var span := Span(c.pa, c.sz);
    var b := Block(VaRange(v, span), c.pa, c.sz, c.flags);
    SpanAligned(c.pa, c.sz);
    TakenAligned(pool, free, span);
    TakeKeepsPartition(pool, free, live, b);
  }

  lemma SpanAligned(pa: nat, sz: nat)
    ensures Span(pa, sz) % 0x1000 == 0
  {
  }

  lemma TakenAligned(pool: seq<VaRange>, free: seq<VaRange>, span: nat)
    requires EntriesOk(pool, free) && Take(free, span).Taken? && span % 0x1000 == 0
    ensures Take(free, span).start % 0x1000 == 0
  {
    hide WithinSome;
    TakeIndexIsLast(free, |free|, span);
    CutAligned(free[Take(free, span).index], span);
  }

  /** In every run of mappings and matching unmappings, in any order, the free entries and the
      live blocks partition the pool: live blocks are disjoint, and an address of the pool is
      free exactly when no live block holds it. The search for a place never falls off the
      list; a run stops only for want of a range that is large enough, or of room for an entry. */
  lemma {:induction false} RunsStayPartitioned(pool: seq<VaRange>, st: State, cap: nat, calls: seq<Call>)
    requires forall c :: c in calls ==> CallOk(c)
    requires st.Lists? && |st.free| <= cap && Partition(pool, st.free, st.live)
    ensures match RunCalls(st, cap, calls)
            case Lists(f, l) => Partition(pool, f, l) && |f| <= cap
            case HaltedFor(why) => why != Lost
    decreases |calls|
  {
    hide Partition, Step;
    if calls != [] {
      StepKeepsPartition(pool, st, cap, calls[0]);
      var next := Step(st, cap, calls[0]);
      if next.Lists? {
        RunsStayPartitioned(pool, next, cap, calls[1..]);
      }
    }
  }
}

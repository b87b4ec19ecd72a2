/** Well-nested mapping and unmapping (stage2/mem.c:485-542), the way the ACPI code uses it. */
module VaNesting {
  import opened Machine
  import opened VaPool

  /** The free list as va_init leaves it, less what is mapped: one entry for each region, in
      order, starting where the region starts. */
  ghost predicate OnePerRegion(pool: seq<VaRange>, free: seq<VaRange>) {
    && |free| == |pool|
    && forall i :: 0 <= i < |pool| ==> free[i].start == pool[i].start && free[i].len <= pool[i].len
  }

  /** A well-nested program: nothing, or a mapping, a program run while it is there, its
      unmapping, and what follows. */
  datatype Program = Nothing | Nest(pa: nat, sz: nat, inner: Program, next: Program)

  datatype Ran = Ran(free: seq<VaRange>) | NoRoom | Failed

  /** Running a program on a free list that may grow to cap entries. */
  ghost function RunNested(free: seq<VaRange>, cap: nat, p: Program): Ran
    decreases p
  {
    match p
    case Nothing => Ran(free)
    case Nest(pa, sz, inner, next) =>
      var span := Span(pa, sz);
      match Take(free, span)
      case NoSpace => NoRoom
      case Taken(_, v, f) =>
        var r := RunNested(f, cap, inner);
        if !r.Ran? then r
        else
          match Give(r.free, |r.free|, cap, v, (v + span) % XM32_MAX_ADDR, span)
          case Given(g, false) => RunNested(g, cap, next)
          case _ => Failed
  }

  /** Sizes are positive, as mem_va_map ignores a mapping of size 0. */
  ghost predicate Positive(p: Program) {
    p.Nest? ==> p.sz > 0 && Positive(p.inner) && Positive(p.next)
  }

  lemma TakeKeepsOnePerRegion(pool: seq<VaRange>, free: seq<VaRange>, span: nat)
    requires OnePerRegion(pool, free) && Take(free, span).Taken?
    ensures OnePerRegion(pool, Take(free, span).free')
  {
    TakeIndexIsLast(free, |free|, span);
  }

  lemma NoMatchAbove(r: VaRange, b: VaRange)
    requires BMEM_MAX_ADDR <= b.start && b.len > 0 && End(b) < r.start && End(r) <= XM32_MAX_ADDR
    ensures r.start != End(b) % XM32_MAX_ADDR && End(r) % XM32_MAX_ADDR != b.start && r.start > b.start
  {
  }

  lemma MatchAt(r: VaRange, b: VaRange)
    requires BMEM_MAX_ADDR <= r.start && b.len > 0 && End(r) == b.start && End(b) <= XM32_MAX_ADDR
    ensures r.start != End(b) % XM32_MAX_ADDR && End(r) % XM32_MAX_ADDR == b.start
  {
  }

  lemma {:induction false} SearchSkipsHigher(pool: seq<VaRange>, free: seq<VaRange>, n: nat, cap: nat, i: nat,
                                             b: VaRange)
    requires PoolOk(pool) && OnePerRegion(pool, free) && i < n <= |free|
    requires pool[i].start <= b.start && End(b) <= End(pool[i]) && b.len > 0 && End(free[i]) == b.start
    ensures Give(free, n, cap, b.start, End(b) % XM32_MAX_ADDR, b.len)
            == Given(free[i := free[i].(len := free[i].len + b.len)], false)
    decreases n
  {
    hide End;
    RegionBounds(pool, free, i, n - 1, b);
    if i < n - 1 {
      NoMatchAbove(free[n - 1], b);
      SearchSkipsHigher(pool, free, n - 1, cap, i, b);
    } else {
      MatchAt(free[i], b);
    }
  }

  lemma RegionBounds(pool: seq<VaRange>, free: seq<VaRange>, i: nat, j: nat, b: VaRange)
    requires PoolOk(pool) && OnePerRegion(pool, free) && i <= j < |free|
    requires pool[i].start <= b.start && End(b) <= End(pool[i])
    ensures BMEM_MAX_ADDR <= free[i].start && BMEM_MAX_ADDR <= b.start
    ensures End(b) <= XM32_MAX_ADDR && End(free[j]) <= XM32_MAX_ADDR
    ensures i < j ==> End(b) < free[j].start
  {
  }

  /** Giving back the block just taken restores the free list entry for entry: the entries of
      higher regions never match, and none is inserted. */
  lemma GiveUndoesTake(pool: seq<VaRange>, free: seq<VaRange>, cap: nat, span: nat)
    requires PoolOk(pool) && OnePerRegion(pool, free) && span > 0 && Take(free, span).Taken?
    ensures var t := Take(free, span);
            Give(t.free', |t.free'|, cap, t.start, (t.start + span) % XM32_MAX_ADDR, span) == Given(free, false)
  {
    hide Give;
    var t := Take(free, span);
    TakeIndexIsLast(free, |free|, span);
    TakeKeepsOnePerRegion(pool, free, span);
    SearchSkipsHigher(pool, t.free', |t.free'|, cap, t.index, VaRange(t.start, span));
    var f := t.free';
    assert f[t.index := f[t.index].(len := f[t.index].len + span)] == free;
  }

  lemma SpanIsPositive(pa: nat, sz: nat)
    requires sz > 0
    ensures Span(pa, sz) >= 0x1000
  {
  }

  /** Any well-nested program leaves the free list as it found it, entry for entry, and stops
      early only for want of a free range; it never inserts an entry. */
  lemma {:induction false} NestedRestores(pool: seq<VaRange>, free: seq<VaRange>, cap: nat, p: Program)
    requires PoolOk(pool) && OnePerRegion(pool, free) && Positive(p)
    ensures RunNested(free, cap, p) == Ran(free) || RunNested(free, cap, p) == NoRoom
    decreases p
  {
    hide Take, Give, OnePerRegion, PoolOk;
    match p
    case Nothing =>
    case Nest(pa, sz, inner, next) =>
      var span := Span(pa, sz);
      SpanIsPositive(pa, sz);
      var t := Take(free, span);
      if t.Taken? {
        TakeKeepsOnePerRegion(pool, free, span);
        NestedRestores(pool, t.free', cap, inner);
        GiveUndoesTake(pool, free, cap, span);
        NestedRestores(pool, free, cap, next);
      }
  }
}

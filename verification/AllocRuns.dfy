/** What holds of every run of the physical allocator, and where its documented promise about
    the address limit fails. */
module AllocRuns {
  import opened Machine
  import opened MemMap

  // ---------------------------------------------------------------------------------------
  // Any sequence of allocations

  datatype Request = Request(sz: nat, align: nat, maxAddr: uint32)

  /** The block that a request got, and the end of the range it was the tail of. */
  datatype Block = Block(start: nat, end: nat, req: Request)

  datatype Run = Run(blocks: seq<Block>, final: seq<MemRange>, outcome: Outcome)

  /** The allocator serving a list of requests until one of them stops the machine. */
  ghost function Serve(s: seq<MemRange>, cap: nat, reqs: seq<Request>): Run
    requires MapOk(s) && |s| <= cap
    requires forall q :: q in reqs ==> q.align > 0
    decreases |reqs|
  {
    if reqs == [] then Run([], s, Done)
    else
      var q := reqs[0];
      match Alloc(s, cap, q.sz, q.align, q.maxAddr)
      case Null => Serve(s, cap, reqs[1..])
      case Stopped(why) => Run([], s, why)
      case Placed(i, a, t) =>
        AllocEffect(s, cap, q.sz, q.align, q.maxAddr);
        var r := Serve(t, cap, reqs[1..]);
        Run([Block(a, End(s[i]), q)] + r.blocks, r.final, r.outcome)
  }

  ghost predicate InRam(s: seq<MemRange>, b: Block) {
    exists i :: 0 <= i < |s| && IsRam(s[i]) && s[i].start <= b.start && b.end <= End(s[i])
  }

  predicate Apart(b: Block, c: Block) {
    b.end <= c.start || c.end <= b.start
  }

  /** The requests that are for a block at all: a request for no bytes gets NULL. */
  function Asking(reqs: seq<Request>): seq<Request> {
    if reqs == [] then [] else (if reqs[0].sz == 0 then [] else [reqs[0]]) + Asking(reqs[1..])
  }

  /** The block is aligned and of the size asked for, below 4 GiB, and within its limit, if that is
      at least 1 MiB. For lower limits see LimitRespectedIff. */
  predicate Answers(b: Block) {
    && 0 < b.req.sz && b.start + b.req.sz <= b.end <= XM32_MAX_ADDR
    && b.req.align > 0 && b.start % b.req.align == 0
    && (b.req.maxAddr >= BMEM_MAX_ADDR ==> b.start + b.req.sz <= b.req.maxAddr)
  }

  function Taken(blocks: seq<Block>): int {
    if blocks == [] then 0 else blocks[0].end - blocks[0].start + Taken(blocks[1..])
  }

  lemma RefinesTransitive(u: seq<MemRange>, t: seq<MemRange>, s: seq<MemRange>)
    requires Refines(u, t) && Refines(t, s)
    ensures Refines(u, s)
  {
    forall j | 0 <= j < |u| ensures InsideSome(u[j], s) {
      var k :| 0 <= k < |t| && Inside(u[j], t[k]);
      var i :| 0 <= i < |s| && Inside(t[k], s[i]);
      assert Inside(u[j], s[i]);
    }
  }

  lemma RefinesReflexive(s: seq<MemRange>)
    ensures Refines(s, s) && RamShrinks(s, s)
  {
    forall j | 0 <= j < |s| ensures InsideSome(s[j], s) {
      assert Inside(s[j], s[j]);
    }
  }

  /** Refining a map changes neither the addresses it covers nor their attributes. */
  lemma RefinesSameCover(t: seq<MemRange>, s: seq<MemRange>)
    requires Refines(t, s)
    ensures forall a, attr :: Covers(t, a, attr) <==> Covers(s, a, attr)
  {
    forall a, attr | Covers(t, a, attr) ensures Covers(s, a, attr) {
      var j :| 0 <= j < |t| && InRange(t[j], a) && t[j].uefiAttr == attr;
      var i :| 0 <= i < |s| && Inside(t[j], s[i]);
      assert InRange(s[i], a) && s[i].uefiAttr == attr;
    }
  }

  lemma NoRamSeparates(s: seq<MemRange>, b: Block, c: Block)
    requires NoRam(s, b.start, b.end) && InRam(s, c) && b.start < b.end && c.start < c.end
    ensures Apart(b, c)
  {
  }

  /** The blocks answer the first of the requests, in order; all of them if the run is done. */
  ghost predicate InOrder(reqs: seq<Request>, r: Run) {
    && |r.blocks| <= |Asking(reqs)| && (r.outcome == Done ==> |r.blocks| == |Asking(reqs)|)
    && forall i :: 0 <= i < |r.blocks| ==> r.blocks[i].req == Asking(reqs)[i] && Answers(r.blocks[i])
  }

  ghost predicate RunSafe(s: seq<MemRange>, cap: nat, r: Run) {
    && MapOk(r.final) && |r.final| <= cap && Refines(r.final, s)
    && RamShrinks(r.final, s)
    && (forall i :: 0 <= i < |r.blocks| ==>
          && r.blocks[i].start < r.blocks[i].end
          && InRam(s, r.blocks[i]) && NoRam(r.final, r.blocks[i].start, r.blocks[i].end))
    && (forall i, j :: 0 <= i < j < |r.blocks| ==> Apart(r.blocks[i], r.blocks[j]))
    && RamBytes(r.final) == RamBytes(s) - Taken(r.blocks)
  }

  /** In every run: each request gets a block of its size, aligned, and within its limit; blocks
      are carved from RAM, pairwise disjoint and never RAM again; the map keeps its invariant,
      the addresses it covers and their attributes; and RAM shrinks by exactly the bytes taken. */
  lemma {:induction false} EveryRunSafe(s: seq<MemRange>, cap: nat, reqs: seq<Request>)
    requires MapOk(s) && |s| <= cap
    requires forall q :: q in reqs ==> q.align > 0
    ensures RunSafe(s, cap, Serve(s, cap, reqs)) && InOrder(reqs, Serve(s, cap, reqs))
    decreases |reqs|
  {
    hide Alloc, RunSafe, Carved, MapOk, InOrder, Answers;
    if reqs == [] {
      EmptyRunSafe(s, cap, reqs, Done);
    } else {
      var q := reqs[0];
      match Alloc(s, cap, q.sz, q.align, q.maxAddr)
      case Null =>
        EveryRunSafe(s, cap, reqs[1..]);
        NullThenRun(reqs, Serve(s, cap, reqs[1..]));
      case Stopped(why) =>
        EmptyRunSafe(s, cap, reqs, why);
      case Placed(i, a, t) =>
        AllocEffect(s, cap, q.sz, q.align, q.maxAddr);
        AllocAnswers(s, cap, q);
        EveryRunSafe(t, cap, reqs[1..]);
        StepThenRun(s, t, cap, Block(a, End(s[i]), q), Serve(t, cap, reqs[1..]));
        BlockThenRun(reqs, Block(a, End(s[i]), q), Serve(t, cap, reqs[1..]));
    }
  }

  lemma AllocAnswers(s: seq<MemRange>, cap: nat, q: Request)
    requires MapOk(s) && |s| <= cap && q.sz > 0 && q.align > 0
    requires Alloc(s, cap, q.sz, q.align, q.maxAddr).Placed?
    ensures var r := Alloc(s, cap, q.sz, q.align, q.maxAddr);
            r.index < |s| && Answers(Block(r.start, End(s[r.index]), q))
  {
    hide Alloc, MapOk, Carved;
    AllocEffect(s, cap, q.sz, q.align, q.maxAddr);
    if q.maxAddr == 0 || q.maxAddr >= BMEM_MAX_ADDR {
      AllocIsHighestFit(s, cap, q.sz, q.align, q.maxAddr);
    }
  }

  lemma NullThenRun(reqs: seq<Request>, r: Run)
    requires reqs != [] && reqs[0].sz == 0 && InOrder(reqs[1..], r)
    ensures InOrder(reqs, r)
  {
    assert Asking(reqs) == Asking(reqs[1..]);
  }

  lemma BlockThenRun(reqs: seq<Request>, b: Block, r: Run)
    requires reqs != [] && b.req == reqs[0] && Answers(b) && InOrder(reqs[1..], r)
    ensures InOrder(reqs, Run([b] + r.blocks, r.final, r.outcome))
  {
    assert Asking(reqs) == [reqs[0]] + Asking(reqs[1..]);
  }

  lemma EmptyRunSafe(s: seq<MemRange>, cap: nat, reqs: seq<Request>, why: Outcome)
    requires MapOk(s) && |s| <= cap && (why == Done ==> reqs == [])
    ensures RunSafe(s, cap, Run([], s, why)) && InOrder(reqs, Run([], s, why))
  {
    RefinesReflexive(s);
  }

  lemma StepThenRun(s: seq<MemRange>, t: seq<MemRange>, cap: nat, b: Block, r: Run)
    requires Carved(s, t, b.start, b.end) && InRam(s, b) && b.start < b.end
    requires RunSafe(t, cap, r)
    ensures RunSafe(s, cap, Run([b] + r.blocks, r.final, r.outcome))
  {
    var blocks := [b] + r.blocks;
    RefinesTransitive(r.final, t, s);
    ShrinkingTransitive(r.final, t, s);
    ShrinkingKeepsNoRam(r.final, t);
    forall i | 0 <= i < |r.blocks| ensures InRam(s, r.blocks[i]) && Apart(b, r.blocks[i]) {
      NoRamSeparates(t, b, r.blocks[i]);
      RamWasRam(s, t, r.blocks[i]);
    }
    assert blocks[1..] == r.blocks;
    forall i, j | 0 <= i < j < |blocks| ensures Apart(blocks[i], blocks[j]) {
      if i > 0 {
        assert Apart(r.blocks[i - 1], r.blocks[j - 1]);
      }
    }
  }

  lemma ShrinkingTransitive(u: seq<MemRange>, t: seq<MemRange>, s: seq<MemRange>)
    requires RamShrinks(u, t) && RamShrinks(t, s)
    ensures RamShrinks(u, s)
  {
    forall j | 0 <= j < |u| && IsRam(u[j]) ensures StartsRamOf(u[j], s) {
      var k :| 0 <= k < |t| && IsRam(t[k]) && t[k].start == u[j].start && End(u[j]) <= End(t[k]);
      assert StartsRamOf(t[k], s);
    }
  }

  lemma RamWasRam(s: seq<MemRange>, t: seq<MemRange>, c: Block)
    requires RamShrinks(t, s) && InRam(t, c)
    ensures InRam(s, c)
  {
  }

  // ---------------------------------------------------------------------------------------
  // The address limit below 1 MiB

  predicate EndsWithin(r: AllocResult, sz: nat, max: nat) {
    r.Placed? ==> r.start + sz <= max
  }

  /** Every request with limit max that gets a block gets one that ends at or below max. */
  ghost predicate LimitRespected(s: seq<MemRange>, cap: nat, max: uint32)
    requires MapOk(s) && max > 0
  {
    forall sz: nat, align: nat :: sz > 0 && IsPow2(align) ==> EndsWithin(Alloc(s, cap, sz, align, max), sz, max)
  }

  /** r is the highest RAM range among the first top + 1. */
  ghost predicate HighestRam(s: seq<MemRange>, top: nat, j: nat) {
    j <= top < |s| && IsRam(s[j]) && forall k :: j < k <= top ==> !IsRam(s[k])
  }

  /** The highest RAM range at or below the range that the search returns ends within max. */
  ghost predicate TopRamWithin(s: seq<MemRange>, max: nat)
    requires |s| > 0
  {
    match FindHighestBelow(s, max)
    case NotFound => true
    case Found(top) =>
      forall j: nat :: HighestRam(s, top, j) ==> End(s[j]) <= max
  }

  /** With room in the map, the promise that a block ends within its limit holds of every
      request with that limit exactly when one range, known before the call, does. */
  lemma LimitRespectedIff(s: seq<MemRange>, cap: nat, max: uint32)
    requires MapOk(s) && max > 0 && |s| < cap
    ensures LimitRespected(s, cap, max) <==> TopRamWithin(s, max)
  {
    hide Alloc, FindHighestBelow;
    if TopRamWithin(s, max) {
      forall sz: nat, align: nat | sz > 0 && IsPow2(align)
        ensures EndsWithin(Alloc(s, cap, sz, align, max), sz, max)
      {
        Pow2Positive(align);
        WithinFromTop(s, cap, max, sz, align);
      }
    } else {
      OneIsPow2();
      OverrunByOneByte(s, cap, max);
    }
  }

  lemma Pow2Positive(a: nat)
    requires IsPow2(a)
    ensures a > 0
  {
  }

  lemma OverrunByOneByte(s: seq<MemRange>, cap: nat, max: uint32)
    requires MapOk(s) && max > 0 && |s| < cap && !TopRamWithin(s, max)
    ensures !EndsWithin(Alloc(s, cap, 1, 1, max), 1, max)
  {
    hide Scan, Fits, FindHighestBelow, MaskDown, SplitRange;
    var top := FindHighestBelow(s, max).index;
    FoundBelow(s, max);
    var j: nat :| HighestRam(s, top, j) && End(s[j]) > max;
    ScanFindsFit(s, top, 1, 1);
    AlignedBlockFits(s[j], 1, 1, End(s[j]) - 1);
    CandidateIsTopFit(s, 1, 1, max);
    var c := Scan(s, top, 1, 1);
    assert c.At? && c.index == j by {
      assert c.At? ==> IsRam(s[c.index]) by { FitIsRam(s, 1, 1); }
    }
  }

  lemma FitIsRam(s: seq<MemRange>, sz: nat, align: nat)
    requires align > 0
    ensures forall k :: 0 <= k < |s| && Fits(s[k], sz, align) ==> IsRam(s[k])
  {
  }

  lemma WithinFromTop(s: seq<MemRange>, cap: nat, max: uint32, sz: nat, align: nat)
    requires MapOk(s) && max > 0 && sz > 0 && align > 0 && TopRamWithin(s, max)
    ensures EndsWithin(Alloc(s, cap, sz, align, max), sz, max)
  {
    hide Scan, FindHighestBelow, MaskDown, SplitRange;
    if max >= sz && FindHighestBelow(s, max).Found? {
      var top := FindHighestBelow(s, max).index;
      FoundBelow(s, max);
      ScanFindsFit(s, top, sz, align);
      CandidateIsTopFit(s, sz, align, max);
      var c := Candidates(s, sz, align, max);
      if c.At? {
        HighestRamEndsHighest(s, max, top, c.index);
      }
    }
  }

  lemma {:induction false} HighestRamEndsHighest(s: seq<MemRange>, max: nat, top: nat, i: nat)
    requires i <= top < |s| && IsRam(s[i])
    requires forall j, k :: 0 <= j < k < |s| && IsRam(s[j]) && IsRam(s[k]) ==> End(s[j]) <= s[k].start
    requires forall j: nat :: HighestRam(s, top, j) ==> End(s[j]) <= max
    ensures End(s[i]) <= max
    decreases top - i
  {
    if exists k :: i < k <= top && IsRam(s[k]) {
      var k :| i < k <= top && IsRam(s[k]);
      HighestRamEndsHighest(s, max, top, k);
    } else {
      assert HighestRam(s, top, i);
    }
  }

  // In a full map only whole ranges can be given out, which needs no new entry.

  /** The greatest power of two that divides x. */
  function LowBit(x: nat): (a: nat)
    requires x > 0
    ensures IsPow2(a) && x % a == 0
  {
    if x % 2 == 1 then 1
    else
      ModDouble(x, LowBit(x / 2));
      2 * LowBit(x / 2)
  }

  lemma {:induction false} LowBitIsGreatest(x: nat, a: nat)
    requires x > 0 && IsPow2(a) && x % a == 0
    ensures a <= LowBit(x) && LowBit(x) % a == 0
    decreases a
  {
    if a > 1 {
      ModDouble(x, a / 2);
      LowBitIsGreatest(x / 2, a / 2);
      ModDouble(LowBit(x), a / 2);
    }
  }

  /** The most that can be asked for of range r with the limit: all of it, or max bytes. */
  function Most(r: MemRange, max: nat): nat {
    if r.len < max then r.len else max
  }

  /** Range i can be given out whole to a request that it takes above the limit, and no higher
      range, up to top, can serve that request. */
  ghost predicate WholeOverruns(s: seq<MemRange>, top: nat, max: nat, i: nat) {
    && i <= top < |s| && IsRam(s[i]) && 0 < s[i].start && max < End(s[i])
    && End(s[i]) - Most(s[i], max) < s[i].start + LowBit(s[i].start)
    && forall k :: i < k <= top ==> !Fits(s[k], Most(s[i], max), LowBit(s[i].start))
  }

  ghost predicate NoWholeOverruns(s: seq<MemRange>, max: nat)
    requires |s| > 0
  {
    match FindHighestBelow(s, max)
    case NotFound => true
    case Found(top) => forall i: nat :: !WholeOverruns(s, top, max, i)
  }

  /** In a full map the promise holds exactly when no range that can be given out whole breaks
      it. */
  lemma FullLimitRespectedIff(s: seq<MemRange>, max: uint32)
    requires MapOk(s) && max > 0
    ensures LimitRespected(s, |s|, max) <==> NoWholeOverruns(s, max)
  {
    hide Alloc, FindHighestBelow, WholeOverruns, EndsWithin;
    if NoWholeOverruns(s, max) {
      forall sz: nat, align: nat | sz > 0 && IsPow2(align)
        ensures EndsWithin(Alloc(s, |s|, sz, align, max), sz, max)
      {
        WithinIfNoWhole(s, max, sz, align);
      }
    } else {
      var top := FindHighestBelow(s, max).index;
      var i: nat :| WholeOverruns(s, top, max, i);
      WholeIsPlaced(s, max, i);
    }
  }

  lemma WholeIsPlaced(s: seq<MemRange>, max: uint32, i: nat)
    requires MapOk(s) && max > 0 && FindHighestBelow(s, max).Found?
    requires WholeOverruns(s, FindHighestBelow(s, max).index, max, i)
    ensures s[i].start > 0 && Most(s[i], max) > 0
    ensures !EndsWithin(Alloc(s, |s|, Most(s[i], max), LowBit(s[i].start), max), Most(s[i], max), max)
  {
    hide Scan, FindHighestBelow, MaskDown, SplitRange, LowBit, Fits;
    var top := FindHighestBelow(s, max).index;
    var sz, align := Most(s[i], max), LowBit(s[i].start);
    FoundBelow(s, max);
    assert RangeOk(s[i]);
    WholeFits(s[i], sz, align);
    ScanFindsFit(s, top, sz, align);
    CandidateIsTopFit(s, sz, align, max);
  }

  lemma WholeFits(r: MemRange, sz: nat, align: nat)
    requires IsRam(r) && align > 0 && 0 < sz <= r.len && r.start % align == 0 && End(r) - sz < r.start + align
    ensures Fits(r, sz, align) && MaskDown(End(r) - sz, align) == r.start
  {
    AlignedBlockFits(r, sz, align, r.start);
    MaskDownIsMultiple(End(r) - sz, align);
    if MaskDown(End(r) - sz, align) > r.start {
      MultiplesApart(r.start, MaskDown(End(r) - sz, align), align);
    }
  }

  lemma WithinIfNoWhole(s: seq<MemRange>, max: uint32, sz: nat, align: nat)
    requires MapOk(s) && max > 0 && sz > 0 && IsPow2(align) && NoWholeOverruns(s, max)
    ensures EndsWithin(Alloc(s, |s|, sz, align, max), sz, max)
  {
    hide Scan, FindHighestBelow, MaskDown, SplitRange, Fits, WholeOverruns, IsPow2;
    Pow2Positive(align);
    CandidateIsTopFit(s, sz, align, max);
    var r := Alloc(s, |s|, sz, align, max);
    if r.Placed? && r.start + sz > max {
      var i := r.index;
      var top := FindHighestBelow(s, max).index;
      FoundBelow(s, max);
      ScanFindsFit(s, top, sz, align);
      FitIsInside(s[i], sz, align);
      MaskDownIsMultiple(End(s[i]) - sz, align);
      OverrunIsWhole(s, top, max, i, sz, align);
    }
  }

  lemma OverrunIsWhole(s: seq<MemRange>, top: nat, max: nat, i: nat, sz: nat, align: nat)
    requires i <= top < |s| && 0 < sz <= max && IsPow2(align) && align > 0
    requires Fits(s[i], sz, align) && MaskDown(End(s[i]) - sz, align) == s[i].start && s[i].start + sz > max
    requires forall k :: i < k <= top ==> !Fits(s[k], sz, align)
    ensures WholeOverruns(s, top, max, i)
  {
    var big, low := Most(s[i], max), LowBit(s[i].start);
    MaskDownIsMultiple(End(s[i]) - sz, align);
    LowBitIsGreatest(s[i].start, align);
    forall k | i < k <= top ensures !Fits(s[k], big, low) {
      if Fits(s[k], big, low) {
        FitsLess(s[k], big, low, sz, align);
      }
    }
  }

  /** What holds a large block with a strict alignment holds a smaller one with a laxer one. */
  lemma FitsLess(r: MemRange, big: nat, low: nat, sz: nat, align: nat)
    requires low > 0 && align > 0 && low % align == 0 && sz <= big && Fits(r, big, low)
    ensures Fits(r, sz, align)
  {
    var b := MaskDown(End(r) - big, low);
    MaskDownIsMultiple(End(r) - big, low);
    MultipleOfMultiple(b, low, align);
    AlignedBlockFits(r, sz, align, b);
  }

  lemma MultipleOfMultiple(b: nat, low: nat, align: nat)
    requires low > 0 && align > 0 && low % align == 0 && b % low == 0
    ensures b % align == 0
  {
    var p, q := b / low, low / align;
    assert b == p * low && low == q * align;
    assert b == p * q * align + 0;
    MultipleMod(p * q, align, 0);
  }

  /** RAM up to 576 KiB, a page of it also listed as RESERVED. */
  const OVERLAP: seq<MemRange> :=
    [MemRange(0, 0x9_0000, E820_RAM, 1, 1), MemRange(0x1000, 0x1000, E820_RESERVED, 1, 1)]

  lemma OverlapOk()
    ensures MapOk(OVERLAP) && SortedByStart(OVERLAP)
  {
  }

  lemma OverlapSearch(max: nat)
    requires max == 0x3000 || max == XM32_MAX_ADDR
    ensures FindHighestBelow(OVERLAP, max) == Found(1)
  {
    assert Bisect(OVERLAP, max, 0, 2) == Bisect(OVERLAP, max, 1, 2) == 1;
  }

  lemma OverlapWalk()
    ensures Scan(OVERLAP, 1, 0x1000, 0x1000) == Candidate.At(0, 0x8_f000)
  {
    assert TopFit(OVERLAP[0], 0x1000, 0x1000) == 0x8_f000;
    assert Scan(OVERLAP, 0, 0x1000, 0x1000) == Candidate.At(0, 0x8_f000);
  }

  lemma OverlapAlloc(maxAddr: uint32)
    requires maxAddr == 0x3000 || maxAddr == 0
    ensures MapOk(OVERLAP)
    ensures Alloc(OVERLAP, 16, 0x1000, 0x1000, maxAddr)
            == Placed(0, 0x8_f000, SplitRange(OVERLAP, 0, 0x8_f000, E820_RAM, E820_RESERVED))
  {
    OverlapOk();
    OverlapSearch(Limit(maxAddr));
    OverlapWalk();
    hide Scan, FindHighestBelow, MapOk, SplitRange;
  }

  /** An instance: a page asked for below 12 KiB is the last page of RAM. */
  lemma LimitOverrun()
    ensures MapOk(OVERLAP)
    ensures var r := Alloc(OVERLAP, 16, 0x1000, 0x1000, 0x3000);
            r.Placed? && r.start == 0x8_f000 && !EndsWithin(r, 0x1000, 0x3000)
  {
    hide Alloc, MapOk, SplitRange;
    OverlapAlloc(0x3000);
  }

  // ---------------------------------------------------------------------------------------
  // Two more consequences of overlap and of walking down

  /** An instance of a map that an allocation takes out of order. */
  lemma SplitUnsorts()
    ensures MapOk(OVERLAP) && SortedByStart(OVERLAP)
    ensures var r := Alloc(OVERLAP, 16, 0x1000, 0x1000, 0); r.Placed? && !SortedByStart(r.map')
  {
    OverlapOk();
    hide Alloc, MapOk;
    OverlapAlloc(0);
    var t := SplitRange(OVERLAP, 0, 0x8_f000, E820_RAM, E820_RESERVED);
    assert t[1].start == 0x8_f000 && t[2].start == 0x1000;
  }

  /** No range from the one that the search returns down can hold the block. */
  ghost predicate NoneFitsBelow(s: seq<MemRange>, max: nat, sz: nat, align: nat)
    requires |s| > 0 && align > 0
  {
    match FindHighestBelow(s, max)
    case NotFound => false
    case Found(top) => forall j :: 0 <= j <= top ==> !Fits(s[j], sz, align)
  }

  /** mem_alloc reads below its array exactly when the search finds a range, but none from there
      down can hold the block. */
  lemma WalksOffIff(s: seq<MemRange>, cap: nat, sz: nat, align: nat, maxAddr: uint32)
    requires MapOk(s) && sz > 0 && align > 0
    ensures var max := if maxAddr == 0 then 0x1_0000_0000 else maxAddr;
            Alloc(s, cap, sz, align, maxAddr) == Stopped(Undefined) <==> sz <= max && NoneFitsBelow(s, max, sz, align)
  {
    hide Scan, FindHighestBelow, MaskDown, SplitRange, Fits;
    if sz <= Limit(maxAddr) && FindHighestBelow(s, Limit(maxAddr)).Found? {
      var top := FindHighestBelow(s, Limit(maxAddr)).index;
      FoundBelow(s, Limit(maxAddr));
      ScanFindsFit(s, top, sz, align);
      CandidateIsTopFit(s, sz, align, maxAddr);
    }
  }

  /** An instance: more is asked for than any RAM range has. */
  lemma WalksOff()
    ensures var s := [MemRange(0, 0x9_0000, E820_RAM, 1, 1)];
            MapOk(s) && Alloc(s, 16, 0x10_0000, 0x1000, 0) == Stopped(Undefined)
  {
    var s := [MemRange(0, 0x9_0000, E820_RAM, 1, 1)];
    assert FindHighestBelow(s, XM32_MAX_ADDR) == Found(0);
    WalksOffIff(s, 16, 0x10_0000, 0x1000, 0);
  }
}

/** Base memory as stage 1 manages it, on values (stage1/bmem.c:57-93, 265-329): blocks taken
    from the top for run time and from the bottom for boot time, and two watermarks. */
module BmemSpec {
  import opened Machine

  /** A run of grabbed pages: what is free of it, [start, end), and where it ended at first. */
  datatype Blk = Blk(start: nat, end: nat, origEnd: nat)

  /** Memory that has been given out. */
  datatype Use = Use(start: nat, end: nat, runTime: bool)

  datatype Run = Run(start: nat, end: nat)

  predicate Apart(a: nat, b: nat, c: nat, d: nat) {
    a >= b || c >= d || b <= c || d <= a
  }

  /** Maximal runs of grabbed pages, without page 0. */
  ghost predicate RunsOk(runs: seq<Run>) {
    && (forall i :: 0 <= i < |runs| ==> PAGE_SIZE <= runs[i].start < runs[i].end <= BMEM_MAX_ADDR)
    && (forall i, j :: 0 <= i < j < |runs| ==> runs[i].end < runs[j].start)
  }

  ghost predicate InRun(runs: seq<Run>, start: nat, end: nat) {
    exists i :: 0 <= i < |runs| && runs[i].start <= start && end <= runs[i].end
  }

  ghost predicate BlksOk(runs: seq<Run>, s: seq<Blk>) {
    && (forall i :: 0 <= i < |s| ==> s[i].start <= s[i].end <= s[i].origEnd && InRun(runs, s[i].start, s[i].origEnd))
    && (forall i, j :: 0 <= i < j < |s| ==> s[i].origEnd < s[j].start)
  }

  /** No free block straddles the run-time watermark. */
  ghost predicate NoneStraddles(s: seq<Blk>, top: nat) {
    forall i :: 0 <= i < |s| ==> s[i].end <= top || top <= s[i].start
  }

  /** Every cut for run time lies at or above the watermark. */
  ghost predicate CutsAbove(s: seq<Blk>, top: nat) {
    forall i :: 0 <= i < |s| && s[i].end < s[i].origEnd ==> top <= s[i].end
  }

  predicate UseOk(u: Use, bot: nat, top: nat) {
    u.start <= u.end && (if u.runTime then top <= u.start else u.end <= bot)
  }

  ghost predicate UsesOk(runs: seq<Run>, used: seq<Use>, bot: nat, top: nat) {
    && (forall k :: 0 <= k < |used| ==> UseOk(used[k], bot, top) && InRun(runs, used[k].start, used[k].end))
    && (forall k, l :: 0 <= k < l < |used| ==> Apart(used[k].start, used[k].end, used[l].start, used[l].end))
  }

  ghost predicate UsedApartFree(s: seq<Blk>, used: seq<Use>) {
    forall i, k :: 0 <= i < |s| && 0 <= k < |used| ==> Apart(used[k].start, used[k].end, s[i].start, s[i].end)
  }

  /** The invariant of base memory. */
  ghost predicate BmemOk(runs: seq<Run>, s: seq<Blk>, used: seq<Use>, bot: nat, top: nat) {
    && RunsOk(runs) && BlksOk(runs, s) && NoneStraddles(s, top) && CutsAbove(s, top)
    && UsesOk(runs, used, bot, top) && UsedApartFree(s, used)
  }

  predicate Aligned(x: nat, align: nat) {
    align > 0 && x % align == 0
  }

  lemma MaskDownAligned(x: nat, align: nat)
    requires align > 0
    ensures Aligned(MaskDown(x, align), align)
  {
    MaskDownIsMultiple(x, align);
  }

  // ---------------------------------------------------------------------------------------
  // bmem_alloc

  datatype Found = At(index: nat, start: nat) | Nowhere

  predicate RunTimeFits(b: Blk, size: nat, align: nat)
    requires align > 0
  {
    b.start <= b.end && size <= b.end - b.start && b.start <= MaskDown(b.end - size, align)
  }

  /** The highest of the first n blocks that fits. */
  function FindTop(s: seq<Blk>, n: nat, size: nat, align: nat): (f: Found)
    requires n <= |s| && align > 0
    ensures f.At? ==> f.index < n && RunTimeFits(s[f.index], size, align)
    ensures f.At? ==> f.start == MaskDown(s[f.index].end - size, align)
  {
    if n == 0 then Nowhere
    else if RunTimeFits(s[n - 1], size, align) then At(n - 1, MaskDown(s[n - 1].end - size, align))
    else FindTop(s, n - 1, size, align)
  }

  lemma FindTopStep(s: seq<Blk>, n: nat, size: nat, align: nat)
    requires n < |s| && align > 0
    ensures FindTop(s, 0, size, align) == Nowhere
    ensures RunTimeFits(s[n], size, align) ==>
              FindTop(s, n + 1, size, align) == At(n, MaskDown(s[n].end - size, align))
    ensures !RunTimeFits(s[n], size, align) ==> FindTop(s, n + 1, size, align) == FindTop(s, n, size, align)
  {
  }

  /** No block above the one found has room. */
  lemma {:induction false} FindTopIsHighest(s: seq<Blk>, n: nat, size: nat, align: nat, j: nat)
    requires n <= |s| && align > 0 && j < n && RunTimeFits(s[j], size, align)
    ensures FindTop(s, n, size, align).At? && FindTop(s, n, size, align).index >= j
  {
    if !RunTimeFits(s[n - 1], size, align) {
      FindTopIsHighest(s, n - 1, size, align, j);
    }
  }

  /** [a, a + size) is an aligned piece of what is free of block b. */
  predicate AlignedPiece(b: Blk, a: nat, size: nat, align: nat) {
    Aligned(a, align) && b.start <= a && a + size <= b.end
  }

  /** A block fits if and only if it holds an aligned piece; MaskDown(end - size) is the highest. */
  lemma TopPiece(b: Blk, size: nat, align: nat, a: nat)
    requires align > 0
    ensures RunTimeFits(b, size, align) ==> AlignedPiece(b, MaskDown(b.end - size, align), size, align)
    ensures AlignedPiece(b, a, size, align) ==> RunTimeFits(b, size, align) && a <= MaskDown(b.end - size, align)
  {
    if size <= b.end {
      var top := MaskDown(b.end - size, align);
      MaskDownIsMultiple(b.end - size, align);
      if AlignedPiece(b, a, size, align) && top < a {
        MultiplesApart(top, a, align);
      }
    }
  }

  /** An aligned piece of some block. */
  ghost predicate FreePiece(s: seq<Blk>, a: nat, size: nat, align: nat) {
    exists i :: 0 <= i < |s| && AlignedPiece(s[i], a, size, align)
  }

  /** A run-time allocation takes the highest aligned piece that is free, and finds none only if
      there is none. */
  lemma TopIsHighestPiece(runs: seq<Run>, s: seq<Blk>, size: nat, align: nat)
    requires BlksOk(runs, s) && align > 0
    ensures match FindTop(s, |s|, size, align)
            case Nowhere => forall b: nat :: !FreePiece(s, b, size, align)
            case At(i, a) =>
              && i < |s| && AlignedPiece(s[i], a, size, align)
              && forall b: nat :: FreePiece(s, b, size, align) ==> b <= a
  {
    hide RunTimeFits, MaskDown, Aligned, InRun;
    var f := FindTop(s, |s|, size, align);
    if f.At? {
      TopPiece(s[f.index], size, align, f.start);
    }
    forall b: nat | FreePiece(s, b, size, align) ensures f.At? && b <= f.start {
      var j :| 0 <= j < |s| && AlignedPiece(s[j], b, size, align);
      TopPiece(s[j], size, align, b);
      FindTopIsHighest(s, |s|, size, align, j);
      assert j < f.index ==> s[j].origEnd < s[f.index].start;
    }
  }

  function Min(a: nat, b: nat): nat {
    if a < b then a else b
  }

  function Max(a: nat, b: nat): nat {
    if a < b then b else a
  }

  lemma TopCutBlks(runs: seq<Run>, s: seq<Blk>, i: nat, a: nat)
    requires BlksOk(runs, s) && i < |s| && s[i].start <= a <= s[i].end
    ensures BlksOk(runs, s[i := s[i].(end := a)])
  {
  }

  lemma TopCutStraddle(runs: seq<Run>, s: seq<Blk>, i: nat, a: nat, top: nat)
    requires BlksOk(runs, s) && NoneStraddles(s, top) && i < |s| && s[i].start <= a <= s[i].end
    requires CutsAbove(s, top)
    ensures NoneStraddles(s[i := s[i].(end := a)], Min(top, a)) && CutsAbove(s[i := s[i].(end := a)], Min(top, a))
  {
  }

  lemma UseInFree(runs: seq<Run>, s: seq<Blk>, i: nat, a: nat, b: nat)
    requires BlksOk(runs, s) && i < |s| && s[i].start <= a <= b <= s[i].end
    ensures InRun(runs, a, b)
  {
    assert InRun(runs, s[i].start, s[i].origEnd);
    var k :| 0 <= k < |runs| && runs[k].start <= s[i].start && s[i].origEnd <= runs[k].end;
    assert runs[k].start <= a && b <= runs[k].end;
  }

  /** Adding a use that lies in what was free, with watermarks moved outwards. */
  lemma AddUse(runs: seq<Run>, s: seq<Blk>, used: seq<Use>, bot: nat, top: nat, i: nat, u: Use, bot1: nat, top1: nat)
    requires UsesOk(runs, used, bot, top) && UsedApartFree(s, used) && BlksOk(runs, s)
    requires i < |s| && s[i].start <= u.start <= u.end <= s[i].end && UseOk(u, bot1, top1)
    requires bot <= bot1 && top1 <= top
    ensures UsesOk(runs, used + [u], bot1, top1)
  {
    UseInFree(runs, s, i, u.start, u.end);
    forall k | 0 <= k < |used| ensures Apart(used[k].start, used[k].end, u.start, u.end) {
      assert Apart(used[k].start, used[k].end, s[i].start, s[i].end);
    }
  }

  lemma UsedStaysApart(s: seq<Blk>, t: seq<Blk>, used: seq<Use>, u: Use)
    requires UsedApartFree(s, used)
    requires forall j :: 0 <= j < |t| ==> InsideBlk(t[j], s)
    requires forall j :: 0 <= j < |t| ==> Apart(u.start, u.end, t[j].start, t[j].end)
    ensures UsedApartFree(t, used + [u])
  {
    forall j, k | 0 <= j < |t| && 0 <= k < |used| ensures Apart(used[k].start, used[k].end, t[j].start, t[j].end) {
      var i :| 0 <= i < |s| && s[i].start <= t[j].start && t[j].end <= s[i].end;
      assert Apart(used[k].start, used[k].end, s[i].start, s[i].end);
    }
  }

  ghost predicate InsideBlk(b: Blk, s: seq<Blk>) {
    exists i :: 0 <= i < |s| && s[i].start <= b.start && b.end <= s[i].end
  }

  /** A run-time allocation keeps the invariant. */
  lemma TopAllocKeeps(runs: seq<Run>, s: seq<Blk>, used: seq<Use>, bot: nat, top: nat, i: nat, size: nat, align: nat)
    requires BmemOk(runs, s, used, bot, top) && align > 0 && i < |s| && RunTimeFits(s[i], size, align)
    ensures var a := MaskDown(s[i].end - size, align);
            BmemOk(runs, s[i := s[i].(end := a)], used + [Use(a, a + size, true)], bot, Min(top, a))
  {
    hide MaskDown, InRun, UsesOk, UsedApartFree, RunsOk;
    var a := MaskDown(s[i].end - size, align);
    var u := Use(a, a + size, true);
    var t := s[i := s[i].(end := a)];
    TopCutBlks(runs, s, i, a);
    TopCutStraddle(runs, s, i, a, top);
    AddUse(runs, s, used, bot, top, i, u, bot, Min(top, a));
    forall j | 0 <= j < |t| ensures InsideBlk(t[j], s) && Apart(u.start, u.end, t[j].start, t[j].end) {
      assert s[j].start <= t[j].start && t[j].end <= s[j].end;
    }
    UsedStaysApart(s, t, used, u);
  }

  // ---------------------------------------------------------------------------------------
  // bmem_alloc_boottime

  function AlignUp(x: nat, align: nat): nat
    requires align > 0
  {
    MaskDown(x + align - 1, align)
  }

  predicate BootTimeFits(b: Blk, size: nat, align: nat)
    requires align > 0
  {
    b.start <= b.end && size <= b.end - b.start && AlignUp(b.start, align) <= b.end
    && size <= b.end - AlignUp(b.start, align)
  }

  /** The lowest block from n on that fits. */
  function FindBottom(s: seq<Blk>, n: nat, size: nat, align: nat): (f: Found)
    requires n <= |s| && align > 0
    ensures f.At? ==> n <= f.index < |s| && BootTimeFits(s[f.index], size, align)
    ensures f.At? ==> f.start == AlignUp(s[f.index].start, align)
    decreases |s| - n
  {
    if n == |s| then Nowhere
    else if BootTimeFits(s[n], size, align) then At(n, AlignUp(s[n].start, align))
    else FindBottom(s, n + 1, size, align)
  }

  /** No block below the one found has room. */
  lemma {:induction false} FindBottomIsLowest(s: seq<Blk>, n: nat, size: nat, align: nat, j: nat)
    requires align > 0 && n <= j < |s| && BootTimeFits(s[j], size, align)
    ensures FindBottom(s, n, size, align).At? && FindBottom(s, n, size, align).index <= j
    decreases j - n
  {
    if !BootTimeFits(s[n], size, align) {
      FindBottomIsLowest(s, n + 1, size, align, j);
    }
  }

  lemma BottomPiece(b: Blk, size: nat, align: nat, a: nat)
    requires align > 0
    ensures BootTimeFits(b, size, align) ==> AlignedPiece(b, AlignUp(b.start, align), size, align)
    ensures AlignedPiece(b, a, size, align) ==> BootTimeFits(b, size, align) && AlignUp(b.start, align) <= a
  {
    var low := AlignUp(b.start, align);
    AlignUpBounds(b.start, align);
    if AlignedPiece(b, a, size, align) && a < low {
      MultiplesApart(a, low, align);
    }
  }

  /** A boot-time allocation takes the lowest aligned piece that is free, and finds none only if
      there is none. */
  lemma BottomIsLowestPiece(runs: seq<Run>, s: seq<Blk>, size: nat, align: nat)
    requires BlksOk(runs, s) && align > 0
    ensures match FindBottom(s, 0, size, align)
            case Nowhere => forall b: nat :: !FreePiece(s, b, size, align)
            case At(i, a) =>
              && i < |s| && AlignedPiece(s[i], a, size, align)
              && forall b: nat :: FreePiece(s, b, size, align) ==> a <= b
  {
    hide BootTimeFits, AlignUp, Aligned, InRun;
    var f := FindBottom(s, 0, size, align);
    if f.At? {
      BottomPiece(s[f.index], size, align, f.start);
    }
    forall b: nat | FreePiece(s, b, size, align) ensures f.At? && f.start <= b {
      var j :| 0 <= j < |s| && AlignedPiece(s[j], b, size, align);
      BottomPiece(s[j], size, align, b);
      FindBottomIsLowest(s, 0, size, align, j);
      assert f.index < j ==> s[f.index].origEnd < s[j].start;
    }
  }

  /** The table after taking [.., aend) from the bottom of block i; a used-up block goes away. */
  function CutBottom(s: seq<Blk>, i: nat, aend: nat): seq<Blk>
    requires i < |s|
  {
    if aend != s[i].end then s[i := s[i].(start := aend)] else s[..i] + s[i + 1..]
  }

  /** Entry j of the new table comes from entry j or j + 1 of the old one. */
  lemma CutBottomEntry(s: seq<Blk>, i: nat, aend: nat, j: nat)
    requires i < |s| && s[i].start <= aend <= s[i].end && j < |CutBottom(s, i, aend)|
    ensures var t := CutBottom(s, i, aend);
            if aend != s[i].end then t[j] == (if j == i then s[i].(start := aend) else s[j])
            else t[j] == (if j < i then s[j] else s[j + 1])
  {
  }

  lemma CutBottomBlks(runs: seq<Run>, s: seq<Blk>, i: nat, aend: nat, top: nat)
    requires BlksOk(runs, s) && NoneStraddles(s, top) && i < |s| && s[i].start <= aend <= s[i].end
    requires CutsAbove(s, top)
    ensures BlksOk(runs, CutBottom(s, i, aend)) && NoneStraddles(CutBottom(s, i, aend), top)
    ensures CutsAbove(CutBottom(s, i, aend), top)
    ensures forall j :: 0 <= j < |CutBottom(s, i, aend)| ==> InsideBlk(CutBottom(s, i, aend)[j], s)
  {
    hide CutBottom;
    var t := CutBottom(s, i, aend);
    assert |t| == if aend != s[i].end then |s| else |s| - 1 by { CutBottomLength(s, i, aend); }
    forall j | 0 <= j < |t|
      ensures t[j].start <= t[j].end <= t[j].origEnd && InRun(runs, t[j].start, t[j].origEnd)
      ensures (t[j].end <= top || top <= t[j].start) && (t[j].end < t[j].origEnd ==> top <= t[j].end)
      ensures InsideBlk(t[j], s)
    {
      CutBottomEntry(s, i, aend, j);
      var k := if aend == s[i].end && j >= i then j + 1 else j;
      assert InRun(runs, s[k].start, s[k].origEnd);
    }
    forall j, l | 0 <= j < l < |t| ensures t[j].origEnd < t[l].start {
      CutBottomEntry(s, i, aend, j);
      CutBottomEntry(s, i, aend, l);
    }
  }

  lemma CutBottomLength(s: seq<Blk>, i: nat, aend: nat)
    requires i < |s|
    ensures |CutBottom(s, i, aend)| == if aend != s[i].end then |s| else |s| - 1
  {
  }

  lemma CutBottomApart(runs: seq<Run>, s: seq<Blk>, i: nat, a: nat, aend: nat)
    requires BlksOk(runs, s) && i < |s| && s[i].start <= a <= aend <= s[i].end
    ensures forall j :: 0 <= j < |CutBottom(s, i, aend)| ==>
              Apart(a, aend, CutBottom(s, i, aend)[j].start, CutBottom(s, i, aend)[j].end)
  {
    hide CutBottom;
    CutBottomLength(s, i, aend);
    forall j | 0 <= j < |CutBottom(s, i, aend)|
      ensures Apart(a, aend, CutBottom(s, i, aend)[j].start, CutBottom(s, i, aend)[j].end)
    {
      CutBottomEntry(s, i, aend, j);
    }
  }

  lemma AlignUpBounds(x: nat, align: nat)
    requires align > 0
    ensures x <= AlignUp(x, align) < x + align && AlignUp(x, align) % align == 0
  {
    MaskDownIsMultiple(x + align - 1, align);
  }

  lemma AlignUpAligned(x: nat, align: nat)
    requires align > 0
    ensures x <= AlignUp(x, align) && Aligned(AlignUp(x, align), align)
  {
    AlignUpBounds(x, align);
  }

  /** A boot-time allocation that the source accepts keeps the invariant, and ends at or below
      the run-time watermark. */
  lemma BottomAllocKeeps(runs: seq<Run>, s: seq<Blk>, used: seq<Use>, bot: nat, top: nat, i: nat, size: nat, align: nat)
    requires BmemOk(runs, s, used, bot, top) && align > 0 && i < |s| && BootTimeFits(s[i], size, align)
    requires AlignUp(s[i].start, align) < top
    ensures var a := AlignUp(s[i].start, align);
            && BmemOk(runs, CutBottom(s, i, a + size), used + [Use(a, a + size, false)], Max(bot, a + size), top)
            && a + size <= top
  {
    hide AlignUp, InRun, UsesOk, UsedApartFree, RunsOk, CutBottom;
    var a := AlignUp(s[i].start, align);
    var u := Use(a, a + size, false);
    AlignUpBounds(s[i].start, align);
    CutBottomBlks(runs, s, i, a + size, top);
    CutBottomApart(runs, s, i, a, a + size);
    AddUse(runs, s, used, bot, top, i, u, Max(bot, a + size), top);
    UsedStaysApart(s, CutBottom(s, i, a + size), used, u);
  }

  // ---------------------------------------------------------------------------------------
  // Which bytes an allocation takes

  ghost predicate FreeByte(s: seq<Blk>, x: int) {
    exists i :: 0 <= i < |s| && s[i].start <= x < s[i].end
  }

  /** Cutting block i at a takes the bytes from a to its end, and no others. */
  lemma TopCutFrees(runs: seq<Run>, s: seq<Blk>, i: nat, a: nat, x: int)
    requires BlksOk(runs, s) && i < |s| && s[i].start <= a <= s[i].end
    ensures FreeByte(s[i := s[i].(end := a)], x) <==> FreeByte(s, x) && !(a <= x < s[i].end)
  {
    hide InRun;
    var t := s[i := s[i].(end := a)];
    if j :| 0 <= j < |t| && t[j].start <= x < t[j].end {
      assert s[j].start <= x < s[j].end;
      assert j < i ==> s[j].origEnd < s[i].start;
      assert i < j ==> s[i].origEnd < s[j].start;
    }
    if j :| 0 <= j < |s| && s[j].start <= x < s[j].end {
      assert j != i ==> t[j] == s[j];
      assert j == i ==> t[i].start == s[i].start && t[i].end == a;
    }
  }

  lemma BottomCutLeaves(runs: seq<Run>, s: seq<Blk>, i: nat, aend: nat, x: int)
    requires BlksOk(runs, s) && i < |s| && s[i].start <= aend <= s[i].end && FreeByte(CutBottom(s, i, aend), x)
    ensures FreeByte(s, x) && !(s[i].start <= x < aend)
  {
    hide CutBottom, InRun;
    var t := CutBottom(s, i, aend);
    CutBottomLength(s, i, aend);
    var j :| 0 <= j < |t| && t[j].start <= x < t[j].end;
    CutBottomEntry(s, i, aend, j);
    var k := if aend == s[i].end && j >= i then j + 1 else j;
    assert s[k].start <= x < s[k].end;
    assert k < i ==> s[k].origEnd < s[i].start;
    assert i < k ==> s[i].origEnd < s[k].start;
  }

  lemma BottomCutTakes(s: seq<Blk>, i: nat, aend: nat, x: int)
    requires i < |s| && s[i].start <= aend <= s[i].end && FreeByte(s, x) && !(s[i].start <= x < aend)
    ensures FreeByte(CutBottom(s, i, aend), x)
  {
    hide CutBottom;
    CutBottomLength(s, i, aend);
    var k :| 0 <= k < |s| && s[k].start <= x < s[k].end;
    var j := if aend == s[i].end && k > i then k - 1 else k;
    CutBottomEntry(s, i, aend, j);
    assert CutBottom(s, i, aend)[j].start <= x < CutBottom(s, i, aend)[j].end;
  }

  /** Taking the bottom of block i up to aend takes its bytes below aend, and no others. */
  lemma BottomCutFrees(runs: seq<Run>, s: seq<Blk>, i: nat, aend: nat, x: int)
    requires BlksOk(runs, s) && i < |s| && s[i].start <= aend <= s[i].end
    ensures FreeByte(CutBottom(s, i, aend), x) <==> FreeByte(s, x) && !(s[i].start <= x < aend)
  {
    hide CutBottom, BlksOk, FreeByte;
    if FreeByte(CutBottom(s, i, aend), x) {
      BottomCutLeaves(runs, s, i, aend, x);
    } else if FreeByte(s, x) && !(s[i].start <= x < aend) {
      BottomCutTakes(s, i, aend, x);
    }
  }
}

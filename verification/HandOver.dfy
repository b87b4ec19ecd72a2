/** What stage 1 tells stage 2 about memory, on values: which boot parameters it hands over,
    and why they are a memory map that stage 2 can use (stage1/bmem.c:95-154,
    stage1/main.c:454-491). */
module HandOver {
  import opened Machine
  import opened MemMap
  import opened BmemSpec
  import opened Bparm
  import Init = MemMapInit

  /** UEFI memory types, as far as the loader tells them apart. */
  datatype EfiType =
    | LoaderCode | LoaderData | BootServicesCode | BootServicesData | Conventional
    | AcpiReclaim | AcpiNvs | Persistent | OtherType(code: nat)

  datatype Desc = Desc(kind: EfiType, start: uint64, pages: uint64, attr: nat)

  predicate IsUsable(t: EfiType) {
    t.LoaderCode? || t.LoaderData? || t.BootServicesCode? || t.BootServicesData? || t.Conventional?
  }

  function E820Of(t: EfiType): nat {
    if IsUsable(t) then E820_RAM
    else if t.AcpiReclaim? then E820_ACPI
    else if t.AcpiNvs? then E820_NVS
    else if t.Persistent? then E820_PMEM
    else E820_RESERVED
  }

  function DescEnd(d: Desc): nat {
    d.start + d.pages * PAGE_SIZE
  }

  predicate DescOk(d: Desc) {
    d.pages > 0 && d.pages * PAGE_SIZE < TWO64 && DescEnd(d) <= TWO64
  }

  /** A UEFI memory map: non-empty descriptors that do not overlap. */
  ghost predicate DescsOk(ds: seq<Desc>) {
    && (forall i :: 0 <= i < |ds| ==> DescOk(ds[i]))
    && (forall i, j :: 0 <= i < j < |ds| ==> DescEnd(ds[i]) <= ds[j].start || DescEnd(ds[j]) <= ds[i].start)
  }

  // ---------------------------------------------------------------------------------------
  // What is reported

  /** The part of a descriptor above 1 MiB. */
  function ExtendedPart(d: Desc): seq<Data> {
    if DescEnd(d) <= BMEM_MAX_ADDR then []
    else
      var start := Max(d.start, BMEM_MAX_ADDR);
      [Mrng(MemRange(start, DescEnd(d) - start, E820Of(d.kind), 1, d.attr))]
  }

  function ExtendedData(ds: seq<Desc>, n: nat): seq<Data>
    requires n <= |ds|
  {
    if n == 0 then [] else ExtendedData(ds, n - 1) + ExtendedPart(ds[n - 1])
  }

  /** The part of an unusable descriptor below 1 MiB. */
  function UefiPart(d: Desc): seq<Data> {
    if d.start >= BMEM_MAX_ADDR || IsUsable(d.kind) then []
    else [Mrng(MemRange(d.start, Min(DescEnd(d), BMEM_MAX_ADDR) - d.start, E820Of(d.kind), 1, d.attr))]
  }

  function UefiData(ds: seq<Desc>, n: nat): seq<Data>
    requires n <= |ds|
  {
    if n == 0 then [] else UefiData(ds, n - 1) + UefiPart(ds[n - 1])
  }

  /** A block above the run-time watermark: what is free of it, and what is in use. */
  function BlkData(b: Blk, attr: nat): seq<Data>
    requires b.start <= b.end <= b.origEnd
  {
    RangeData(MemRange(b.start, b.end - b.start, E820_RAM, 1, attr))
    + RangeData(MemRange(b.end, b.origEnd - b.end, E820_RESERVED, 1, attr))
  }

  /** What the blocks numbered in seen contribute. */
  function BlksData(s: seq<Blk>, seen: seq<nat>, attr: nat): seq<Data>
    requires SeenOk(s, seen, 0)
  {
    if seen == [] then []
    else BlksData(s, seen[..|seen| - 1], attr) + BlkData(s[seen[|seen| - 1]], attr)
  }

  /** Increasing numbers of blocks from first on. */
  ghost predicate SeenOk(s: seq<Blk>, seen: seq<nat>, first: nat) {
    && (forall i :: 0 <= i < |seen| ==>
          first <= seen[i] < |s| && s[seen[i]].start <= s[seen[i]].end <= s[seen[i]].origEnd)
    && (forall i, j :: 0 <= i < j < |seen| ==> seen[i] < seen[j])
  }

  /** The first block from i on that starts at or above the watermark. */
  function FirstAbove(s: seq<Blk>, top: nat, i: nat): (r: nat)
    requires i <= |s|
    ensures i <= r <= |s| && (r < |s| ==> s[r].start >= top)
    ensures forall j :: i <= j < r ==> s[j].start < top
    decreases |s| - i
  {
    if i == |s| || s[i].start >= top then i else FirstAbove(s, top, i + 1)
  }

  // ---------------------------------------------------------------------------------------
  // The blocks while they are reported

  /** From idx on, t is a tail of s. */
  ghost predicate TailKept(s: seq<Blk>, t: seq<Blk>, idx: nat) {
    |t| <= |s| && forall j :: idx <= j < |t| ==> t[j] == s[j + |s| - |t|]
  }

  ghost predicate AllAbove(s: seq<Blk>, top: nat, idx: nat) {
    forall j :: idx <= j < |s| ==> s[j].start >= top
  }

  lemma SortedAbove(runs: seq<Run>, s: seq<Blk>, top: nat)
    requires BlksOk(runs, s)
    ensures AllAbove(s, top, FirstAbove(s, top, 0))
  {
    var r := FirstAbove(s, top, 0);
    forall j | r <= j < |s| ensures s[j].start >= top {
      assert r < j ==> s[r].origEnd < s[j].start;
    }
  }

  /** Taking boot-time memory may move the blocks above the watermark down one place in the
      table, but does not change them. */
  lemma EatenKeepsTail(s: seq<Blk>, t: seq<Blk>, top: nat, idx: nat)
    requires Eaten(s, t, top) && AllAbove(s, top, idx)
    ensures TailKept(s, t, idx) && |s| <= |t| + 1
  {
    if s != t {
      var i: nat, aend: nat :| EatenAt(s, t, top, i, aend);
      CutKeepsTail(s, i, aend, idx);
    }
  }

  lemma CutKeepsTail(s: seq<Blk>, i: nat, aend: nat, idx: nat)
    requires i < idx && i < |s| && s[i].start <= aend <= s[i].end
    ensures TailKept(s, CutBottom(s, i, aend), idx) && |s| <= |CutBottom(s, i, aend)| + 1
  {
    hide CutBottom;
    var t := CutBottom(s, i, aend);
    CutBottomLength(s, i, aend);
    forall j | idx <= j < |t| ensures t[j] == s[j + |s| - |t|] {
      CutBottomEntry(s, i, aend, j);
    }
  }

  lemma TailStaysKept(s0: seq<Blk>, s: seq<Blk>, t: seq<Blk>, top: nat, idx: nat, first: nat)
    requires TailKept(s0, s, idx) && AllAbove(s0, top, first) && first <= idx && Eaten(s, t, top)
    ensures TailKept(s0, t, idx)
  {
    assert AllAbove(s, top, idx);
    EatenKeepsTail(s, t, top, idx);
  }

  /** A block that the table shifts past the loop's index is never read: once block i < idx is
      used up while block idx is being reported, the next block read is not the next block. */
  lemma ShiftSkipsABlock(s: seq<Blk>, i: nat, idx: nat)
    requires i < idx && idx + 2 < |s|
    ensures var t := CutBottom(s, i, s[i].end);
            t[idx + 1] == s[idx + 2] && forall j :: idx < j < |t| ==> t[j] == s[j + 1]
  {
    forall j | idx < j < |s| - 1 ensures CutBottom(s, i, s[i].end)[j] == s[j + 1] {
    }
  }

  /** The reports that a block needs: one for each of its parts that is not empty. */
  function PartsOf(b: Blk): nat {
    (if b.start < b.end then 1 else 0) + if b.end < b.origEnd then 1 else 0
  }

  function PartsIn(s: seq<Blk>, i: nat, j: nat): nat
    requires j <= |s|
    decreases j - i
  {
    if i >= j then 0 else PartsOf(s[i]) + PartsIn(s, i + 1, j)
  }

  /** The table after n memory ranges have been added to the list. */
  function TakeRanges(s: seq<Blk>, top: nat, n: nat): seq<Blk> {
    if n == 0 then s else TakeNode(TakeRanges(s, top, n - 1), top, NODE_HEADER + MEM_RANGE_DATA)
  }

  /** The numbers, in the table s, of the blocks that the loop reads from idx on, t being the
      table now. */
  function SeenFrom(s: seq<Blk>, t: seq<Blk>, idx: nat, top: nat): seq<int>
    requires idx <= |s|
    decreases |s| - idx
  {
    if idx >= |t| || idx == |s| then []
    else [idx + |s| - |t|] + SeenFrom(s, TakeRanges(t, top, PartsOf(t[idx])), idx + 1, top)
  }

  lemma NodeIsEaten(s: seq<Blk>, top: nat, size: nat)
    ensures Eaten(s, TakeNode(s, top, size), top)
  {
    match FindBottom(s, 0, size, POINTER_SIZE)
    case Nowhere =>
    case At(i, a) =>
      AlignUpBounds(s[i].start, POINTER_SIZE);
      hide CutBottom, FindBottom, AlignUp;
      if a < top {
        assert EatenAt(s, CutBottom(s, i, a + size), top, i, a + size);
      }
  }

  lemma {:induction false} RangesKeepTail(s: seq<Blk>, top: nat, n: nat, idx: nat)
    requires AllAbove(s, top, idx)
    ensures TailKept(s, TakeRanges(s, top, n), idx)
  {
    if n > 0 {
      hide TakeNode, Eaten, AllAbove;
      RangesKeepTail(s, top, n - 1, idx);
      NodeIsEaten(TakeRanges(s, top, n - 1), top, NODE_HEADER + MEM_RANGE_DATA);
      TailStaysKept(s, TakeRanges(s, top, n - 1), TakeRanges(s, top, n), top, idx, idx);
    }
  }

  lemma {:induction false} RangesAdd(s: seq<Blk>, top: nat, n: nat, m: nat)
    ensures TakeRanges(TakeRanges(s, top, n), top, m) == TakeRanges(s, top, n + m)
  {
    if m > 0 {
      RangesAdd(s, top, n, m - 1);
    }
  }

  lemma {:induction false} PartsOfTail(s: seq<Blk>, t: seq<Blk>, i: nat, j: nat, idx: nat)
    requires |s| == |t| && TailKept(s, t, idx) && idx <= i && j <= |s|
    ensures PartsIn(t, i, j) == PartsIn(s, i, j)
    decreases j - i
  {
    if i < j {
      PartsOfTail(s, t, i + 1, j, idx);
    }
  }

  lemma {:induction false} SeenIsBounded(s: seq<Blk>, t: seq<Blk>, idx: nat, top: nat)
    requires idx <= |t| <= |s| && AllAbove(t, top, idx)
    ensures |SeenFrom(s, t, idx, top)| <= |t| - idx
    decreases |t| - idx
  {
    if idx < |t| {
      var t1 := TakeRanges(t, top, PartsOf(t[idx]));
      RangesKeepTail(t, top, PartsOf(t[idx]), idx);
      hide TakeRanges, PartsOf;
      if idx + 1 <= |t1| {
        SeenIsBounded(s, t1, idx + 1, top);
      }
    }
  }

  lemma ReadOne(s: seq<Blk>, t: seq<Blk>, idx: nat, top: nat)
    requires |t| == |s| && idx < |t|
    ensures var t1 := TakeRanges(t, top, PartsOf(t[idx]));
            |SeenFrom(s, t, idx, top)| == 1 + |SeenFrom(s, t1, idx + 1, top)|
    ensures idx + 1 < |t| ==> PartsIn(t, idx, |t| - 1) == PartsOf(t[idx]) + PartsIn(t, idx + 1, |t| - 1)
    ensures idx + 1 == |t| ==> |SeenFrom(s, t, idx, top)| == 1 && TakeRanges(t, top, PartsIn(t, idx, |t| - 1)) == t
  {
    hide PartsOf, TakeNode;
    var t1 := TakeRanges(t, top, PartsOf(t[idx]));
    assert SeenFrom(s, t, idx, top) == [idx + |s| - |t|] + SeenFrom(s, t1, idx + 1, top);
    assert idx + 1 == |t| ==> SeenFrom(s, t1, idx + 1, top) == [];
    assert idx + 1 == |t| ==> PartsIn(t, idx, |t| - 1) == 0;
    assert TakeRanges(t, top, 0) == t;
  }

  /** The loop over the blocks from idx on reads them all if and only if the reports of all but
      the last use up no block of the table. */
  lemma {:induction false} ReadsAllIff(s: seq<Blk>, t: seq<Blk>, idx: nat, top: nat)
    requires |t| == |s| && idx < |t| && AllAbove(t, top, idx)
    ensures |SeenFrom(s, t, idx, top)| == |s| - idx <==>
            |TakeRanges(t, top, PartsIn(t, idx, |t| - 1))| == |t|
    decreases |t| - idx
  {
    hide PartsOf, TakeRanges, SeenFrom, PartsIn;
    var p := PartsOf(t[idx]);
    var t1 := TakeRanges(t, top, p);
    RangesKeepTail(t, top, p, idx);
    ReadOne(s, t, idx, top);
    if idx + 1 < |t| {
      var q := PartsIn(t, idx + 1, |t| - 1);
      RangesAdd(t, top, p, q);
      if |t1| == |t| {
        PartsOfTail(t, t1, idx + 1, |t| - 1, idx);
        ReadsAllIff(s, t1, idx + 1, top);
      } else {
        RangesShrink(t1, top, q);
        if idx + 1 <= |t1| {
          SeenIsBounded(s, t1, idx + 1, top);
        } else {
          NoneLeft(s, t1, idx + 1, top);
        }
      }
    }
  }

  lemma NoneLeft(s: seq<Blk>, t: seq<Blk>, idx: nat, top: nat)
    requires |t| <= idx <= |s|
    ensures SeenFrom(s, t, idx, top) == []
  {
  }

  lemma {:induction false} RangesShrink(s: seq<Blk>, top: nat, n: nat)
    ensures |TakeRanges(s, top, n)| <= |s|
  {
    if n > 0 {
      RangesShrink(s, top, n - 1);
    }
  }

  // ---------------------------------------------------------------------------------------
  // Which reports use up a block, by arithmetic on the table

  const RANGE_NODE := 48   // sizeof(bparm_t) + sizeof(bdat_mem_range_t)

  /** How many nodes of memory ranges a block can hold. */
  function NodesIn(b: Blk): nat {
    var a := AlignUp(b.start, POINTER_SIZE);
    if a <= b.end then (b.end - a) / RANGE_NODE else 0
  }

  /** Nodes can fill the block to its last byte. */
  predicate FillsUp(b: Blk) {
    NodesIn(b) > 0 && (b.end - AlignUp(b.start, POINTER_SIZE)) % RANGE_NODE == 0
  }

  function NodesBefore(s: seq<Blk>, i: nat): nat
    requires i <= |s|
  {
    if i == 0 then 0 else NodesBefore(s, i - 1) + NodesIn(s[i - 1])
  }

  /** Of the first blocks, none that nodes can fill to the last byte is reached by the last of n
      nodes. */
  ghost predicate NoneFilled(s: seq<Blk>, first: nat, n: nat)
    requires first <= |s|
  {
    forall i :: 0 <= i < first && FillsUp(s[i]) ==> n < NodesBefore(s, i + 1)
  }

  /** The first blocks lie below the watermark, and the others do not. */
  ghost predicate SplitAt(s: seq<Blk>, top: nat, first: nat) {
    && first <= |s| && AllAbove(s, top, first)
    && forall j :: 0 <= j < first ==> s[j].start <= s[j].end <= top
  }

  /** Block i is the first that can hold a node. */
  ghost predicate FirstWithRoom(s: seq<Blk>, first: nat, i: nat) {
    i < first <= |s| && NodesIn(s[i]) > 0 && forall j :: 0 <= j < i ==> NodesIn(s[j]) == 0
  }

  ghost predicate NoneHasRoom(s: seq<Blk>, first: nat)
    requires first <= |s|
  {
    forall j :: 0 <= j < first ==> NodesIn(s[j]) == 0
  }

  lemma RoomIsFit(b: Blk)
    requires b.start <= b.end
    ensures NodesIn(b) > 0 <==> BootTimeFits(b, RANGE_NODE, POINTER_SIZE)
  {
    AlignUpBounds(b.start, POINTER_SIZE);
    hide AlignUp;
  }

  /** t is s after a node has been taken from block i. */
  ghost predicate NodeAt(s: seq<Blk>, first: nat, i: nat, t: seq<Blk>) {
    FirstWithRoom(s, first, i) && t == CutBottom(s, i, AlignUp(s[i].start, POINTER_SIZE) + RANGE_NODE)
  }

  lemma NodeFits(s: seq<Blk>, first: nat, j: nat)
    requires j < first <= |s| && s[j].start <= s[j].end && NodesIn(s[j]) > 0
    ensures BootTimeFits(s[j], RANGE_NODE, POINTER_SIZE)
  {
    RoomIsFit(s[j]);
  }

  lemma FitHolds(b: Blk)
    requires b.start <= b.end && BootTimeFits(b, RANGE_NODE, POINTER_SIZE)
    ensures NodesIn(b) > 0 && AlignUp(b.start, POINTER_SIZE) < b.end
  {
    RoomIsFit(b);
  }

  /** The first block with room is found. */
  lemma FirstIsFound(s: seq<Blk>, top: nat, first: nat, j: nat) returns (i: nat)
    requires SplitAt(s, top, first) && j < first && NodesIn(s[j]) > 0
    ensures NodeAt(s, first, i, TakeNode(s, top, RANGE_NODE))
  {
    hide CutBottom, FindBottom, NodesIn, AlignUp, BootTimeFits;
    NodeFits(s, first, j);
    FindBottomIsLowest(s, 0, RANGE_NODE, POINTER_SIZE, j);
    i := FindBottom(s, 0, RANGE_NODE, POINTER_SIZE).index;
    FitHolds(s[i]);
    forall k | 0 <= k < i ensures NodesIn(s[k]) == 0 {
      if NodesIn(s[k]) > 0 {
        NodeFits(s, first, k);
        FindBottomIsLowest(s, 0, RANGE_NODE, POINTER_SIZE, k);
      }
    }
  }

  lemma NoRoomNowhere(s: seq<Blk>, top: nat, first: nat)
    requires SplitAt(s, top, first) && NoneHasRoom(s, first)
    ensures TakeNode(s, top, RANGE_NODE) == s
  {
    hide CutBottom, FindBottom, NodesIn, AlignUp, BootTimeFits;
    match FindBottom(s, 0, RANGE_NODE, POINTER_SIZE)
    case Nowhere =>
    case At(i, a) =>
      if i < first {
        FitHolds(s[i]);
      }
      AlignUpBounds(s[i].start, POINTER_SIZE);
  }

  /** What one node takes: 48 bytes at the bottom of the first block that can hold it. */
  lemma NodeGoes(s: seq<Blk>, top: nat, first: nat)
    requires SplitAt(s, top, first)
    ensures
      || (NoneHasRoom(s, first) && TakeNode(s, top, RANGE_NODE) == s)
      || (exists i: nat :: NodeAt(s, first, i, TakeNode(s, top, RANGE_NODE)))
  {
    hide NodesIn, TakeNode, NodeAt;
    if j: nat :| j < first && NodesIn(s[j]) > 0 {
      var i := FirstIsFound(s, top, first, j);
    } else {
      NoRoomNowhere(s, top, first);
    }
  }

  lemma {:induction false} NoneBefore(s: seq<Blk>, i: nat)
    requires i <= |s| && forall j :: 0 <= j < i ==> NodesIn(s[j]) == 0
    ensures NodesBefore(s, i) == 0
  {
    if i > 0 {
      NoneBefore(s, i - 1);
    }
  }

  /** A block after one more node at its bottom. */
  lemma OneNodeLess(b: Blk)
    requires b.start <= b.end && NodesIn(b) > 0
    ensures var a := AlignUp(b.start, POINTER_SIZE) + RANGE_NODE; var c := b.(start := a);
            && a <= b.end && NodesIn(c) == NodesIn(b) - 1
            && (FillsUp(c) <==> FillsUp(b) && NodesIn(b) > 1)
            && (a == b.end <==> FillsUp(b) && NodesIn(b) == 1)
  {
    AlignUpBounds(b.start, POINTER_SIZE);
    var a := AlignUp(b.start, POINTER_SIZE) + RANGE_NODE;
    assert AlignUp(a, POINTER_SIZE) == a;
    hide AlignUp;
    var d := b.end - AlignUp(b.start, POINTER_SIZE);
    assert d / RANGE_NODE > 0 ==> (d - RANGE_NODE) / RANGE_NODE == d / RANGE_NODE - 1;
    assert (d - RANGE_NODE) % RANGE_NODE == d % RANGE_NODE;
  }

  lemma {:induction false} NodesAfter(s: seq<Blk>, i: nat, c: Blk, j: nat)
    requires i < |s| && NodesIn(s[i]) > 0 && NodesIn(c) == NodesIn(s[i]) - 1 && j <= |s|
    ensures NodesBefore(s[i := c], j) == NodesBefore(s, j) - (if i < j then 1 else 0)
    ensures i < j ==> NodesBefore(s, j) > 0
  {
    if j > 0 {
      hide NodesIn;
      NodesAfter(s, i, c, j - 1);
    }
  }

  lemma NoneFilledStep(s: seq<Blk>, top: nat, first: nat, i: nat, c: Blk, n: nat)
    requires SplitAt(s, top, first) && FirstWithRoom(s, first, i) && n > 0
    requires c == s[i].(start := AlignUp(s[i].start, POINTER_SIZE) + RANGE_NODE) && c.start < c.end
    ensures NoneFilled(s[i := c], first, n - 1) <==> NoneFilled(s, first, n)
  {
    OneNodeLess(s[i]);
    NoneBefore(s, i);
    hide NodesIn, AlignUp, FillsUp, NodesBefore, SplitAt;
    var s1 := s[i := c];
    forall j: nat | j < first
      ensures (FillsUp(s1[j]) ==> n - 1 < NodesBefore(s1, j + 1)) <==> (FillsUp(s[j]) ==> n < NodesBefore(s, j + 1))
    {
      NoneFilledAt(s, i, c, n, j);
    }
  }

  lemma NoneFilledAt(s: seq<Blk>, i: nat, c: Blk, n: nat, j: nat)
    requires i < |s| && j < |s| && NodesIn(s[i]) > 0 && NodesIn(c) == NodesIn(s[i]) - 1 && n > 0
    requires (FillsUp(c) <==> FillsUp(s[i]) && NodesIn(s[i]) > 1) && !(FillsUp(s[i]) && NodesIn(s[i]) == 1)
    requires NodesBefore(s, i) == 0 && forall k :: 0 <= k < i ==> NodesIn(s[k]) == 0
    ensures (FillsUp(s[i := c][j]) ==> n - 1 < NodesBefore(s[i := c], j + 1))
            <==> (FillsUp(s[j]) ==> n < NodesBefore(s, j + 1))
  {
    NodesAfter(s, i, c, j + 1);
    FillsNeedsRoom(s[j]);
    assert NodesBefore(s, i + 1) == NodesIn(s[i]);
    hide NodesIn, FillsUp, NodesBefore;
  }

  lemma FillsNeedsRoom(b: Blk)
    ensures FillsUp(b) ==> NodesIn(b) > 0
  {
  }

  /** n reports use up no block if and only if no block that nodes fill to the last byte is
      reached. */
  lemma {:induction false} UsedUpIff(s: seq<Blk>, top: nat, first: nat, n: nat)
    requires SplitAt(s, top, first)
    ensures |TakeRanges(s, top, n)| == |s| <==> NoneFilled(s, first, n)
    decreases n
  {
    SplitIsIn(s, top, first);
    hide NodesIn, FillsUp, AlignUp, TakeNode, CutBottom, TakeRanges, NoneFilled, SplitAt, NodeAt, NoneHasRoom;
    if n == 0 {
      NoRanges0(s, top, first);
    } else {
      FirstRange(s, top, n);
      NodeGoes(s, top, first);
      var s1 := TakeNode(s, top, RANGE_NODE);
      if NoneHasRoom(s, first) {
        NoRoomNowhere(s, top, first);
        UsedUpIff(s, top, first, n - 1);
        NothingFills(s, first);
      } else {
        var i: nat :| NodeAt(s, first, i, s1);
        NodeStep(s, s1, top, first, i, n);
        RangesShrink(s1, top, n - 1);
        if |s1| == |s| {
          UsedUpIff(s1, top, first, n - 1);
        }
      }
    }
  }

  lemma SplitIsIn(s: seq<Blk>, top: nat, first: nat)
    requires SplitAt(s, top, first)
    ensures first <= |s|
  {
  }

  lemma FirstRange(s: seq<Blk>, top: nat, n: nat)
    requires n > 0
    ensures TakeRanges(s, top, n) == TakeRanges(TakeNode(s, top, RANGE_NODE), top, n - 1)
  {
    hide TakeNode, TakeRanges;
    RangesAdd(s, top, 1, n - 1);
    OneRange(s, top);
  }

  lemma NothingFills(s: seq<Blk>, first: nat)
    requires first <= |s| && NoneHasRoom(s, first)
    ensures forall n: nat :: NoneFilled(s, first, n)
  {
    hide NodesIn;
  }

  lemma OneRange(s: seq<Blk>, top: nat)
    ensures TakeRanges(s, top, 1) == TakeNode(s, top, RANGE_NODE)
  {
    assert TakeRanges(s, top, 0) == s;
  }

  lemma NoRanges0(s: seq<Blk>, top: nat, first: nat)
    requires first <= |s|
    ensures TakeRanges(s, top, 0) == s && NoneFilled(s, first, 0)
  {
    hide NodesIn;
  }

  /** One node from block i: either it uses the block up, which the arithmetic rules out, or the
      question is the same for the new table and one node less. */
  lemma NodeStep(s: seq<Blk>, s1: seq<Blk>, top: nat, first: nat, i: nat, n: nat)
    requires SplitAt(s, top, first) && NodeAt(s, first, i, s1) && n > 0
    ensures if |s1| == |s| then SplitAt(s1, top, first) && (NoneFilled(s1, first, n - 1) <==> NoneFilled(s, first, n))
            else |s1| < |s| && !NoneFilled(s, first, n)
  {
    hide NodesIn, AlignUp, FillsUp, NoneFilled;
    OneNodeLess(s[i]);
    AlignUpBounds(s[i].start, POINTER_SIZE);
    var a := AlignUp(s[i].start, POINTER_SIZE) + RANGE_NODE;
    if a != s[i].end {
      NoneFilledStep(s, top, first, i, s[i].(start := a), n);
    } else {
      FilledIsReached(s, first, i, n);
    }
  }

  lemma FilledIsReached(s: seq<Blk>, first: nat, i: nat, n: nat)
    requires FirstWithRoom(s, first, i) && FillsUp(s[i]) && NodesIn(s[i]) == 1 && n > 0
    ensures !NoneFilled(s, first, n)
  {
    hide NodesIn, FillsUp;
    NoneBefore(s, i);
    assert NodesBefore(s, i + 1) == 1;
  }

  lemma SplitsAtFirst(runs: seq<Run>, s: seq<Blk>, used: seq<Use>, bot: nat, top: nat)
    requires BmemOk(runs, s, used, bot, top)
    ensures SplitAt(s, top, FirstAbove(s, top, 0))
  {
    hide InRun, UsesOk, UsedApartFree, RunsOk;
    SortedAbove(runs, s, top);
  }

  /** The loop over the blocks above the watermark reads them all if and only if, of the blocks
      below it, none that 48-byte nodes fill to the last byte is reached by the nodes for all
      but the last of them. */
  lemma MissesNoneIff(runs: seq<Run>, s: seq<Blk>, used: seq<Use>, bot: nat, top: nat)
    requires BmemOk(runs, s, used, bot, top) && FirstAbove(s, top, 0) < |s|
    ensures var first := FirstAbove(s, top, 0);
            |SeenFrom(s, s, first, top)| == |s| - first <==> NoneFilled(s, first, PartsIn(s, first, |s| - 1))
  {
    hide BmemOk, FirstAbove, SplitAt, AllAbove, TakeRanges, NoneFilled;
    SplitsAtFirst(runs, s, used, bot, top);
    var first := FirstAbove(s, top, 0);
    SplitIsAbove(s, top, first);
    ReadsAllIff(s, s, first, top);
    UsedUpIff(s, top, first, PartsIn(s, first, |s| - 1));
  }

  lemma SplitIsAbove(s: seq<Blk>, top: nat, first: nat)
    requires SplitAt(s, top, first)
    ensures AllAbove(s, top, first)
  {
  }

  /** A table in which the last 48 bytes of a block below the watermark are left. */
  const SHIFTING: seq<Blk> :=
    [Blk(0x1fd0, 0x2000, 0x2000), Blk(0x3000, 0x4_0000, 0x4_0000), Blk(0x5_0000, 0x5_1000, 0x5_1000),
     Blk(0x6_0000, 0x6_1000, 0x6_1000), Blk(0x7_0000, 0x7_1000, 0x7_1000)]

  const SHIFTING_RUNS: seq<Run> :=
    [Run(0x1000, 0x2000), Run(0x3000, 0x4_0000), Run(0x5_0000, 0x5_1000), Run(0x6_0000, 0x6_1000),
     Run(0x7_0000, 0x7_1000)]

  lemma ShiftingInRuns(i: nat)
    requires i < 5
    ensures SHIFTING_RUNS[i].start <= SHIFTING[i].start <= SHIFTING[i].end
    ensures SHIFTING[i].end <= SHIFTING[i].origEnd <= SHIFTING_RUNS[i].end
    ensures PAGE_SIZE <= SHIFTING_RUNS[i].start < SHIFTING_RUNS[i].end <= BMEM_MAX_ADDR
    ensures i > 0 ==> SHIFTING_RUNS[i - 1].end < SHIFTING[i].start && SHIFTING_RUNS[i - 1].end < SHIFTING_RUNS[i].start
    ensures i > 0 ==> SHIFTING[i - 1].origEnd < SHIFTING[i].start
    ensures SHIFTING[i].end <= 0x4_0000 || 0x4_0000 <= SHIFTING[i].start
    ensures SHIFTING[i].end == SHIFTING[i].origEnd && 0x1fd0 <= SHIFTING[i].start
  {
  }

  lemma {:induction false} ShiftingSorted(i: nat, j: nat)
    requires i < j < 5
    ensures SHIFTING_RUNS[i].end < SHIFTING_RUNS[j].start && SHIFTING[i].origEnd < SHIFTING[j].start
    decreases j
  {
    ShiftingInRuns(j);
    if i < j - 1 {
      ShiftingSorted(i, j - 1);
      ShiftingInRuns(j - 1);
    }
  }

  /** Blocks that have only been used from the bottom of the first one. */
  lemma BottomUsedOk(runs: seq<Run>, s: seq<Blk>, lo: nat, bot: nat, top: nat)
    requires |runs| == |s| > 0 && runs[0].start <= lo <= bot <= runs[0].end
    requires forall i :: 0 <= i < |s| ==>
      && PAGE_SIZE <= runs[i].start <= s[i].start && s[i].end == s[i].origEnd <= runs[i].end <= BMEM_MAX_ADDR
      && runs[i].start < runs[i].end && bot <= s[i].start <= s[i].end && (s[i].end <= top || top <= s[i].start)
    requires forall i, j :: 0 <= i < j < |s| ==> runs[i].end < runs[j].start && s[i].origEnd < s[j].start
    ensures BmemOk(runs, s, [Use(lo, bot, false)], bot, top)
  {
    hide InRun;
    forall i | 0 <= i < |s| ensures InRun(runs, s[i].start, s[i].origEnd) {
      RunHolds(runs, i, s[i].start, s[i].origEnd);
    }
    RunHolds(runs, 0, lo, bot);
  }

  lemma RunHolds(runs: seq<Run>, i: nat, start: nat, end: nat)
    requires i < |runs| && runs[i].start <= start && end <= runs[i].end
    ensures InRun(runs, start, end)
  {
  }

  /** It is a state of base memory: all that was used is boot-time memory from 0x1000 on. */
  lemma ShiftingIsReachable()
    ensures BmemOk(SHIFTING_RUNS, SHIFTING, [Use(0x1000, 0x1fd0, false)], 0x1fd0, 0x4_0000)
  {
    hide BmemOk;
    forall i | 0 <= i < 5
      ensures PAGE_SIZE <= SHIFTING_RUNS[i].start <= SHIFTING[i].start && SHIFTING[i].end == SHIFTING[i].origEnd
      ensures SHIFTING[i].origEnd <= SHIFTING_RUNS[i].end <= BMEM_MAX_ADDR
      ensures SHIFTING_RUNS[i].start < SHIFTING_RUNS[i].end && 0x1fd0 <= SHIFTING[i].start <= SHIFTING[i].end
      ensures SHIFTING[i].end <= 0x4_0000 || 0x4_0000 <= SHIFTING[i].start
    {
      ShiftingInRuns(i);
    }
    forall i, j | 0 <= i < j < 5
      ensures SHIFTING_RUNS[i].end < SHIFTING_RUNS[j].start && SHIFTING[i].origEnd < SHIFTING[j].start
    {
      ShiftingSorted(i, j);
    }
    BottomUsedOk(SHIFTING_RUNS, SHIFTING, 0x1000, 0x1fd0, 0x4_0000);
  }

  /** An instance: the first block above the watermark is reported at the cost of the last 48
      bytes of a block below, and the second is never read. */
  lemma BlockIsMissed()
    ensures SeenFrom(SHIFTING, SHIFTING, 2, 0x4_0000) == [2, 4]
  {
    var a, b := SHIFTING[1], SHIFTING[2];
    var c, d := SHIFTING[3], SHIFTING[4];
    var s := SHIFTING;
    var t, u := [a, b, c, d], [a.(start := 0x3030), b, c, d];
    assert TakeNode(s, 0x4_0000, RANGE_NODE) == t;
    assert TakeNode(t, 0x4_0000, RANGE_NODE) == u;
    hide TakeNode;
    OneRange(s, 0x4_0000);
    OneRange(t, 0x4_0000);
    hide TakeRanges;
    assert SeenFrom(s, u, 4, 0x4_0000) == [];
    assert SeenFrom(s, t, 3, 0x4_0000) == [4] + SeenFrom(s, u, 4, 0x4_0000);
    assert SeenFrom(s, s, 2, 0x4_0000) == [2] + SeenFrom(s, t, 3, 0x4_0000);
  }

  /** If none is skipped, all blocks above the watermark are reported. */
  lemma {:induction false} AllSeen(s: seq<Blk>, seen: seq<nat>, first: nat, k: nat)
    requires SeenOk(s, seen, first) && |seen| == |s| - first && k < |seen|
    ensures seen[k] == first + k
  {
    SeenAtLeast(s, seen, first, k);
    SeenAtMost(s, seen, first, k);
  }

  lemma {:induction false} SeenAtLeast(s: seq<Blk>, seen: seq<nat>, first: nat, k: nat)
    requires SeenOk(s, seen, first) && k < |seen|
    ensures seen[k] >= first + k
  {
    if k > 0 {
      SeenAtLeast(s, seen, first, k - 1);
      assert seen[k - 1] < seen[k];
    }
  }

  lemma {:induction false} SeenAtMost(s: seq<Blk>, seen: seq<nat>, first: nat, k: nat)
    requires SeenOk(s, seen, first) && k < |seen|
    ensures seen[k] + (|seen| - k) <= |s|
    decreases |seen| - k
  {
    if k + 1 < |seen| {
      SeenAtMost(s, seen, first, k + 1);
      assert seen[k] < seen[k + 1];
    }
  }

  // ---------------------------------------------------------------------------------------
  // The list is a memory map

  predicate FitPair(a: Data, b: Data) {
    a.Mrng? && b.Mrng? ==> Init.Compatible(a.range, b.range)
  }

  /** Every range is sound, and those that may not overlap do not. */
  ghost predicate Fit(l: seq<Data>) {
    && (forall i :: 0 <= i < |l| && l[i].Mrng? ==> RangeOk(l[i].range))
    && (forall i, j :: 0 <= i < j < |l| ==> FitPair(l[i], l[j]))
  }

  /** Not base memory reported as RAM. */
  predicate Tame(d: Data) {
    d.Mrng? ==> d.range.start >= BMEM_MAX_ADDR || !IsRam(d.range)
  }

  predicate InBase(d: Data) {
    d.Mrng? ==> d.range.len > 0 && End(d.range) <= BMEM_MAX_ADDR
  }

  ghost predicate AllTame(l: seq<Data>) {
    forall i :: 0 <= i < |l| ==> Tame(l[i])
  }

  ghost predicate AllInBase(l: seq<Data>) {
    forall i :: 0 <= i < |l| ==> InBase(l[i])
  }

  lemma FitConcat(l: seq<Data>, m: seq<Data>)
    requires Fit(l) && Fit(m)
    requires forall i, j :: 0 <= i < |l| && 0 <= j < |m| ==> FitPair(l[i], m[j])
    ensures Fit(l + m)
  {
    hide FitPair;
  }

  lemma TameConcat(l: seq<Data>, m: seq<Data>)
    requires AllTame(l) && AllTame(m)
    ensures AllTame(l + m)
  {
  }

  lemma TameFitsBase(l: seq<Data>, m: seq<Data>)
    requires Fit(l) && Fit(m) && AllTame(l) && AllInBase(m)
    ensures Fit(l + m)
  {
    forall i, j | 0 <= i < |l| && 0 <= j < |m| ensures FitPair(l[i], m[j]) {
      assert Tame(l[i]) && InBase(m[j]);
    }
    FitConcat(l, m);
  }

  /** Every range above 1 MiB comes from one of the first n descriptors. */
  ghost predicate FromDescs(l: seq<Data>, ds: seq<Desc>, n: nat) {
    forall i :: 0 <= i < |l| && l[i].Mrng? ==> FromADesc(l[i].range, ds, n)
  }

  ghost predicate FromADesc(r: MemRange, ds: seq<Desc>, n: nat) {
    exists k :: 0 <= k < n && k < |ds| && ds[k].start <= r.start && End(r) <= DescEnd(ds[k])
  }

  lemma ExtendedPartOk(ds: seq<Desc>, n: nat)
    requires DescsOk(ds) && n < |ds|
    ensures Fit(ExtendedPart(ds[n])) && AllTame(ExtendedPart(ds[n])) && FromDescs(ExtendedPart(ds[n]), ds, n + 1)
  {
    if DescEnd(ds[n]) > BMEM_MAX_ADDR {
      assert DescOk(ds[n]);
      assert FromADesc(ExtendedPart(ds[n])[0].range, ds, n + 1);
    }
  }

  lemma ExtendedCross(ds: seq<Desc>, l: seq<Data>, n: nat)
    requires DescsOk(ds) && n < |ds| && FromDescs(l, ds, n)
    ensures forall i, j :: 0 <= i < |l| && 0 <= j < |ExtendedPart(ds[n])| ==> FitPair(l[i], ExtendedPart(ds[n])[j])
  {
    forall i, j | 0 <= i < |l| && 0 <= j < |ExtendedPart(ds[n])| ensures FitPair(l[i], ExtendedPart(ds[n])[j]) {
      if l[i].Mrng? {
        assert FromADesc(l[i].range, ds, n);
        var k :| 0 <= k < n && ds[k].start <= l[i].range.start && End(l[i].range) <= DescEnd(ds[k]);
        assert DescEnd(ds[k]) <= ds[n].start || DescEnd(ds[n]) <= ds[k].start;
      }
    }
  }

  lemma FromDescsGrows(l: seq<Data>, m: seq<Data>, ds: seq<Desc>, n: nat)
    requires FromDescs(l, ds, n) && FromDescs(m, ds, n + 1)
    ensures FromDescs(l + m, ds, n + 1)
  {
    forall i | 0 <= i < |l + m| && (l + m)[i].Mrng? ensures FromADesc((l + m)[i].range, ds, n + 1) {
      if i < |l| {
        assert FromADesc(l[i].range, ds, n);
      } else {
        assert FromADesc(m[i - |l|].range, ds, n + 1);
      }
    }
  }

  lemma NothingIsFit(ds: seq<Desc>)
    ensures Fit([]) && AllTame([]) && FromDescs([], ds, 0)
  {
  }

  lemma {:induction false} ExtendedIsFit(ds: seq<Desc>, n: nat)
    requires DescsOk(ds) && n <= |ds|
    ensures Fit(ExtendedData(ds, n)) && AllTame(ExtendedData(ds, n)) && FromDescs(ExtendedData(ds, n), ds, n)
  {
    hide DescsOk, FromDescs, ExtendedPart, FitPair, Fit, AllTame;
    if n == 0 {
      NothingIsFit(ds);
    } else {
      var l, m := ExtendedData(ds, n - 1), ExtendedPart(ds[n - 1]);
      ExtendedIsFit(ds, n - 1);
      ExtendedPartOk(ds, n - 1);
      ExtendedCross(ds, l, n - 1);
      FitConcat(l, m);
      TameConcat(l, m);
      FromDescsGrows(l, m, ds, n - 1);
    }
  }

  lemma {:induction false} UefiIsFit(ds: seq<Desc>, n: nat)
    requires DescsOk(ds) && n <= |ds|
    ensures Fit(UefiData(ds, n)) && AllTame(UefiData(ds, n)) && AllInBase(UefiData(ds, n))
  {
    if n > 0 {
      UefiIsFit(ds, n - 1);
      assert DescOk(ds[n - 1]);
      assert Fit(UefiPart(ds[n - 1])) && AllTame(UefiPart(ds[n - 1])) && AllInBase(UefiPart(ds[n - 1]));
      hide DescsOk, UefiPart;
      TameFitsBase(UefiData(ds, n - 1), UefiPart(ds[n - 1]));
    }
  }

  /** RAM of l lies in [lo, hi), and no run-time use overlaps it. */
  ghost predicate RamClear(l: seq<Data>, lo: nat, hi: nat, used: seq<Use>) {
    forall i :: 0 <= i < |l| && l[i].Mrng? && IsRam(l[i].range) ==>
      lo <= l[i].range.start && End(l[i].range) <= hi && ClearOfRunTime(l[i].range, used)
  }

  ghost predicate ClearOfRunTime(r: MemRange, used: seq<Use>) {
    forall k :: 0 <= k < |used| && used[k].runTime ==> Apart(used[k].start, used[k].end, r.start, End(r))
  }

  lemma BlkBounds(runs: seq<Run>, s: seq<Blk>, k: nat)
    requires RunsOk(runs) && BlksOk(runs, s) && k < |s|
    ensures s[k].start <= s[k].end <= s[k].origEnd <= BMEM_MAX_ADDR
  {
    assert InRun(runs, s[k].start, s[k].origEnd);
  }

  lemma BlkIsFit(runs: seq<Run>, s: seq<Blk>, used: seq<Use>, k: nat, attr: nat)
    requires RunsOk(runs) && BlksOk(runs, s) && UsedApartFree(s, used) && k < |s|
    ensures s[k].start <= s[k].end <= s[k].origEnd
    ensures Fit(BlkData(s[k], attr)) && AllInBase(BlkData(s[k], attr))
    ensures RamClear(BlkData(s[k], attr), s[k].start, s[k].end, used)
  {
    hide RunsOk, BlksOk;
    BlkBounds(runs, s, k);
  }

  lemma RamConcat(l: seq<Data>, m: seq<Data>, lo: nat, mid: nat, next: nat, hi: nat, used: seq<Use>)
    requires RamClear(l, lo, mid, used) && RamClear(m, next, hi, used) && lo <= mid <= next <= hi
    ensures RamClear(l + m, lo, hi, used)
  {
    forall i | 0 <= i < |l + m| && (l + m)[i].Mrng? && IsRam((l + m)[i].range)
      ensures lo <= (l + m)[i].range.start && End((l + m)[i].range) <= hi && ClearOfRunTime((l + m)[i].range, used)
    {
      assert (l + m)[i] == if i < |l| then l[i] else m[i - |l|];
    }
  }

  /** RAM in increasing stretches of base memory fits. */
  lemma StretchesFit(l: seq<Data>, m: seq<Data>, lo: nat, mid: nat, next: nat, hi: nat, used: seq<Use>)
    requires Fit(l) && Fit(m) && AllInBase(l) && AllInBase(m)
    requires RamClear(l, lo, mid, used) && RamClear(m, next, hi, used) && mid <= next
    ensures Fit(l + m) && AllInBase(l + m)
  {
    hide ClearOfRunTime;
    forall i, j | 0 <= i < |l| && 0 <= j < |m| ensures FitPair(l[i], m[j]) {
      assert InBase(l[i]) && InBase(m[j]);
    }
    FitConcat(l, m);
  }

  /** Where the RAM of the blocks seen so far ends. */
  function SeenEnd(s: seq<Blk>, seen: seq<nat>, lo: nat): nat
    requires SeenOk(s, seen, 0)
  {
    if seen == [] then lo else s[seen[|seen| - 1]].origEnd
  }

  lemma {:induction false} BlksAreFit(runs: seq<Run>, s: seq<Blk>, used: seq<Use>, seen: seq<nat>, lo: nat,
                                      first: nat, attr: nat)
    requires RunsOk(runs) && BlksOk(runs, s) && UsedApartFree(s, used)
    requires SeenOk(s, seen, first) && AllAbove(s, lo, first)
    ensures SeenOk(s, seen, 0) && lo <= SeenEnd(s, seen, lo)
    ensures Fit(BlksData(s, seen, attr)) && AllInBase(BlksData(s, seen, attr))
    ensures RamClear(BlksData(s, seen, attr), lo, SeenEnd(s, seen, lo), used)
    decreases |seen|
  {
    hide RunsOk, BlksOk, UsedApartFree, Fit, AllInBase, RamClear, BlkData, BlksData, SeenEnd, SeenOk, AllAbove;
    if seen == [] {
      NothingIsRead(s, lo, attr, used);
    } else {
      var n := |seen| - 1;
      LastSeen(runs, s, seen, lo, first, attr);
      var b := s[seen[n]];
      BlksAreFit(runs, s, used, seen[..n], lo, first, attr);
      BlkIsFit(runs, s, used, seen[n], attr);
      LastIsAbove(runs, s, seen, lo, first);
      StretchesFit(BlksData(s, seen[..n], attr), BlkData(b, attr), lo, SeenEnd(s, seen[..n], lo), b.start, b.end, used);
      RamConcat(BlksData(s, seen[..n], attr), BlkData(b, attr), lo, SeenEnd(s, seen[..n], lo), b.start, b.end, used);
      RamWidens(BlksData(s, seen, attr), lo, b.end, lo, b.origEnd, used);
    }
  }

  lemma NothingIsRead(s: seq<Blk>, lo: nat, attr: nat, used: seq<Use>)
    ensures SeenOk(s, [], 0) && SeenEnd(s, [], lo) == lo
    ensures var l := BlksData(s, [], attr); Fit(l) && AllInBase(l) && RamClear(l, lo, lo, used)
  {
  }

  lemma LastSeen(runs: seq<Run>, s: seq<Blk>, seen: seq<nat>, lo: nat, first: nat, attr: nat)
    requires SeenOk(s, seen, first) && seen != []
    ensures var n := |seen| - 1;
            && SeenOk(s, seen, 0) && SeenOk(s, seen[..n], first) && SeenOk(s, seen[..n], 0) && seen[n] < |s|
            && s[seen[n]].start <= s[seen[n]].end <= s[seen[n]].origEnd
            && SeenEnd(s, seen, lo) == s[seen[n]].origEnd
            && BlksData(s, seen, attr) == BlksData(s, seen[..n], attr) + BlkData(s[seen[n]], attr)
  {
    hide BlkData;
  }

  /** The last block read lies above those before it. */
  lemma LastIsAbove(runs: seq<Run>, s: seq<Blk>, seen: seq<nat>, lo: nat, first: nat)
    requires BlksOk(runs, s) && SeenOk(s, seen, first) && AllAbove(s, lo, first) && seen != []
    ensures SeenOk(s, seen[..|seen| - 1], 0)
    ensures SeenEnd(s, seen[..|seen| - 1], lo) <= s[seen[|seen| - 1]].start
    ensures lo <= s[seen[|seen| - 1]].start
  {
    hide InRun;
  }

  lemma RamWidens(l: seq<Data>, lo: nat, hi: nat, lo1: nat, hi1: nat, used: seq<Use>)
    requires RamClear(l, lo, hi, used) && lo1 <= lo && hi <= hi1
    ensures RamClear(l, lo1, hi1, used)
  {
  }

  // ---------------------------------------------------------------------------------------
  // The whole list

  function AsParam(d: Data): Init.BootParam {
    match d
    case Mrng(r) => Init.Mrng(r)
    case BmemSegs(_, _) => Init.Other(0)
    case Zeros(_) => Init.Other(1)
  }

  /** The list as stage 2 reads it. */
  function AsParams(l: seq<Data>): seq<Init.BootParam> {
    seq(|l|, i requires 0 <= i < |l| => AsParam(l[i]))
  }

  ghost predicate NoRanges(l: seq<Data>) {
    forall i :: 0 <= i < |l| ==> !l[i].Mrng?
  }

  /** What is handed over after the parameters that were there before: extended memory, the
      watermarks, unusable base memory, base memory below the watermark, and the blocks above. */
  function Handed(before: seq<Data>, ds: seq<Desc>, segs: Data, top: nat, attr: nat, blks: seq<Data>): seq<Data> {
    before + ExtendedData(ds, |ds|) + [segs] + UefiData(ds, |ds|)
    + (RangeData(MemRange(0, top, E820_RAM, 1, attr)) + blks)
  }

  lemma TopIsClear(top: nat, attr: nat, runs: seq<Run>, used: seq<Use>, bot: nat)
    requires UsesOk(runs, used, bot, top) && top <= BMEM_MAX_ADDR
    ensures var l := RangeData(MemRange(0, top, E820_RAM, 1, attr));
            Fit(l) && AllInBase(l) && RamClear(l, 0, top, used)
  {
    forall k | 0 <= k < |used| && used[k].runTime ensures top <= used[k].start {
      assert UseOk(used[k], bot, top);
    }
  }

  /** The RAM that stage 1 reports of base memory does not overlap itself, nor any run-time
      use. */
  lemma OursFit(runs: seq<Run>, s: seq<Blk>, used: seq<Use>, bot: nat, top: nat, seen: seq<nat>, first: nat, attr: nat)
    requires BmemOk(runs, s, used, bot, top) && top <= BMEM_MAX_ADDR
    requires SeenOk(s, seen, first) && AllAbove(s, top, first)
    ensures SeenOk(s, seen, 0)
    ensures var l := RangeData(MemRange(0, top, E820_RAM, 1, attr)) + BlksData(s, seen, attr);
            Fit(l) && AllInBase(l) && RamClear(l, 0, SeenEnd(s, seen, top), used)
  {
    hide RunsOk, UsedApartFree, Fit, AllInBase, RamClear, UsesOk, BlksOk, RangeData, SeenEnd, BlksData;
    BlksAreFit(runs, s, used, seen, top, first, attr);
    TopIsClear(top, attr, runs, used, bot);
    var l, m := RangeData(MemRange(0, top, E820_RAM, 1, attr)), BlksData(s, seen, attr);
    StretchesFit(l, m, 0, top, top, SeenEnd(s, seen, top), used);
    RamConcat(l, m, 0, top, top, SeenEnd(s, seen, top), used);
  }

  lemma OthersFit(before: seq<Data>, ds: seq<Desc>, segs: Data)
    requires NoRanges(before) && !segs.Mrng? && DescsOk(ds)
    ensures var l := before + ExtendedData(ds, |ds|) + [segs] + UefiData(ds, |ds|);
            Fit(l) && AllTame(l)
  {
    hide ExtendedData, UefiData, FitPair, DescsOk;
    var x, u := ExtendedData(ds, |ds|), UefiData(ds, |ds|);
    ExtendedIsFit(ds, |ds|);
    UefiIsFit(ds, |ds|);
    NoRangesFit(before, x);
    NoRangesFitAfter(before + x, segs);
    TameFitsBase(before + x + [segs], u);
    TameConcat(before + x + [segs], u);
  }

  lemma NoRangesFit(before: seq<Data>, l: seq<Data>)
    requires NoRanges(before) && Fit(l) && AllTame(l)
    ensures Fit(before + l) && AllTame(before + l)
  {
    assert Fit(before) && AllTame(before);
    FitConcat(before, l);
    TameConcat(before, l);
  }

  lemma NoRangesFitAfter(l: seq<Data>, d: Data)
    requires !d.Mrng? && Fit(l) && AllTame(l)
    ensures Fit(l + [d]) && AllTame(l + [d])
  {
    assert Fit([d]) && AllTame([d]);
    FitConcat(l, [d]);
    TameConcat(l, [d]);
  }

  lemma ParamsOfFit(l: seq<Data>, k: nat)
    requires Fit(l) && k < |l| && l[k].Mrng? && l[k].range.start == 0
    ensures Init.BootMapOk(AsParams(l))
  {
    var ps := AsParams(l);
    assert RangeOk(l[k].range);
    assert Init.NonEmpty(ps[k]);
    forall i, j | 0 <= i < j < |ps| && Init.NonEmpty(ps[i]) && Init.NonEmpty(ps[j])
      ensures Init.Compatible(ps[i].range, ps[j].range)
    {
      assert FitPair(l[i], l[j]);
    }
  }

  /** The list that stage 1 hands over is a memory map as stage 2 wants it. */
  lemma HandedIsBootMap(before: seq<Data>, ds: seq<Desc>, segs: Data, top: nat, attr: nat, blks: seq<Data>)
    requires NoRanges(before) && !segs.Mrng? && DescsOk(ds) && top > 0
    requires var m := RangeData(MemRange(0, top, E820_RAM, 1, attr)) + blks; Fit(m) && AllInBase(m)
    ensures Init.BootMapOk(AsParams(Handed(before, ds, segs, top, attr, blks)))
  {
    hide ExtendedData, UefiData, Fit, AllInBase, AllTame, Init.BootMapOk, DescsOk;
    var l := before + ExtendedData(ds, |ds|) + [segs] + UefiData(ds, |ds|);
    var m := RangeData(MemRange(0, top, E820_RAM, 1, attr)) + blks;
    OthersFit(before, ds, segs);
    TameFitsBase(l, m);
    assert (l + m)[|l|] == Mrng(MemRange(0, top, E820_RAM, 1, attr));
    ParamsOfFit(l + m, |l|);
  }

  /** No RAM range of the list overlaps a run-time use of base memory. */
  lemma HandedIsClear(before: seq<Data>, ds: seq<Desc>, segs: Data, top: nat, attr: nat, blks: seq<Data>, hi: nat,
                      runs: seq<Run>, used: seq<Use>, bot: nat, top1: nat)
    requires NoRanges(before) && !segs.Mrng? && DescsOk(ds) && RunsOk(runs) && UsesOk(runs, used, bot, top1)
    requires RamClear(RangeData(MemRange(0, top, E820_RAM, 1, attr)) + blks, 0, hi, used)
    ensures var l := Handed(before, ds, segs, top, attr, blks);
            forall i :: 0 <= i < |l| && l[i].Mrng? && IsRam(l[i].range) ==> ClearOfRunTime(l[i].range, used)
  {
    hide ExtendedData, UefiData, DescsOk, RunsOk, UsesOk, ClearOfRunTime, RangeData;
    var l := before + ExtendedData(ds, |ds|) + [segs] + UefiData(ds, |ds|);
    OthersFit(before, ds, segs);
    var m := RangeData(MemRange(0, top, E820_RAM, 1, attr)) + blks;
    var all := l + m;
    forall i | 0 <= i < |all| && all[i].Mrng? && IsRam(all[i].range) ensures ClearOfRunTime(all[i].range, used) {
      if i < |l| {
        assert Tame(l[i]);
        AboveIsClear(runs, used, bot, top1, l[i].range);
      } else {
        assert all[i] == m[i - |l|];
      }
    }
  }

  lemma AboveIsClear(runs: seq<Run>, used: seq<Use>, bot: nat, top: nat, r: MemRange)
    requires RunsOk(runs) && UsesOk(runs, used, bot, top) && r.start >= BMEM_MAX_ADDR
    ensures ClearOfRunTime(r, used)
  {
    forall k | 0 <= k < |used| ensures used[k].end <= BMEM_MAX_ADDR {
      assert InRun(runs, used[k].start, used[k].end);
    }
  }
}

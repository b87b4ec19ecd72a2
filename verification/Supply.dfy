/** How long the physical allocator of stage 2 goes on serving requests for page frames
    (stage2/mem.c:443-467): as long as the map has room for an entry each, and a range of RAM in
    extended memory has as many whole frames. All blocks then come from extended memory. */
module Supply {
  import opened Machine
  import opened MemMap

  lemma AllocSplits(s: seq<MemRange>, cap: nat, sz: nat, align: nat)
    requires MapOk(s) && |s| <= cap && sz > 0 && align > 0
    requires Alloc(s, cap, sz, align, 0).Placed?
    ensures var r := Alloc(s, cap, sz, align, 0);
            && r.index < |s| && s[r.index].start <= r.start <= End(s[r.index]) <= XM32_MAX_ADDR
            && sz <= End(s[r.index]) && r.start == MaskDown(End(s[r.index]) - sz, align)
            && r.map' == SplitRange(s, r.index, r.start, E820_RAM, E820_RESERVED)
  {
    hide Candidates, SplitRange;
    CandidateIsTopFit(s, sz, align, 0);
  }

  /** RAM of extended memory below 4 GiB. */
  predicate ExtendedRam(r: MemRange) {
    IsRam(r) && r.start >= BMEM_MAX_ADDR && End(r) <= XM32_MAX_ADDR
  }

  /** Some such range has b bytes after its first page boundary. */
  ghost predicate HasBytes(s: seq<MemRange>, b: nat) {
    exists i :: 0 <= i < |s| && ExtendedRam(s[i]) && RoundUp(s[i].start) + b <= End(s[i])
  }

  /** The map s, of cap entries at most, can serve n requests for a page frame. */
  ghost predicate Room(s: seq<MemRange>, cap: nat, n: nat) {
    MapOk(s) && |s| + n <= cap && (n == 0 || HasBytes(s, n * 0x1000))
  }

  // ---------------------------------------------------------------------------------------
  // One allocation

  /** A split in extended memory leaves base memory alone. */
  lemma SplitKeepsBase(s: seq<MemRange>, i: nat, point: nat)
    requires MapOk(s) && i < |s| && IsRam(s[i]) && s[i].start <= point < End(s[i]) && s[i].start >= BMEM_MAX_ADDR
    ensures SameBase(s, SplitRange(s, i, point, E820_RAM, E820_RESERVED))
  {
    hide SplitRange;
    var t := SplitRange(s, i, point, E820_RAM, E820_RESERVED);
    forall j: nat ensures (InBaseAt(s, j) <==> InBaseAt(t, j)) && (InBaseAt(s, j) ==> s[j] == t[j]) {
      AboveFrom(s, i);
      if j < |t| {
        SplitEntry(s, i, point, j);
      }
    }
  }

  lemma AboveFrom(s: seq<MemRange>, i: nat)
    requires MapOk(s) && i < |s| && s[i].start >= BMEM_MAX_ADDR
    ensures forall j :: i <= j < |s| ==> s[j].start >= BMEM_MAX_ADDR
  {
  }

  /** A block in range j that starts no lower than one in range i of extended memory lies in
      extended memory as well. */
  lemma HigherBlock(s: seq<MemRange>, i: nat, b: nat, j: nat, a: nat)
    requires MapOk(s) && i < |s| && j < |s| && s[i].start >= BMEM_MAX_ADDR
    requires s[i].start <= b <= a < End(s[j])
    ensures i <= j && s[j].start >= BMEM_MAX_ADDR
  {
    assert RangeOk(s[j]);
  }

  /** If a block fits into range i of extended memory, the allocator finds one there or above. */
  lemma ExtendedAlloc(s: seq<MemRange>, cap: nat, sz: nat, align: nat, i: nat, b: nat)
    requires MapOk(s) && |s| < cap && sz > 0 && align > 0
    requires i < |s| && ExtendedRam(s[i]) && s[i].start <= b && b + sz <= End(s[i]) && b % align == 0
    ensures var r := Alloc(s, cap, sz, align, 0);
            && r.Placed? && i <= r.index < |s| && BMEM_MAX_ADDR <= s[r.index].start <= r.start < End(s[r.index])
            && IsRam(s[r.index]) && r.start == MaskDown(End(s[r.index]) - sz, align)
            && r.map' == SplitRange(s, r.index, r.start, E820_RAM, E820_RESERVED)
            && MapOk(r.map') && |r.map'| <= |s| + 1 && SameBase(s, r.map')
  {
    hide Alloc, MapOk, NoBlockAbove, SplitRange, SameBase, RoundUp, MaskDown;
    AllocIsHighestFit(s, cap, sz, align, 0);
    assert BlockIn(s[i], b, sz, align, XM32_MAX_ADDR);
    var r := Alloc(s, cap, sz, align, 0);
    if r.Placed? {
      NoneHigher(s, sz, align, r.start, i, b);
      AllocSplits(s, cap, sz, align);
      HigherBlock(s, i, b, r.index, r.start);
      SplitKeepsMapOk(s, r.index, r.start);
      SplitKeepsBase(s, r.index, r.start);
    } else {
      NoneHigher(s, sz, align, -1, i, b);
    }
  }

  lemma NoneHigher(s: seq<MemRange>, sz: nat, align: nat, a: int, i: nat, b: nat)
    requires align > 0 && NoBlockAbove(s, sz, align, XM32_MAX_ADDR, a)
    requires i < |s| && BlockIn(s[i], b, sz, align, XM32_MAX_ADDR)
    ensures b <= a
  {
  }

  /** What is left of the bytes of range i when a block at a has been taken from range k. */
  lemma BytesLeft(s: seq<MemRange>, k: nat, a: nat, i: nat, b: nat)
    requires k < |s| && IsRam(s[k]) && s[k].start <= a < End(s[k]) && i <= k
    requires ExtendedRam(s[i]) && RoundUp(s[i].start) + b <= End(s[i]) && b > 0
    requires i == k ==> RoundUp(s[i].start) + b <= a
    ensures HasBytes(SplitRange(s, k, a, E820_RAM, E820_RESERVED), b)
  {
    hide SplitRange, RoundUp;
    Rounded(s[i].start);
    var t := SplitRange(s, k, a, E820_RAM, E820_RESERVED);
    SplitEntry(s, k, a, i);
    assert ExtendedRam(t[i]) && RoundUp(t[i].start) + b <= End(t[i]);
  }

  // ---------------------------------------------------------------------------------------
  // Frames and other blocks

  lemma FrameStart(start: nat, end: nat, n: nat)
    requires n > 0 && RoundUp(start) + n * 0x1000 <= end
    ensures start <= RoundUp(start) && RoundUp(start) % 0x1000 == 0 && RoundUp(start) + 0x1000 <= end
    ensures RoundUp(start) + (n - 1) * 0x1000 <= MaskDown(end - 0x1000, 0x1000)
  {
    var q := (start + 0xfff) / 0x1000;
    MultipleMod(q, 0x1000, 0);
    hide RoundUp;
    Rounded(start);
    var m := MaskDown(end - 0x1000, 0x1000);
    MaskDownIsMultiple(end - 0x1000, 0x1000);
    var g := m / 0x1000;
    assert m == g * 0x1000 && RoundUp(start) / 0x1000 * 0x1000 == RoundUp(start);
    assert RoundUp(start) / 0x1000 + n - 1 < g + 1;
  }

  /** A request for a frame is served, from extended memory, and takes one off the supply. */
  lemma FrameStep(s: seq<MemRange>, cap: nat, n: nat)
    requires Room(s, cap, n) && n > 0
    ensures var r := Alloc(s, cap, 0x1000, 0x1000, 0);
            r.Placed? && Room(r.map', cap, n - 1) && SameBase(s, r.map')
  {
    hide Alloc, MapOk, SplitRange, SameBase, RoundUp, MaskDown;
    var i :| 0 <= i < |s| && ExtendedRam(s[i]) && RoundUp(s[i].start) + n * 0x1000 <= End(s[i]);
    FrameStart(s[i].start, End(s[i]), n);
    ExtendedAlloc(s, cap, 0x1000, 0x1000, i, RoundUp(s[i].start));
    var r := Alloc(s, cap, 0x1000, 0x1000, 0);
    if n > 1 {
      BytesLeft(s, r.index, r.start, i, (n - 1) * 0x1000);
    }
  }

  /** A request for sz bytes takes its size, and less than its alignment, off the supply. */
  lemma BytesStep(s: seq<MemRange>, cap: nat, sz: nat, align: nat, b: nat)
    requires MapOk(s) && |s| < cap && sz > 0 && align > 0 && b > 0 && HasBytes(s, b + sz + align - 1)
    ensures var r := Alloc(s, cap, sz, align, 0);
            && r.Placed? && MapOk(r.map') && |r.map'| <= |s| + 1 && HasBytes(r.map', b) && SameBase(s, r.map')
  {
    hide Alloc, MapOk, SplitRange, SameBase, RoundUp, MaskDown;
    var i :| 0 <= i < |s| && ExtendedRam(s[i]) && RoundUp(s[i].start) + (b + sz + align - 1) <= End(s[i]);
    Rounded(s[i].start);
    MaskDownIsMultiple(End(s[i]) - sz, align);
    ExtendedAlloc(s, cap, sz, align, i, MaskDown(End(s[i]) - sz, align));
    var r := Alloc(s, cap, sz, align, 0);
    BytesLeft(s, r.index, r.start, i, b);
  }

  // ---------------------------------------------------------------------------------------
  // Sequences of requests

  /** From the map s to the map t, c frames at most have been taken off the supply, and none of
      base memory. */
  ghost predicate Spends(s: seq<MemRange>, t: seq<MemRange>, cap: nat, c: nat) {
    forall n: nat :: c <= n && Room(s, cap, n) ==> Room(t, cap, n - c) && SameBase(s, t)
  }

  lemma SameBaseTransitive(s: seq<MemRange>, t: seq<MemRange>, u: seq<MemRange>)
    requires SameBase(s, t) && SameBase(t, u)
    ensures SameBase(s, u)
  {
    hide InBaseAt;
  }

  lemma SpendsNothing(s: seq<MemRange>, cap: nat)
    ensures Spends(s, s, cap, 0)
  {
    hide Room;
  }

  lemma SpendsThen(s: seq<MemRange>, t: seq<MemRange>, u: seq<MemRange>, cap: nat, c: nat, d: nat)
    requires Spends(s, t, cap, c) && Spends(t, u, cap, d)
    ensures Spends(s, u, cap, c + d)
  {
    hide Room, SameBase;
    forall n: nat | c + d <= n && Room(s, cap, n) ensures Room(u, cap, n - c - d) && SameBase(s, u) {
      SameBaseTransitive(s, t, u);
    }
  }
}

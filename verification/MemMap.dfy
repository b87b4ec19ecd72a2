/** The physical memory map of stage 2, on values: what the in-place routines of PhysMap
    compute, and what holds of every run of the physical allocator. */
module MemMap {
  import opened Machine

  const E820_RAM := 1
  const E820_RESERVED := 2
  const E820_ACPI := 3
  const E820_NVS := 4
  const E820_PMEM := 7

  datatype MemRange = MemRange(start: nat, len: nat, e820Type: nat, extAttr: nat, uefiAttr: nat)

  /** One past the last byte; at most 2^64 for the ranges of a valid map. */
  function End(r: MemRange): nat {
    r.start + r.len
  }

  predicate IsRam(r: MemRange) {
    r.e820Type == E820_RAM
  }

  predicate InRange(r: MemRange, a: int) {
    r.start <= a < End(r)
  }

  predicate RangeOk(r: MemRange) {
    && r.len > 0 && End(r) <= TWO64
    && (End(r) <= BMEM_MAX_ADDR || BMEM_MAX_ADDR <= r.start)
  }

  /** The invariant of the memory map. Ranges above 1 MiB come last, sorted and disjoint;
      RAM ranges are disjoint everywhere, in increasing order. Nothing is said about the
      order or overlap of the other ranges of base memory. */
  ghost predicate MapOk(s: seq<MemRange>) {
    && |s| > 0
    && (forall i :: 0 <= i < |s| ==> RangeOk(s[i]))
    && (forall i, j :: 0 <= i < j < |s| && s[i].start >= BMEM_MAX_ADDR ==> End(s[i]) <= s[j].start)
    && (forall i, j :: 0 <= i < j < |s| && IsRam(s[i]) && IsRam(s[j]) ==> End(s[i]) <= s[j].start)
  }

  ghost predicate SortedByStart(s: seq<MemRange>) {
    forall i, j :: 0 <= i < j < |s| ==> s[i].start <= s[j].start
  }

  /** Entry i is one of base memory. */
  predicate InBaseAt(t: seq<MemRange>, i: nat) {
    i < |t| && t[i].start < BMEM_MAX_ADDR
  }

  /** Two maps do not differ in base memory. */
  ghost predicate SameBase(t: seq<MemRange>, u: seq<MemRange>) {
    forall i: nat :: (InBaseAt(t, i) <==> InBaseAt(u, i)) && (InBaseAt(t, i) ==> t[i] == u[i])
  }

  /** No byte of [lo, hi) lies in a RAM range. */
  ghost predicate NoRam(s: seq<MemRange>, lo: int, hi: int) {
    forall i :: 0 <= i < |s| && IsRam(s[i]) ==> hi <= s[i].start || End(s[i]) <= lo
  }

  /** Some range holds all of [lo, hi). */
  ghost predicate InOne(s: seq<MemRange>, lo: int, hi: int) {
    exists i :: 0 <= i < |s| && s[i].start <= lo && hi <= End(s[i])
  }

  /** Byte a is described by a range with attribute word attr. */
  ghost predicate Covers(s: seq<MemRange>, a: int, attr: nat) {
    exists i :: 0 <= i < |s| && InRange(s[i], a) && s[i].uefiAttr == attr
  }

  predicate Inside(r: MemRange, q: MemRange) {
    q.start <= r.start && End(r) <= End(q) && r.uefiAttr == q.uefiAttr
  }

  ghost predicate InsideSome(r: MemRange, s: seq<MemRange>) {
    exists i :: 0 <= i < |s| && Inside(r, s[i])
  }

  /** t describes the same addresses as s with the same attributes, cut more finely. */
  ghost predicate Refines(t: seq<MemRange>, s: seq<MemRange>) {
    && (forall j :: 0 <= j < |t| ==> InsideSome(t[j], s))
    && (forall a, attr :: Covers(s, a, attr) ==> Covers(t, a, attr))
  }

  ghost predicate StartsRamOf(r: MemRange, s: seq<MemRange>) {
    exists i :: 0 <= i < |s| && IsRam(s[i]) && s[i].start == r.start && End(r) <= End(s[i])
  }

  /** Every RAM range of t is a RAM range of s, possibly cut short at the end. */
  ghost predicate RamShrinks(t: seq<MemRange>, s: seq<MemRange>) {
    forall j :: 0 <= j < |t| && IsRam(t[j]) ==> StartsRamOf(t[j], s)
  }

  lemma ShrinkingKeepsNoRam(t: seq<MemRange>, s: seq<MemRange>)
    requires RamShrinks(t, s)
    ensures forall lo: int, hi: int :: NoRam(s, lo, hi) ==> NoRam(t, lo, hi)
  {
  }

  function RamBytes(s: seq<MemRange>): nat {
    if s == [] then 0
    else RamBytes(s[..|s| - 1]) + (if IsRam(s[|s| - 1]) then s[|s| - 1].len else 0)
  }

  // ---------------------------------------------------------------------------------------
  // find_highest_range_below

  /** The source's `start + len - 1 > max_addr - 1`, in 64-bit arithmetic. */
  predicate EndsAbove(r: MemRange, max: nat) {
    (End(r) - 1) % TWO64 > (max - 1) % TWO64
  }

  function Bisect(s: seq<MemRange>, max: nat, left: nat, right: nat): (r: nat)
    requires left < right <= |s|
    ensures left <= r < right
    decreases right - left
  {
    if left == right - 1 then left
    else
      var mid := (left + right) / 2;
      if EndsAbove(s[mid], max) then Bisect(s, max, left, mid) else Bisect(s, max, mid, right)
  }

  datatype FindResult = Found(index: nat) | NotFound

  function StepDown(s: seq<MemRange>, max: nat, i: nat): (r: FindResult)
    requires i < |s|
    ensures r.Found? ==> r.index <= i && !EndsAbove(s[r.index], max)
    ensures r.Found? ==> forall j :: r.index < j <= i ==> EndsAbove(s[j], max)
    ensures r.NotFound? ==> forall j :: 0 <= j <= i ==> EndsAbove(s[j], max)
  {
    if !EndsAbove(s[i], max) then Found(i)
    else if i == 0 then NotFound
    else StepDown(s, max, i - 1)
  }

  function FindHighestBelow(s: seq<MemRange>, max: nat): (r: FindResult)
    requires |s| > 0
    ensures r.Found? ==> r.index < |s|
  {
    StepDown(s, max, Bisect(s, max, 0, |s|))
  }

  /** Whether ranges end above max only after those that do not. */
  ghost predicate Monotone(s: seq<MemRange>, max: nat) {
    forall i, j :: 0 <= i < j < |s| && EndsAbove(s[i], max) ==> EndsAbove(s[j], max)
  }

  lemma {:induction false} BisectSplits(s: seq<MemRange>, max: nat, left: nat, right: nat)
    requires left < right <= |s| && Monotone(s, max)
    requires forall j :: right <= j < |s| ==> EndsAbove(s[j], max)
    ensures forall j :: Bisect(s, max, left, right) < j < |s| ==> EndsAbove(s[j], max)
    decreases right - left
  {
    if left < right - 1 {
      var mid := (left + right) / 2;
      if EndsAbove(s[mid], max) {
        BisectSplits(s, max, left, mid);
      } else {
        BisectSplits(s, max, mid, right);
      }
    }
  }

  lemma EndsAboveMeans(r: MemRange, max: nat)
    requires RangeOk(r) && 0 < max <= TWO64
    ensures EndsAbove(r, max) <==> End(r) > max
  {
  }

  lemma LimitIsMonotone(s: seq<MemRange>, max: nat)
    requires MapOk(s) && BMEM_MAX_ADDR <= max <= TWO64
    ensures Monotone(s, max)
  {
    forall i, j | 0 <= i < j < |s| && EndsAbove(s[i], max)
      ensures EndsAbove(s[j], max)
    {
      EndsAboveMeans(s[i], max);
      EndsAboveMeans(s[j], max);
      assert s[i].start >= BMEM_MAX_ADDR;
    }
  }

  /** At or above 1 MiB the search returns the last range wholly below the limit, and halts
      exactly when there is none. */
  lemma FindIsHighest(s: seq<MemRange>, max: nat)
    requires MapOk(s) && BMEM_MAX_ADDR <= max <= TWO64
    ensures var r := FindHighestBelow(s, max);
            && (r.Found? ==> r.index < |s| && End(s[r.index]) <= max)
            && (r.Found? ==> forall j :: 0 <= j < |s| ==> (End(s[j]) <= max <==> j <= r.index))
            && (r.NotFound? <==> forall j :: 0 <= j < |s| ==> End(s[j]) > max)
  {
    LimitIsMonotone(s, max);
    BisectSplits(s, max, 0, |s|);
    forall j | 0 <= j < |s| ensures EndsAbove(s[j], max) <==> End(s[j]) > max {
      EndsAboveMeans(s[j], max);
    }
  }

  // ---------------------------------------------------------------------------------------
  // split_range

  predicate SplitNeedsRoom(r: MemRange, point: nat) {
    r.start != point && End(r) != point
  }

  /** What becomes of the range that is split. */
  function Pieces(r: MemRange, point: nat, below: nat, above: nat): seq<MemRange>
    requires r.start <= point <= End(r)
  {
    if r.start == point then [r.(e820Type := above)]
    else if End(r) == point then [r.(e820Type := below)]
    else [r.(len := point - r.start, e820Type := below),
          r.(start := point, len := End(r) - point, e820Type := above)]
  }

  function SplitRange(s: seq<MemRange>, i: nat, point: nat, below: nat, above: nat): (t: seq<MemRange>)
    requires i < |s| && s[i].start <= point <= End(s[i])
    ensures |t| == |s| + if SplitNeedsRoom(s[i], point) then 1 else 0
  {
    s[..i] + Pieces(s[i], point, below, above) + s[i + 1..]
  }

  lemma RetypedIsSplice(s: seq<MemRange>, i: nat, x: MemRange)
    requires i < |s|
    ensures s[i := x] == s[..i] + [x] + s[i + 1..]
  {
  }

  lemma InsertedIsSplice(s: seq<MemRange>, i: nat, x: MemRange, y: MemRange, t: seq<MemRange>)
    requires i < |s| && |t| == |s| + 1
    requires forall k :: 0 <= k < i ==> t[k] == s[k]
    requires t[i] == x && t[i + 1] == y
    requires forall k :: i + 1 < k < |t| ==> t[k] == s[k - 1]
    ensures t == s[..i] + [x, y] + s[i + 1..]
  {
  }

  /** The entry of the old map that entry j of the split map comes from. */
  function Origin(s: seq<MemRange>, i: nat, point: nat, j: nat): nat
    requires i < |s|
  {
    if SplitNeedsRoom(s[i], point) && j > i then j - 1 else j
  }

  lemma SplitEntry(s: seq<MemRange>, i: nat, point: nat, j: nat)
    requires i < |s| && IsRam(s[i]) && s[i].start <= point < End(s[i])
    requires j < |SplitRange(s, i, point, E820_RAM, E820_RESERVED)|
    ensures var e := SplitRange(s, i, point, E820_RAM, E820_RESERVED)[j];
            var k := Origin(s, i, point, j);
            && k < |s| && Inside(e, s[k]) && (k != i ==> e == s[k])
            && (k == i ==> e.len > 0 && if j == i && point > s[i].start then
                  IsRam(e) && e.start == s[i].start && End(e) == point
                else !IsRam(e) && e.start == point && End(e) == End(s[i]))
  {
  }

  lemma SplitKeepsMapOk(s: seq<MemRange>, i: nat, point: nat)
    requires MapOk(s) && i < |s| && IsRam(s[i]) && s[i].start <= point < End(s[i])
    ensures MapOk(SplitRange(s, i, point, E820_RAM, E820_RESERVED))
  {
    var t := SplitRange(s, i, point, E820_RAM, E820_RESERVED);
    forall j | 0 <= j < |t| ensures RangeOk(t[j]) {
      SplitEntry(s, i, point, j);
      assert RangeOk(s[Origin(s, i, point, j)]);
    }
    forall j, k | 0 <= j < k < |t| && t[j].start >= BMEM_MAX_ADDR ensures End(t[j]) <= t[k].start {
      SplitPairAbove(s, i, point, j, k);
    }
    forall j, k | 0 <= j < k < |t| && IsRam(t[j]) && IsRam(t[k]) ensures End(t[j]) <= t[k].start {
      SplitEntry(s, i, point, j);
      SplitEntry(s, i, point, k);
    }
  }

  lemma SplitPairAbove(s: seq<MemRange>, i: nat, point: nat, j: nat, k: nat)
    requires MapOk(s) && i < |s| && IsRam(s[i]) && s[i].start <= point < End(s[i])
    requires j < k < |SplitRange(s, i, point, E820_RAM, E820_RESERVED)|
    requires SplitRange(s, i, point, E820_RAM, E820_RESERVED)[j].start >= BMEM_MAX_ADDR
    ensures var t := SplitRange(s, i, point, E820_RAM, E820_RESERVED); End(t[j]) <= t[k].start
  {
    SplitEntry(s, i, point, j);
    SplitEntry(s, i, point, k);
    assert RangeOk(s[Origin(s, i, point, j)]);
  }

  lemma SplitRefines(s: seq<MemRange>, i: nat, point: nat)
    requires i < |s| && IsRam(s[i]) && s[i].start <= point < End(s[i])
    ensures Refines(SplitRange(s, i, point, E820_RAM, E820_RESERVED), s)
  {
    var t := SplitRange(s, i, point, E820_RAM, E820_RESERVED);
    forall j | 0 <= j < |t| ensures InsideSome(t[j], s) {
      SplitEntry(s, i, point, j);
    }
    forall a, attr | Covers(s, a, attr) ensures Covers(t, a, attr) {
      var k :| 0 <= k < |s| && InRange(s[k], a) && s[k].uefiAttr == attr;
      var j := if SplitNeedsRoom(s[i], point) && (k > i || (k == i && a >= point)) then k + 1 else k;
      SplitEntry(s, i, point, j);
      assert InRange(t[j], a) && t[j].uefiAttr == attr;
    }
  }

  /** Retyping the tail of RAM range i to RESERVED takes exactly that tail out of RAM. */
  lemma SplitTakesTail(s: seq<MemRange>, i: nat, point: nat)
    requires MapOk(s) && i < |s| && IsRam(s[i]) && s[i].start <= point < End(s[i])
    ensures var t := SplitRange(s, i, point, E820_RAM, E820_RESERVED);
            && NoRam(t, point, End(s[i]))
            && RamShrinks(t, s)
  {
    var t := SplitRange(s, i, point, E820_RAM, E820_RESERVED);
    forall j | 0 <= j < |t| && IsRam(t[j])
      ensures End(s[i]) <= t[j].start || End(t[j]) <= point
    {
      SplitEntry(s, i, point, j);
    }
    forall j | 0 <= j < |t| && IsRam(t[j])
      ensures StartsRamOf(t[j], s)
    {
      SplitEntry(s, i, point, j);
      assert IsRam(s[Origin(s, i, point, j)]);
    }
  }

  /** Entry e says of byte a that it has this type and these attributes. */
  predicate Says(e: MemRange, a: int, kind: nat, ext: nat, attr: nat) {
    InRange(e, a) && e.e820Type == kind && e.extAttr == ext && e.uefiAttr == attr
  }

  ghost predicate Said(s: seq<MemRange>, a: int, kind: nat, ext: nat, attr: nat) {
    exists i :: 0 <= i < |s| && Says(s[i], a, kind, ext, attr)
  }

  /** Some entry other than entry i says so. */
  ghost predicate SaidBeside(s: seq<MemRange>, i: int, a: int, kind: nat, ext: nat, attr: nat) {
    exists j :: 0 <= j < |s| && j != i && Says(s[j], a, kind, ext, attr)
  }

  lemma SaidConcat(s: seq<MemRange>, t: seq<MemRange>, a: int, kind: nat, ext: nat, attr: nat)
    ensures Said(s + t, a, kind, ext, attr) <==> Said(s, a, kind, ext, attr) || Said(t, a, kind, ext, attr)
  {
    hide Says;
    if i :| 0 <= i < |s| && Says(s[i], a, kind, ext, attr) {
      assert (s + t)[i] == s[i];
    }
    if i :| 0 <= i < |t| && Says(t[i], a, kind, ext, attr) {
      assert (s + t)[|s| + i] == t[i];
    }
  }

  lemma SaidBesideIs(s: seq<MemRange>, i: nat, a: int, kind: nat, ext: nat, attr: nat)
    requires i < |s|
    ensures SaidBeside(s, i, a, kind, ext, attr)
            <==> Said(s[..i], a, kind, ext, attr) || Said(s[i + 1..], a, kind, ext, attr)
  {
    hide Says;
    if j :| 0 <= j < |s| && j != i && Says(s[j], a, kind, ext, attr) {
      if j < i {
        assert s[..i][j] == s[j];
      } else {
        assert s[i + 1..][j - i - 1] == s[j];
      }
    }
    var rest := s[i + 1..];
    if j :| 0 <= j < |rest| && Says(rest[j], a, kind, ext, attr) {
      assert s[i + 1 + j] == rest[j];
    }
  }

  lemma PiecesSay(r: MemRange, point: nat, below: nat, above: nat, a: int, kind: nat, ext: nat, attr: nat)
    requires r.start <= point <= End(r)
    ensures Said(Pieces(r, point, below, above), a, kind, ext, attr)
            <==> Says(r.(e820Type := kind), a, kind, ext, attr) && kind == (if a < point then below else above)
  {
    var m := Pieces(r, point, below, above);
    assert Says(m[0], a, kind, ext, attr) ==> Said(m, a, kind, ext, attr);
    assert |m| > 1 ==> (Says(m[1], a, kind, ext, attr) ==> Said(m, a, kind, ext, attr));
  }

  /** A split gives the bytes of its range the one type below the point and the other from it on,
      with the attributes they had, and leaves what all other entries say. */
  lemma SplitRetypes(s: seq<MemRange>, i: nat, point: nat, below: nat, above: nat, a: int, kind: nat, ext: nat,
                     attr: nat)
    requires i < |s| && s[i].start <= point <= End(s[i])
    ensures Said(SplitRange(s, i, point, below, above), a, kind, ext, attr)
            <==> || SaidBeside(s, i, a, kind, ext, attr)
                 || (InRange(s[i], a) && ext == s[i].extAttr && attr == s[i].uefiAttr
                     && kind == if a < point then below else above)
  {
    hide Said, SaidBeside, Pieces;
    var m := Pieces(s[i], point, below, above);
    SaidConcat(s[..i] + m, s[i + 1..], a, kind, ext, attr);
    SaidConcat(s[..i], m, a, kind, ext, attr);
    SaidBesideIs(s, i, a, kind, ext, attr);
    PiecesSay(s[i], point, below, above, a, kind, ext, attr);
  }

  /** Splitting keeps the map sorted by start exactly when the split point does not pass the
      start of the next range: base memory may list a RESERVED range inside a RAM range. */
  lemma SplitKeepsSortedIff(s: seq<MemRange>, i: nat, point: nat)
    requires SortedByStart(s) && i < |s| && IsRam(s[i]) && s[i].start <= point < End(s[i])
    ensures SortedByStart(SplitRange(s, i, point, E820_RAM, E820_RESERVED))
            <==> point == s[i].start || i + 1 == |s| || point <= s[i + 1].start
  {
    var t := SplitRange(s, i, point, E820_RAM, E820_RESERVED);
    if point == s[i].start {
      assert forall j :: 0 <= j < |s| ==> t[j].start == s[j].start;
    } else if i + 1 == |s| || point <= s[i + 1].start {
      forall j, k | 0 <= j < k < |t| ensures t[j].start <= t[k].start {
        SplitEntry(s, i, point, j);
        SplitEntry(s, i, point, k);
      }
    } else {
      assert t[i + 1].start == point && t[i + 2] == s[i + 1];
    }
  }

  lemma {:induction false} RamBytesConcat(s: seq<MemRange>, t: seq<MemRange>)
    ensures RamBytes(s + t) == RamBytes(s) + RamBytes(t)
    decreases |t|
  {
    if t == [] {
      assert s + t == s;
    } else {
      var n := |t| - 1;
      RamBytesConcat(s, t[..n]);
      assert (s + t)[..|s + t| - 1] == s + t[..n];
    }
  }

  lemma RamBytesFew(r: MemRange, q: MemRange)
    ensures RamBytes([r]) == if IsRam(r) then r.len else 0
    ensures RamBytes([r, q]) == RamBytes([r]) + RamBytes([q])
  {
    assert [r][..0] == [];
    assert [q][..0] == [];
    assert [r, q][..1] == [r];
  }

  lemma RamBytesReplace(l: seq<MemRange>, m: seq<MemRange>, n: seq<MemRange>, r: seq<MemRange>)
    ensures RamBytes(l + m + r) - RamBytes(m) == RamBytes(l + n + r) - RamBytes(n)
  {
    RamBytesConcat(l + m, r);
    RamBytesConcat(l, m);
    RamBytesConcat(l + n, r);
    RamBytesConcat(l, n);
  }

  lemma RamBytesSplice(s: seq<MemRange>, i: nat, mid: seq<MemRange>)
    requires i < |s|
    ensures RamBytes(s[..i] + mid + s[i + 1..]) == RamBytes(s) - RamBytes([s[i]]) + RamBytes(mid)
  {
    RamBytesReplace(s[..i], [s[i]], mid, s[i + 1..]);
    assert s == s[..i] + [s[i]] + s[i + 1..];
  }

  lemma SplitDropsRamBytes(s: seq<MemRange>, i: nat, point: nat)
    requires i < |s| && IsRam(s[i]) && s[i].start <= point < End(s[i])
    ensures RamBytes(SplitRange(s, i, point, E820_RAM, E820_RESERVED)) == RamBytes(s) - (End(s[i]) - point)
  {
    RamBytesSplice(s, i, Pieces(s[i], point, E820_RAM, E820_RESERVED));
    RamBytesPieces(s[i], point);
  }

  lemma RamBytesPieces(r: MemRange, point: nat)
    requires r.start <= point < End(r) && IsRam(r)
    ensures RamBytes(Pieces(r, point, E820_RAM, E820_RESERVED)) == RamBytes([r]) - (End(r) - point)
  {
    var m := Pieces(r, point, E820_RAM, E820_RESERVED);
    RamBytesFew(r, r);
    RamBytesFew(m[0], r);
    if |m| == 2 {
      RamBytesFew(m[0], m[1]);
      RamBytesFew(m[1], r);
    }
  }

  // ---------------------------------------------------------------------------------------
  // mem_alloc

  datatype AllocResult =
    | Null                                            // size 0
    | Placed(index: nat, start: nat, map': seq<MemRange>)
    | Stopped(why: Outcome)

  /** Where a block of sz bytes goes in range r, in the source's 32-bit arithmetic. */
  function TopFit(r: MemRange, sz: nat, align: nat): nat
    requires align > 0
  {
    MaskDown((End(r) % XM32_MAX_ADDR - sz) % XM32_MAX_ADDR, align)
  }

  predicate Rejects(r: MemRange, sz: nat) {
    !IsRam(r) || r.len < sz
  }

  datatype Candidate = At(index: nat, start: nat) | Nowhere(why: Outcome)

  /** The downward walk of mem_alloc; below the first entry it reads outside the map. */
  function Scan(s: seq<MemRange>, i: nat, sz: nat, align: nat): (c: Candidate)
    requires i < |s| && align > 0
    ensures c.Nowhere? ==> c.why != Done
  {
    var next := if i == 0 then Nowhere(Undefined) else Scan(s, i - 1, sz, align);
    if Rejects(s[i], sz) then next
    else if TopFit(s[i], sz, align) >= s[i].start then At(i, TopFit(s[i], sz, align))
    else if s[i].start == 0 then Nowhere(Halted)
    else next
  }

  function Limit(maxAddr: uint32): nat {
    if maxAddr == 0 then XM32_MAX_ADDR else maxAddr
  }

  function Candidates(s: seq<MemRange>, sz: nat, align: nat, maxAddr: uint32): Candidate
    requires |s| > 0 && align > 0
  {
    if Limit(maxAddr) < sz then Nowhere(Halted)
    else
      match FindHighestBelow(s, Limit(maxAddr))
      case NotFound => Nowhere(Halted)
      case Found(i) => Scan(s, i, sz, align)
  }

  predicate Fits(r: MemRange, sz: nat, align: nat)
    requires align > 0
  {
    IsRam(r) && r.len >= sz && MaskDown(End(r) - sz, align) >= r.start
  }

  /** Taking the tail of a candidate range; cap is the room in the map. */
  function Take(s: seq<MemRange>, cap: nat, c: Candidate): AllocResult
    requires c.At? ==> c.index < |s| && s[c.index].start <= c.start <= End(s[c.index])
  {
    match c
    case Nowhere(why) => Stopped(why)
    case At(i, a) =>
      if SplitNeedsRoom(s[i], a) && |s| >= cap then Stopped(Halted)
      else Placed(i, a, SplitRange(s, i, a, E820_RAM, E820_RESERVED))
  }

  lemma FitIsInside(r: MemRange, sz: nat, align: nat)
    requires align > 0 && sz > 0 && Fits(r, sz, align)
    ensures r.start <= MaskDown(End(r) - sz, align) < End(r)
    ensures MaskDown(End(r) - sz, align) + sz <= End(r)
  {
  }

  /** mem_alloc on a map with room for cap entries. */
  function Alloc(s: seq<MemRange>, cap: nat, sz: nat, align: nat, maxAddr: uint32): (r: AllocResult)
    requires MapOk(s) && align > 0
    ensures r.Null? <==> sz == 0
    ensures r.Stopped? ==> r.why != Done
  {
    if sz == 0 then Null
    else
      CandidateIsTopFit(s, sz, align, maxAddr);
      Take(s, cap, Candidates(s, sz, align, maxAddr))
  }

  lemma TopFitMeans(r: MemRange, sz: nat, align: nat)
    requires RangeOk(r) && End(r) <= XM32_MAX_ADDR && 0 < sz <= r.len && align > 0
    ensures TopFit(r, sz, align) == MaskDown(End(r) - sz, align)
  {
    assert (End(r) % XM32_MAX_ADDR - sz) % XM32_MAX_ADDR == End(r) - sz;
  }

  /** c is the highest of the first n ranges that holds an aligned block, or there is none. */
  ghost predicate FirstFit(s: seq<MemRange>, n: nat, sz: nat, align: nat, c: Candidate)
    requires n <= |s| && align > 0
  {
    match c
    case At(k, a) =>
      && k < n && Fits(s[k], sz, align) && a == MaskDown(End(s[k]) - sz, align)
      && forall j :: k < j < n ==> !Fits(s[j], sz, align)
    case Nowhere(why) => why == Undefined && forall j :: 0 <= j < n ==> !Fits(s[j], sz, align)
  }

  lemma NoneFitsNowhere(s: seq<MemRange>, sz: nat, align: nat)
    requires align > 0
    ensures FirstFit(s, 0, sz, align, Nowhere(Undefined))
  {
  }

  /** The walk stops at the first range, going down, that holds an aligned block, and fails
      only by walking off the map: the source's own hlt() there is never reached. */
  lemma {:induction false} ScanFindsFit(s: seq<MemRange>, i: nat, sz: nat, align: nat)
    requires i < |s| && 0 < sz && align > 0
    requires forall j :: 0 <= j <= i ==> RangeOk(s[j]) && End(s[j]) <= XM32_MAX_ADDR
    ensures FirstFit(s, i + 1, sz, align, Scan(s, i, sz, align))
    decreases i
  {
    hide FirstFit, RangeOk, Rejects, Fits, TopFit, End;
    if i == 0 {
      assert FirstFit(s, 0, sz, align, Nowhere(Undefined)) by { NoneFitsNowhere(s, sz, align); }
    } else {
      ScanFindsFit(s, i - 1, sz, align);
    }
    ScanStep(s, i, sz, align, if i == 0 then Nowhere(Undefined) else Scan(s, i - 1, sz, align));
  }

  lemma ScanStep(s: seq<MemRange>, i: nat, sz: nat, align: nat, below: Candidate)
    requires i < |s| && 0 < sz && align > 0 && RangeOk(s[i]) && End(s[i]) <= XM32_MAX_ADDR
    requires FirstFit(s, i, sz, align, below)
    ensures FirstFit(s, i + 1, sz, align,
              if Rejects(s[i], sz) then below
              else if TopFit(s[i], sz, align) >= s[i].start then At(i, TopFit(s[i], sz, align))
              else if s[i].start == 0 then Nowhere(Halted)
              else below)
  {
    hide MaskDown, TopFit;
    if !Rejects(s[i], sz) {
      TopFitMeans(s[i], sz, align);
    }
  }

  lemma LowerRangesEndLower(s: seq<MemRange>, i: nat, j: nat)
    requires MapOk(s) && j <= i < |s|
    ensures End(s[j]) <= BMEM_MAX_ADDR || End(s[j]) <= End(s[i])
  {
  }

  lemma FoundBelow(s: seq<MemRange>, max: nat)
    requires MapOk(s) && 0 < max <= XM32_MAX_ADDR && FindHighestBelow(s, max).Found?
    ensures FindHighestBelow(s, max).index < |s|
    ensures forall j :: 0 <= j <= FindHighestBelow(s, max).index ==> End(s[j]) <= XM32_MAX_ADDR
    ensures End(s[FindHighestBelow(s, max).index]) <= max
  {
    var i := FindHighestBelow(s, max).index;
    EndsAboveMeans(s[i], max);
    forall j | 0 <= j <= i ensures End(s[j]) <= XM32_MAX_ADDR {
      LowerRangesEndLower(s, i, j);
    }
  }

  lemma CandidateIsTopFit(s: seq<MemRange>, sz: nat, align: nat, maxAddr: uint32)
    requires MapOk(s) && sz > 0 && align > 0
    ensures match Candidates(s, sz, align, maxAddr)
            case At(k, a) =>
              && k < |s| && Fits(s[k], sz, align) && a == MaskDown(End(s[k]) - sz, align)
              && End(s[k]) <= XM32_MAX_ADDR
            case Nowhere(_) => true
  {
    var max := Limit(maxAddr);
    if max >= sz && FindHighestBelow(s, max).Found? {
      FoundBelow(s, max);
      ScanFindsFit(s, FindHighestBelow(s, max).index, sz, align);
    }
  }

  // ---------------------------------------------------------------------------------------
  // What one allocation does

  /** What a successful allocation of [a, end) does to the map s, leaving t. */
  ghost predicate Carved(s: seq<MemRange>, t: seq<MemRange>, a: nat, end: nat) {
    && MapOk(t) && |s| <= |t| && Refines(t, s)
    && NoRam(t, a, end)
    && RamShrinks(t, s)
    && RamBytes(t) == RamBytes(s) - (end - a)
  }

  lemma TakeCarves(s: seq<MemRange>, i: nat, a: nat)
    requires MapOk(s) && i < |s| && IsRam(s[i]) && s[i].start <= a < End(s[i])
    ensures Carved(s, SplitRange(s, i, a, E820_RAM, E820_RESERVED), a, End(s[i]))
  {
    SplitKeepsMapOk(s, i, a);
    SplitRefines(s, i, a);
    SplitTakesTail(s, i, a);
    SplitDropsRamBytes(s, i, a);
  }

  /** A successful allocation takes an aligned block from the tail of a RAM range, together
      with the bytes after it up to the end of that range, and nothing else. */
  lemma AllocEffect(s: seq<MemRange>, cap: nat, sz: nat, align: nat, maxAddr: uint32)
    requires MapOk(s) && |s| <= cap && sz > 0 && align > 0
    requires Alloc(s, cap, sz, align, maxAddr).Placed?
    ensures var r := Alloc(s, cap, sz, align, maxAddr);
            && r.index < |s| && IsRam(s[r.index])
            && s[r.index].start <= r.start && r.start + sz <= End(s[r.index]) <= XM32_MAX_ADDR
            && r.start % align == 0 && |r.map'| <= cap
            && Carved(s, r.map', r.start, End(s[r.index]))
  {
    CandidateIsTopFit(s, sz, align, maxAddr);
    var c := Candidates(s, sz, align, maxAddr);
    MaskDownIsMultiple(End(s[c.index]) - sz, align);
    TakeCarves(s, c.index, c.start);
  }

  /** It makes these bytes RESERVED, with the attributes they had, and all others stay as they were:
      those of the range below the block remain RAM. */
  lemma AllocRetypes(s: seq<MemRange>, cap: nat, sz: nat, align: nat, maxAddr: uint32, a: int, kind: nat, ext: nat,
                     attr: nat)
    requires MapOk(s) && sz > 0 && align > 0 && Alloc(s, cap, sz, align, maxAddr).Placed?
    ensures var r := Alloc(s, cap, sz, align, maxAddr);
            && r.index < |s| && IsRam(s[r.index]) && InRange(s[r.index], r.start)
            && (Said(r.map', a, kind, ext, attr)
                <==> || SaidBeside(s, r.index, a, kind, ext, attr)
                     || (InRange(s[r.index], a) && ext == s[r.index].extAttr && attr == s[r.index].uefiAttr
                         && kind == if a < r.start then E820_RAM else E820_RESERVED))
  {
    hide Candidates, MaskDown, SplitRange, Said, SaidBeside;
    CandidateIsTopFit(s, sz, align, maxAddr);
    var c := Candidates(s, sz, align, maxAddr);
    FitIsInside(s[c.index], sz, align);
    SplitRetypes(s, c.index, c.start, E820_RAM, E820_RESERVED, a, kind, ext, attr);
  }

  /** For a limit of 0 or at least 1 MiB the walk finds the highest range that fits, and fails
      exactly when no range wholly below the limit fits. */
  lemma CandidateIsHighest(s: seq<MemRange>, sz: nat, align: nat, maxAddr: uint32)
    requires MapOk(s) && sz > 0 && align > 0
    requires maxAddr == 0 || maxAddr >= BMEM_MAX_ADDR
    ensures var max := if maxAddr == 0 then 0x1_0000_0000 else maxAddr;
            match Candidates(s, sz, align, maxAddr)
            case At(i, a) =>
              && i < |s| && End(s[i]) <= max
              && forall j :: i < j < |s| && End(s[j]) <= max ==> !Fits(s[j], sz, align)
            case Nowhere(why) =>
              forall j :: 0 <= j < |s| && End(s[j]) <= max ==> !Fits(s[j], sz, align)
  {
    var max := Limit(maxAddr);
    FindIsHighest(s, max);
    if max >= sz && FindHighestBelow(s, max).Found? {
      var top := FindHighestBelow(s, max).index;
      FoundBelow(s, max);
      ScanFindsFit(s, top, sz, align);
    }
  }

  predicate BlockIn(r: MemRange, b: nat, sz: nat, align: nat, max: nat)
    requires align > 0
  {
    IsRam(r) && End(r) <= max && r.start <= b && b + sz <= End(r) && b % align == 0
  }

  lemma FitIsBlock(r: MemRange, sz: nat, align: nat, max: nat)
    requires align > 0 && sz > 0 && Fits(r, sz, align) && End(r) <= max
    ensures BlockIn(r, MaskDown(End(r) - sz, align), sz, align, max)
  {
    MaskDownIsMultiple(End(r) - sz, align);
  }

  /** No aligned block in a RAM range wholly below max starts above a. */
  ghost predicate NoBlockAbove(s: seq<MemRange>, sz: nat, align: nat, max: nat, a: int)
    requires align > 0
  {
    forall j, b: nat :: 0 <= j < |s| && BlockIn(s[j], b, sz, align, max) ==> b <= a
  }

  lemma HighestRangeHighestBlock(s: seq<MemRange>, sz: nat, align: nat, max: nat, i: nat)
    requires MapOk(s) && sz > 0 && align > 0 && i < |s| && Fits(s[i], sz, align)
    requires forall j :: i < j < |s| && End(s[j]) <= max ==> !Fits(s[j], sz, align)
    ensures NoBlockAbove(s, sz, align, max, MaskDown(End(s[i]) - sz, align))
  {
    forall j, b: nat | 0 <= j < |s| && BlockIn(s[j], b, sz, align, max)
      ensures b <= MaskDown(End(s[i]) - sz, align)
    {
      AlignedBlockFits(s[j], sz, align, b);
    }
  }

  lemma NoFitNoBlock(s: seq<MemRange>, sz: nat, align: nat, max: nat)
    requires align > 0
    requires forall j :: 0 <= j < |s| && End(s[j]) <= max ==> !Fits(s[j], sz, align)
    ensures NoBlockAbove(s, sz, align, max, -1)
  {
    forall j, b: nat | 0 <= j < |s| && BlockIn(s[j], b, sz, align, max)
      ensures false
    {
      AlignedBlockFits(s[j], sz, align, b);
    }
  }

  /** For a limit of 0 or at least 1 MiB: the block ends within the limit; no aligned block of
      the same size in any RAM range wholly below the limit starts higher; and the allocator
      fails exactly when there is no such block, or the map is full and a split is needed. */
  lemma AllocIsHighestFit(s: seq<MemRange>, cap: nat, sz: nat, align: nat, maxAddr: uint32)
    requires MapOk(s) && |s| <= cap && sz > 0 && align > 0
    requires maxAddr == 0 || maxAddr >= BMEM_MAX_ADDR
    ensures var max := if maxAddr == 0 then 0x1_0000_0000 else maxAddr;
            match Alloc(s, cap, sz, align, maxAddr)
            case Placed(i, a, _) =>
              && i < |s| && BlockIn(s[i], a, sz, align, max)
              && NoBlockAbove(s, sz, align, max, a)
            case Stopped(why) =>
              NoBlockAbove(s, sz, align, max, -1) || (why == Halted && |s| == cap)
            case Null => false
  {
    hide Candidates, Fits, BlockIn, MaskDown, SplitRange, NoBlockAbove;
    CandidateIsTopFit(s, sz, align, maxAddr);
    CandidateIsHighest(s, sz, align, maxAddr);
    var c := Candidates(s, sz, align, maxAddr);
    if c.At? {
      FitIsBlock(s[c.index], sz, align, Limit(maxAddr));
      HighestRangeHighestBlock(s, sz, align, Limit(maxAddr), c.index);
    } else {
      NoFitNoBlock(s, sz, align, Limit(maxAddr));
    }
  }

  /** MaskDown(End - sz) is the highest aligned start of a block in r. */
  lemma AlignedBlockFits(r: MemRange, sz: nat, align: nat, b: nat)
    requires IsRam(r) && align > 0 && r.start <= b && b + sz <= End(r) && b % align == 0
    ensures Fits(r, sz, align) && b <= MaskDown(End(r) - sz, align)
  {
    var a := MaskDown(End(r) - sz, align);
    MaskDownIsMultiple(End(r) - sz, align);
    if a < b {
      MultiplesApart(a, b, align);
    }
  }
}

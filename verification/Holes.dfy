/** The unused virtual address ranges that va_init finds in the memory map (stage2/mem.c:327-360):
    exactly the pages of extended memory space, below 4 GiB, that no memory range touches. */
module Holes {
  import opened Machine
  import opened MemMap
  import opened VaPool

  /** Some byte of page q lies in range r. */
  predicate Touches(r: MemRange, q: nat) {
    r.len > 0 && r.start < (q + 1) * 0x1000 && q * 0x1000 < MemMap.End(r)
  }

  ghost predicate Touched(s: seq<MemRange>, q: nat) {
    exists j :: 0 <= j < |s| && Touches(s[j], q)
  }

  /** Where the hole after range i - 1 may start, or 2^32 if the scan stops there. */
  function HoleStart(s: seq<MemRange>, i: nat): nat
    requires 0 < i <= |s|
  {
    var prevEnd := MemMap.End(s[i - 1]) % TWO64;
    if (prevEnd - 1) % TWO64 >= XM32_MAX_ADDR - 1 then XM32_MAX_ADDR
    else if (RoundUp(prevEnd) - 1) % TWO64 >= XM32_MAX_ADDR - 1 then XM32_MAX_ADDR
    else if RoundUp(prevEnd) < BMEM_MAX_ADDR then BMEM_MAX_ADDR
    else RoundUp(prevEnd)
  }

  function HoleEnd(s: seq<MemRange>, i: nat): nat
    requires i <= |s|
  {
    if i == |s| then XM32_MAX_ADDR
    else if RoundDown(s[i].start) > XM32_MAX_ADDR then XM32_MAX_ADDR
    else RoundDown(s[i].start)
  }

  /** The holes that the scan finds from entry i on. */
  function HolesFrom(s: seq<MemRange>, i: nat): seq<VaRange>
    requires 0 < i <= |s| + 1
    decreases |s| + 1 - i
  {
    if i > |s| || HoleStart(s, i) == XM32_MAX_ADDR then []
    else if HoleStart(s, i) >= HoleEnd(s, i) then HolesFrom(s, i + 1)
    else [VaRange(HoleStart(s, i), HoleEnd(s, i) - HoleStart(s, i))] + HolesFrom(s, i + 1)
  }

  // ---------------------------------------------------------------------------------------

  /** The 64-bit tests amount to comparing the rounded end with 4 GiB. */
  lemma HoleStartMeans(s: seq<MemRange>, i: nat)
    requires 0 < i <= |s| && RangeOk(s[i - 1])
    ensures var e := MemMap.End(s[i - 1]);
            && (HoleStart(s, i) == XM32_MAX_ADDR <==> RoundUp(e) >= XM32_MAX_ADDR)
            && (RoundUp(e) < XM32_MAX_ADDR ==>
                  HoleStart(s, i) == if RoundUp(e) < BMEM_MAX_ADDR then BMEM_MAX_ADDR else RoundUp(e))
  {
    hide RoundUp, RoundDown;
    Rounded(MemMap.End(s[i - 1]));
    if MemMap.End(s[i - 1]) == TWO64 {
      assert MemMap.End(s[i - 1]) % TWO64 == 0;
    }
  }

  lemma HoleBounds(s: seq<MemRange>, i: nat)
    requires 0 < i <= |s| && RangeOk(s[i - 1])
    ensures HoleStart(s, i) % 0x1000 == 0 && HoleEnd(s, i) % 0x1000 == 0
    ensures BMEM_MAX_ADDR <= HoleStart(s, i) && HoleEnd(s, i) <= XM32_MAX_ADDR
    ensures HoleStart(s, i) < XM32_MAX_ADDR ==> MemMap.End(s[i - 1]) <= HoleStart(s, i)
    ensures i < |s| ==> HoleEnd(s, i) <= s[i].start
  {
    hide RoundUp, RoundDown, HoleStart;
    HoleStartMeans(s, i);
    Rounded(MemMap.End(s[i - 1]));
    if i < |s| {
      Rounded(s[i].start);
    }
  }

  /** The holes found are page-aligned, not empty, at or above 1 MiB, below 4 GiB, at or past
      the end of the range before them, and any two have a gap between them. */
  lemma {:induction false} HolesAreOk(s: seq<MemRange>, i: nat)
    requires MapOk(s) && 0 < i <= |s| + 1
    ensures var h := HolesFrom(s, i);
            && PoolOk(h) && |h| <= |s| + 1 - i
            && (forall k :: 0 <= k < |h| ==> MemMap.End(s[i - 1]) <= h[k].start)
    decreases |s| + 1 - i
  {
    if i <= |s| {
      assert RangeOk(s[i - 1]);
      HolesAreOk(s, i + 1);
      HoleBounds(s, i);
      ConsHole(s, i, HolesFrom(s, i + 1));
    }
  }

  lemma ConsHole(s: seq<MemRange>, i: nat, rest: seq<VaRange>)
    requires 0 < i <= |s| && RangeOk(s[i - 1]) && PoolOk(rest)
    requires i < |s| ==> RangeOk(s[i]) && forall k :: 0 <= k < |rest| ==> MemMap.End(s[i]) <= rest[k].start
    requires i == |s| ==> rest == []
    requires i < |s| && s[i - 1].start >= BMEM_MAX_ADDR ==> MemMap.End(s[i - 1]) <= s[i].start
    ensures forall k :: 0 <= k < |rest| ==> MemMap.End(s[i - 1]) <= rest[k].start
    ensures HoleStart(s, i) < HoleEnd(s, i) ==>
              PoolOk([VaRange(HoleStart(s, i), HoleEnd(s, i) - HoleStart(s, i))] + rest)
  {
    hide HoleStart, HoleEnd;
    HoleBounds(s, i);
    forall k | 0 <= k < |rest| ensures MemMap.End(s[i - 1]) <= rest[k].start {
      if MemMap.End(s[i - 1]) <= BMEM_MAX_ADDR {
        assert BMEM_MAX_ADDR <= rest[k].start;
      }
    }
  }

  /** Page q lies past the range before entry i, and no entry from i on touches it. */
  ghost predicate UntouchedFrom(s: seq<MemRange>, i: nat, q: nat)
    requires 0 < i <= |s|
  {
    MemMap.End(s[i - 1]) <= q * 0x1000 && forall j :: i <= j < |s| ==> !Touches(s[j], q)
  }

  /** Page q is in the hole between entries i - 1 and i. */
  predicate InHole(s: seq<MemRange>, i: nat, q: nat)
    requires 0 < i <= |s|
  {
    HoleStart(s, i) <= q * 0x1000 < HoleEnd(s, i)
  }

  lemma InHoleMeans(s: seq<MemRange>, i: nat, q: nat)
    requires MapOk(s) && 0 < i <= |s| && 0x100 <= q < 0x10_0000
    ensures InHole(s, i, q) <==>
              MemMap.End(s[i - 1]) <= q * 0x1000 && (i < |s| ==> (q + 1) * 0x1000 <= s[i].start)
    ensures HoleStart(s, i) == XM32_MAX_ADDR ==> MemMap.End(s[i - 1]) > q * 0x1000
  {
    hide HoleStart, RoundUp, RoundDown, MapOk;
    assert RangeOk(s[i - 1]) by { RangesOk(s); }
    HoleStartMeans(s, i);
    RoundedPage(MemMap.End(s[i - 1]), q);
    if i < |s| {
      RoundedPage(s[i].start, q);
    }
  }

  lemma RangesOk(s: seq<MemRange>)
    requires MapOk(s)
    ensures forall i :: 0 <= i < |s| ==> RangeOk(s[i])
  {
  }

  lemma RoundedPage(x: nat, q: nat)
    ensures RoundUp(x) <= q * 0x1000 <==> x <= q * 0x1000
    ensures q * 0x1000 < RoundDown(x) <==> (q + 1) * 0x1000 <= x
  {
  }

  /** A page is past entry i - 1 and untouched by the later ones exactly when it is in the hole
      before entry i or past entry i and untouched by those after it. */
  lemma UntouchedSteps(s: seq<MemRange>, i: nat, q: nat)
    requires MapOk(s) && 0 < i < |s| && 0x100 <= q < 0x10_0000
    ensures UntouchedFrom(s, i, q) <==>
              (MemMap.End(s[i - 1]) <= q * 0x1000 && (q + 1) * 0x1000 <= s[i].start) || UntouchedFrom(s, i + 1, q)
  {
    assert RangeOk(s[i - 1]) && RangeOk(s[i]);
  }

  lemma InSomeCons(h: VaRange, rest: seq<VaRange>, a: int)
    ensures InSome([h] + rest, a) <==> In(h, a) || InSome(rest, a)
  {
    var s := [h] + rest;
    if In(h, a) {
      assert In(s[0], a);
    }
    if InSome(rest, a) {
      var k :| 0 <= k < |rest| && In(rest[k], a);
      assert In(s[k + 1], a);
    }
    if InSome(s, a) {
      var k :| 0 <= k < |s| && In(s[k], a);
      assert k > 0 ==> In(rest[k - 1], a);
    }
  }

  /** The scan misses no free page and reports no page that a memory range touches. */
  lemma {:induction false} HolesExact(s: seq<MemRange>, i: nat, q: nat)
    requires MapOk(s) && 0 < i <= |s| && 0x100 <= q < 0x10_0000
    ensures InSome(HolesFrom(s, i), q * 0x1000) <==> UntouchedFrom(s, i, q)
    decreases |s| - i
  {
    hide HoleStart, HoleEnd, MapOk, Touches;
    InHoleMeans(s, i, q);
    if i < |s| {
      HolesExact(s, i + 1, q);
      UntouchedSteps(s, i, q);
    }
    if HoleStart(s, i) < HoleEnd(s, i) {
      InSomeCons(VaRange(HoleStart(s, i), HoleEnd(s, i) - HoleStart(s, i)), HolesFrom(s, i + 1), q * 0x1000);
    }
  }

  /** With base memory in the map: a page of extended memory space below 4 GiB is in the pool
      exactly when no memory range touches it. */
  lemma PoolIsUntouched(s: seq<MemRange>, q: nat)
    requires MapOk(s) && s[0].start == 0 && 0x100 <= q < 0x10_0000
    ensures InSome(HolesFrom(s, 1), q * 0x1000) <==> !Touched(s, q)
  {
    hide HolesFrom;
    HolesExact(s, 1, q);
    assert RangeOk(s[0]);
    if UntouchedFrom(s, 1, q) {
      assert !Touches(s[0], q);
    }
  }
}

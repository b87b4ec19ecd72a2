/** Building the memory map from the boot parameters (stage2/mem.c:122-207). */
module MemMapInit {
  import opened Machine
  import opened MemMap
  import ShellSort
  import PhysMap

  /** A boot parameter node: a memory address range, or one of the other types. */
  datatype BootParam = Mrng(range: MemRange) | Other(kind: nat)

  const RANGE_SIZE := PhysMap.RANGE_SIZE

  predicate NonEmpty(b: BootParam) {
    b.Mrng? && b.range.len != 0
  }

  /** The map that stage 1 hands over. Base memory may list a range twice, as RAM and as
      RESERVED, so nothing more is asked of ranges below 1 MiB. */
  ghost predicate BootMapOk(bps: seq<BootParam>) {
    && (forall i :: 0 <= i < |bps| && NonEmpty(bps[i]) ==> RangeOk(bps[i].range))
    && (forall i, j :: 0 <= i < j < |bps| && NonEmpty(bps[i]) && NonEmpty(bps[j]) ==>
          Compatible(bps[i].range, bps[j].range))
    && (exists i :: 0 <= i < |bps| && NonEmpty(bps[i]) && bps[i].range.start == 0)
  }

  /** Two ranges that must not overlap: both in extended memory, or both RAM. */
  predicate Exclusive(x: MemRange, y: MemRange) {
    (x.start >= BMEM_MAX_ADDR && y.start >= BMEM_MAX_ADDR) || (IsRam(x) && IsRam(y))
  }

  predicate Compatible(x: MemRange, y: MemRange) {
    Exclusive(x, y) ==> Disjoint(x, y)
  }

  predicate Disjoint(x: MemRange, y: MemRange) {
    End(x) <= y.start || End(y) <= x.start
  }

  // ---------------------------------------------------------------------------------------
  // Room for the map, and where it goes

  function Count(bps: seq<BootParam>, n: nat): nat
    requires n <= |bps|
  {
    if n == 0 then 0 else Count(bps, n - 1) + if NonEmpty(bps[n - 1]) then 1 else 0
  }

  function Room(count: nat): nat {
    var mmr := (3 * (1 + count) + 1) / 2;
    if mmr < 16 then 16 else mmr
  }

  predicate Eligible(b: BootParam, need: nat) {
    && b.Mrng? && IsRam(b.range) && b.range.start < XM32_MAX_ADDR
    && b.range.len <= XM32_MAX_ADDR - b.range.start && need <= b.range.len
  }

  /** Entry c is the highest eligible range among the first n parameters; -1 if there is none. */
  ghost predicate HighestEligible(bps: seq<BootParam>, n: nat, need: nat, c: int)
    requires n <= |bps|
  {
    && -1 <= c < n
    && (c >= 0 ==> Eligible(bps[c], need))
    && (forall k :: 0 <= k < n && Eligible(bps[k], need) ==> c >= 0 && bps[k].range.start <= bps[c].range.start)
  }

  /** Half as much again as there are ranges and one more, but at least 16: the least such room. */
  lemma RoomIsLeast(count: nat)
    ensures Room(count) >= 16 && 2 * Room(count) >= 3 * (1 + count)
    ensures forall room: nat :: room >= 16 && 2 * room >= 3 * (1 + count) ==> Room(count) <= room
  {
  }

  function NonEmptyOf(bps: seq<BootParam>, n: nat): set<nat>
    requires n <= |bps|
  {
    set k: nat | k < n && NonEmpty(bps[k])
  }

  lemma {:induction false} CountIs(bps: seq<BootParam>, n: nat)
    requires n <= |bps|
    ensures Count(bps, n) == |NonEmptyOf(bps, n)|
  {
    if n > 0 {
      CountIs(bps, n - 1);
      var before := NonEmptyOf(bps, n - 1);
      assert NonEmptyOf(bps, n) == if NonEmpty(bps[n - 1]) then before + {n - 1} else before;
    }
  }

  /** A range can hold the map if it is RAM, ends at or below 4 GiB and is long enough. */
  lemma EligibleIff(b: BootParam, need: nat)
    requires need > 0
    ensures Eligible(b, need) <==> b.Mrng? && IsRam(b.range) && End(b.range) <= 0x1_0000_0000 && b.range.len >= need
  {
  }

  method CountRanges(bps: seq<BootParam>) returns (mmr: nat)
    ensures mmr == Room(Count(bps, |bps|))
  {
    mmr := 1;
    for i := 0 to |bps|
      invariant mmr == 1 + Count(bps, i)
    {
      if bps[i].Mrng? && bps[i].range.len != 0 {
        mmr := mmr + 1;
      }
    }
    mmr := (3 * mmr + 1) / 2;
    if mmr < 16 {
      mmr := 16;
    }
  }

  /** Picks the highest range that can hold the map; -1 if there is none. */
  method Choose(bps: seq<BootParam>, need: nat) returns (chosen: int)
    ensures HighestEligible(bps, |bps|, need, chosen)
  {
    chosen := -1;
    for i := 0 to |bps|
      invariant HighestEligible(bps, i, need, chosen)
    {
      if bps[i].Other? {
        continue;
      }
      var r := bps[i].range;
      if r.e820Type != E820_RAM || r.start >= XM32_MAX_ADDR
         || r.len > XM32_MAX_ADDR - r.start || r.len < need {
        continue;
      }
      if chosen == -1 || r.start > bps[chosen].range.start {
        chosen := i;
      }
    }
  }

  // ---------------------------------------------------------------------------------------
  // The copied map

  /** What one boot parameter contributes: nothing if empty; the free head, if any, and the
      reserved tail if it is the chosen range; else the range itself. */
  function Emitted(b: BootParam, chosen: bool, need: nat): seq<MemRange>
    requires chosen ==> NonEmpty(b) && need <= b.range.len
  {
    if !NonEmpty(b) then []
    else if !chosen then [b.range]
    else
      var r := b.range;
      (if r.len == need then [] else [r.(len := r.len - need)])
      + [r.(start := End(r) - need, len := need, e820Type := E820_RESERVED)]
  }

  function Copied(bps: seq<BootParam>, n: nat, chosen: nat, need: nat): seq<MemRange>
    requires n <= |bps| && chosen < |bps| && Eligible(bps[chosen], need) && need > 0
  {
    if n == 0 then []
    else Copied(bps, n - 1, chosen, need) + Emitted(bps[n - 1], n - 1 == chosen, need)
  }

  lemma EmittedIs(b: BootParam, chosen: bool, need: nat)
    requires chosen ==> NonEmpty(b) && need <= b.range.len
    ensures !NonEmpty(b) ==> Emitted(b, chosen, need) == []
    ensures NonEmpty(b) && !chosen ==> Emitted(b, chosen, need) == [b.range]
    ensures chosen ==>
              var tail := b.range.(start := End(b.range) - need, len := need, e820Type := E820_RESERVED);
              Emitted(b, chosen, need) ==
                if b.range.len == need then [tail] else [b.range.(len := b.range.len - need), tail]
  {
  }

  lemma CopiedNext(bps: seq<BootParam>, n: nat, chosen: nat, need: nat)
    requires n < |bps| && chosen < |bps| && Eligible(bps[chosen], need) && need > 0
    ensures Copied(bps, n + 1, chosen, need) == Copied(bps, n, chosen, need) + Emitted(bps[n], n == chosen, need)
  {
    hide Emitted;
  }

  lemma {:induction false} CopiedFits(bps: seq<BootParam>, n: nat, chosen: nat, need: nat)
    requires n <= |bps| && chosen < |bps| && Eligible(bps[chosen], need) && need > 0
    ensures |Copied(bps, n, chosen, need)| <= Count(bps, n) + (if chosen < n then 1 else 0)
    ensures |Copied(bps, n, chosen, need)| < Room(Count(bps, |bps|))
  {
    if n > 0 {
      CopiedFits(bps, n - 1, chosen, need);
    }
    CountGrows(bps, n, |bps|);
  }

  lemma {:induction false} CountGrows(bps: seq<BootParam>, m: nat, n: nat)
    requires m <= n <= |bps|
    ensures Count(bps, m) <= Count(bps, n)
  {
    if m < n {
      CountGrows(bps, m, n - 1);
    }
  }

  // ---------------------------------------------------------------------------------------
  // The copied map is a valid map once sorted

  /** Ranges that may not overlap do not, whatever their order. */
  ghost predicate PairwiseOk(s: seq<MemRange>) {
    && (forall i :: 0 <= i < |s| ==> RangeOk(s[i]))
    && (forall i, j :: 0 <= i < j < |s| ==> Compatible(s[i], s[j]))
  }

  /** x lies inside the boot range b and keeps what matters for overlap. */
  predicate PartOf(x: MemRange, b: BootParam) {
    NonEmpty(b) && x.len > 0 && Inside(x, b.range) && (IsRam(x) ==> IsRam(b.range))
  }

  ghost predicate PartOfFirst(x: MemRange, bps: seq<BootParam>, n: nat)
    requires n <= |bps|
  {
    exists k :: 0 <= k < n && PartOf(x, bps[k])
  }

  lemma PartsCompatible(x: MemRange, y: MemRange, b: BootParam, c: BootParam)
    requires PartOf(x, b) && PartOf(y, c) && RangeOk(b.range) && RangeOk(c.range)
    requires Compatible(b.range, c.range)
    ensures Compatible(x, y)
  {
  }

  lemma EmittedOk(b: BootParam, chosen: bool, need: nat)
    requires need > 0 && (NonEmpty(b) ==> RangeOk(b.range))
    requires chosen ==> NonEmpty(b) && need <= b.range.len
    ensures PairwiseOk(Emitted(b, chosen, need))
    ensures forall i :: 0 <= i < |Emitted(b, chosen, need)| ==> PartOf(Emitted(b, chosen, need)[i], b)
  {
  }

  lemma {:induction false} CopiedOk(bps: seq<BootParam>, n: nat, chosen: nat, need: nat)
    requires BootMapOk(bps)
    requires n <= |bps| && chosen < |bps| && Eligible(bps[chosen], need) && need > 0
    ensures PairwiseOk(Copied(bps, n, chosen, need))
    ensures forall i :: 0 <= i < |Copied(bps, n, chosen, need)| ==>
              PartOfFirst(Copied(bps, n, chosen, need)[i], bps, n)
  {
    if n > 0 {
      var s := Copied(bps, n - 1, chosen, need);
      var e := Emitted(bps[n - 1], n - 1 == chosen, need);
      CopiedOk(bps, n - 1, chosen, need);
      EmittedOk(bps[n - 1], n - 1 == chosen, need);
      ConcatOk(bps, n, s, e);
    }
  }

  lemma ConcatOk(bps: seq<BootParam>, n: nat, s: seq<MemRange>, e: seq<MemRange>)
    requires BootMapOk(bps) && 0 < n <= |bps|
    requires PairwiseOk(s) && (forall i :: 0 <= i < |s| ==> PartOfFirst(s[i], bps, n - 1))
    requires PairwiseOk(e) && (forall i :: 0 <= i < |e| ==> PartOf(e[i], bps[n - 1]))
    ensures PairwiseOk(s + e) && forall i :: 0 <= i < |s + e| ==> PartOfFirst((s + e)[i], bps, n)
  {
    forall i, j | 0 <= i < |s| && 0 <= j < |e| ensures Compatible(s[i], e[j]) {
      var k :| 0 <= k < n - 1 && PartOf(s[i], bps[k]);
      PartsCompatible(s[i], e[j], bps[k], bps[n - 1]);
    }
  }

  lemma {:induction false} DistinctOccurOnce(s: seq<MemRange>, x: MemRange)
    requires forall i, j :: 0 <= i < j < |s| ==> !(s[i] == x && s[j] == x)
    ensures multiset(s)[x] <= 1
    decreases |s|
  {
    if s != [] {
      var n := |s| - 1;
      assert s == s[..n] + [s[n]];
      if s[n] == x {
        assert x !in s[..n];
        assert multiset(s[..n])[x] == 0;
      } else {
        DistinctOccurOnce(s[..n], x);
      }
    }
  }

  lemma TwiceOccursTwice(s: seq<MemRange>, i: nat, j: nat)
    requires i < j < |s| && s[i] == s[j]
    ensures multiset(s)[s[i]] >= 2
  {
    assert s == s[..j] + s[j..];
    assert s[i] in s[..j] && s[j] in s[j..];
  }

  lemma CompatiblePermuted(s: seq<MemRange>, t: seq<MemRange>, i: nat, j: nat)
    requires PairwiseOk(s) && multiset(s) == multiset(t) && i < j < |t|
    ensures Compatible(t[i], t[j])
  {
    var x, y := t[i], t[j];
    assert x in multiset(t) && y in multiset(t);
    if x != y {
      var k :| 0 <= k < |s| && s[k] == x;
      var l :| 0 <= l < |s| && s[l] == y;
      if k > l {
        assert Compatible(s[l], s[k]);
      }
    } else if Exclusive(x, x) {
      assert x in multiset(s);
      var k :| 0 <= k < |s| && s[k] == x;
      assert RangeOk(s[k]);
      forall l, m | 0 <= l < m < |s| ensures !(s[l] == x && s[m] == x) {
        assert Compatible(s[l], s[m]);
      }
      DistinctOccurOnce(s, x);
      TwiceOccursTwice(t, i, j);
    }
  }

  lemma SortedIsMapOk(s: seq<MemRange>, t: seq<MemRange>)
    requires PairwiseOk(s) && multiset(s) == multiset(t) && SortedByStart(t) && s != []
    ensures MapOk(t)
  {
    forall i | 0 <= i < |t| ensures RangeOk(t[i]) {
      assert t[i] in multiset(t);
      assert t[i] in multiset(s);
      var k :| 0 <= k < |s| && s[k] == t[i];
    }
    forall i, j | 0 <= i < j < |t| ensures Exclusive(t[i], t[j]) ==> End(t[i]) <= t[j].start {
      CompatiblePermuted(s, t, i, j);
      assert RangeOk(t[i]) && RangeOk(t[j]) && t[i].start <= t[j].start;
    }
    assert |t| == |multiset(t)|;
  }

  // ---------------------------------------------------------------------------------------
  // What the copied map says about memory

  function TotalBytes(s: seq<MemRange>): nat {
    if s == [] then 0 else TotalBytes(s[..|s| - 1]) + s[|s| - 1].len
  }

  function BootBytes(bps: seq<BootParam>, n: nat): nat
    requires n <= |bps|
  {
    if n == 0 then 0 else BootBytes(bps, n - 1) + if NonEmpty(bps[n - 1]) then bps[n - 1].range.len else 0
  }

  lemma {:induction false} TotalBytesConcat(s: seq<MemRange>, t: seq<MemRange>)
    ensures TotalBytes(s + t) == TotalBytes(s) + TotalBytes(t)
    decreases |t|
  {
    if t == [] {
      assert s + t == s;
    } else {
      var n := |t| - 1;
      TotalBytesConcat(s, t[..n]);
      assert (s + t)[..|s + t| - 1] == s + t[..n];
    }
  }

  lemma EmittedBytes(b: BootParam, chosen: bool, need: nat)
    requires chosen ==> NonEmpty(b) && need <= b.range.len
    ensures TotalBytes(Emitted(b, chosen, need)) == if NonEmpty(b) then b.range.len else 0
  {
    var e := Emitted(b, chosen, need);
    if |e| == 1 {
      assert e[..0] == [];
    } else if |e| == 2 {
      assert e == [e[0]] + [e[1]];
      TotalBytesConcat([e[0]], [e[1]]);
      assert [e[0]][..0] == [] && [e[1]][..0] == [];
    }
  }

  lemma CopiedNone(bps: seq<BootParam>, chosen: nat, need: nat)
    requires chosen < |bps| && Eligible(bps[chosen], need) && need > 0
    ensures Copied(bps, 0, chosen, need) == [] && TotalBytes([]) == 0 && BootBytes(bps, 0) == 0
  {
  }

  lemma CopiedStep(bps: seq<BootParam>, n: nat, chosen: nat, need: nat)
    requires 0 < n <= |bps| && chosen < |bps| && Eligible(bps[chosen], need) && need > 0
    ensures n - 1 == chosen ==> NonEmpty(bps[n - 1]) && need <= bps[n - 1].range.len
    ensures Copied(bps, n, chosen, need)
            == Copied(bps, n - 1, chosen, need) + Emitted(bps[n - 1], n - 1 == chosen, need)
    ensures BootBytes(bps, n) == BootBytes(bps, n - 1) + if NonEmpty(bps[n - 1]) then bps[n - 1].range.len else 0
  {
    hide Emitted;
  }

  /** Cutting the chosen range in two neither loses nor invents memory. */
  lemma {:induction false} CopiedKeepsBytes(bps: seq<BootParam>, n: nat, chosen: nat, need: nat)
    requires n <= |bps| && chosen < |bps| && Eligible(bps[chosen], need) && need > 0
    ensures TotalBytes(Copied(bps, n, chosen, need)) == BootBytes(bps, n)
  {
    hide TotalBytes, Emitted, Copied, BootBytes, Eligible, NonEmpty;
    if n == 0 {
      CopiedNone(bps, chosen, need);
    } else {
      CopiedStep(bps, n, chosen, need);
      CopiedKeepsBytes(bps, n - 1, chosen, need);
      TotalBytesConcat(Copied(bps, n - 1, chosen, need), Emitted(bps[n - 1], n - 1 == chosen, need));
      EmittedBytes(bps[n - 1], n - 1 == chosen, need);
    }
  }

  lemma EmittedOffTail(bps: seq<BootParam>, k: nat, chosen: nat, need: nat)
    requires BootMapOk(bps) && k < |bps| && chosen < |bps| && Eligible(bps[chosen], need) && need > 0
    ensures NoRam(Emitted(bps[k], k == chosen, need), End(bps[chosen].range) - need, End(bps[chosen].range))
  {
    if NonEmpty(bps[k]) && k != chosen {
      assert Compatible(bps[k].range, bps[chosen].range) by {
        if k < chosen {
        } else {
          assert Compatible(bps[chosen].range, bps[k].range);
        }
      }
    }
  }

  lemma NoRamConcat(s: seq<MemRange>, t: seq<MemRange>, lo: int, hi: int)
    requires NoRam(s, lo, hi) && NoRam(t, lo, hi)
    ensures NoRam(s + t, lo, hi)
  {
  }

  /** The tail that holds the map is not RAM in the copied map. */
  lemma {:induction false} TailIsNotRam(bps: seq<BootParam>, n: nat, chosen: nat, need: nat)
    requires BootMapOk(bps) && n <= |bps| && chosen < |bps| && Eligible(bps[chosen], need) && need > 0
    ensures NoRam(Copied(bps, n, chosen, need), End(bps[chosen].range) - need, End(bps[chosen].range))
  {
    if n > 0 {
      hide NoRam, Emitted, BootMapOk;
      TailIsNotRam(bps, n - 1, chosen, need);
      EmittedOffTail(bps, n - 1, chosen, need);
      NoRamConcat(Copied(bps, n - 1, chosen, need), Emitted(bps[n - 1], n - 1 == chosen, need),
        End(bps[chosen].range) - need, End(bps[chosen].range));
    }
  }

  /** Some boot parameter among the first n, other than the chosen one, says so of byte a. */
  ghost predicate BootSays(bps: seq<BootParam>, n: nat, chosen: nat, a: int, kind: nat, ext: nat, attr: nat) {
    exists k :: 0 <= k < n && k < |bps| && k != chosen && bps[k].Mrng? && Says(bps[k].range, a, kind, ext, attr)
  }

  /** What the chosen range becomes: reserved in its last need bytes, and RAM below. */
  predicate ChosenSays(b: BootParam, need: nat, a: int, kind: nat, ext: nat, attr: nat)
    requires b.Mrng?
  {
    InRange(b.range, a) && ext == b.range.extAttr && attr == b.range.uefiAttr
    && kind == if a < End(b.range) - need then E820_RAM else E820_RESERVED
  }

  lemma EmittedSays(b: BootParam, chosen: bool, need: nat, a: int, kind: nat, ext: nat, attr: nat)
    requires chosen ==> NonEmpty(b) && IsRam(b.range) && need <= b.range.len
    ensures chosen ==> (Said(Emitted(b, chosen, need), a, kind, ext, attr) <==> ChosenSays(b, need, a, kind, ext, attr))
    ensures !chosen ==> (Said(Emitted(b, chosen, need), a, kind, ext, attr)
                         <==> b.Mrng? && Says(b.range, a, kind, ext, attr))
  {
    var e := Emitted(b, chosen, need);
    assert |e| > 0 ==> (Says(e[0], a, kind, ext, attr) ==> Said(e, a, kind, ext, attr));
    assert |e| > 1 ==> (Says(e[1], a, kind, ext, attr) ==> Said(e, a, kind, ext, attr));
  }

  /** The copied map says of every byte what the boot parameters do, except that the last need
      bytes of the chosen range are reserved. */
  lemma {:induction false} CopiedSays(bps: seq<BootParam>, n: nat, chosen: nat, need: nat, a: int, kind: nat, ext: nat,
                                      attr: nat)
    requires n <= |bps| && chosen < |bps| && Eligible(bps[chosen], need) && need > 0
    ensures Said(Copied(bps, n, chosen, need), a, kind, ext, attr)
            <==> || BootSays(bps, n, chosen, a, kind, ext, attr)
                 || (chosen < n && ChosenSays(bps[chosen], need, a, kind, ext, attr))
  {
    hide Said, Says, Emitted, ChosenSays;
    if n == 0 {
      NoneSaid(a, kind, ext, attr);
    } else {
      CopiedSays(bps, n - 1, chosen, need, a, kind, ext, attr);
      SaidConcat(Copied(bps, n - 1, chosen, need), Emitted(bps[n - 1], n - 1 == chosen, need), a, kind, ext, attr);
      EmittedSays(bps[n - 1], n - 1 == chosen, need, a, kind, ext, attr);
    }
  }

  lemma NoneSaid(a: int, kind: nat, ext: nat, attr: nat)
    ensures !Said([], a, kind, ext, attr)
  {
  }

  lemma SaidPermuted(s: seq<MemRange>, t: seq<MemRange>, a: int, kind: nat, ext: nat, attr: nat)
    requires multiset(s) == multiset(t) && Said(s, a, kind, ext, attr)
    ensures Said(t, a, kind, ext, attr)
  {
    var i :| 0 <= i < |s| && Says(s[i], a, kind, ext, attr);
    assert s[i] in multiset(s);
    assert s[i] in multiset(t);
    var j :| 0 <= j < |t| && t[j] == s[i];
  }

  /** And so does the map once it is sorted. */
  lemma SortedSays(bps: seq<BootParam>, chosen: nat, need: nat, t: seq<MemRange>, a: int, kind: nat, ext: nat,
                   attr: nat)
    requires chosen < |bps| && Eligible(bps[chosen], need) && need > 0
    requires multiset(t) == multiset(Copied(bps, |bps|, chosen, need))
    ensures Said(t, a, kind, ext, attr)
            <==> || BootSays(bps, |bps|, chosen, a, kind, ext, attr)
                 || ChosenSays(bps[chosen], need, a, kind, ext, attr)
  {
    hide Said, Copied, BootSays, ChosenSays;
    var s := Copied(bps, |bps|, chosen, need);
    CopiedSays(bps, |bps|, chosen, need, a, kind, ext, attr);
    if Said(s, a, kind, ext, attr) {
      SaidPermuted(s, t, a, kind, ext, attr);
    }
    if Said(t, a, kind, ext, attr) {
      SaidPermuted(t, s, a, kind, ext, attr);
    }
  }

  lemma {:induction false} ZeroIsCopied(bps: seq<BootParam>, n: nat, chosen: nat, need: nat, k: nat)
    requires n <= |bps| && chosen < |bps| && Eligible(bps[chosen], need) && need > 0
    requires k < n && NonEmpty(bps[k]) && bps[k].range.start == 0
    ensures exists i :: 0 <= i < |Copied(bps, n, chosen, need)| && Copied(bps, n, chosen, need)[i].start == 0
  {
    var s := Copied(bps, n - 1, chosen, need);
    if k < n - 1 {
      ZeroIsCopied(bps, n - 1, chosen, need, k);
      var i :| 0 <= i < |s| && s[i].start == 0;
      assert Copied(bps, n, chosen, need)[i].start == 0;
    } else {
      assert Copied(bps, n, chosen, need)[|s|].start == 0;
    }
  }

  lemma NoRamPermuted(s: seq<MemRange>, t: seq<MemRange>, lo: int, hi: int)
    requires multiset(s) == multiset(t) && NoRam(s, lo, hi)
    ensures NoRam(t, lo, hi)
  {
    forall i | 0 <= i < |t| && IsRam(t[i]) ensures hi <= t[i].start || End(t[i]) <= lo {
      assert t[i] in multiset(t);
      assert t[i] in multiset(s);
    }
  }

  lemma SortedStartsAtZero(s: seq<MemRange>, t: seq<MemRange>)
    requires multiset(s) == multiset(t) && SortedByStart(t)
    requires exists i :: 0 <= i < |s| && s[i].start == 0
    ensures t != [] && t[0].start == 0
  {
    var i :| 0 <= i < |s| && s[i].start == 0;
    assert s[i] in multiset(s);
    assert s[i] in multiset(t);
    var j :| 0 <= j < |t| && t[j] == s[i];
  }

  lemma {:induction false} TailIsCopied(bps: seq<BootParam>, n: nat, chosen: nat, need: nat)
    requires chosen < n <= |bps| && Eligible(bps[chosen], need) && need > 0
    ensures InOne(Copied(bps, n, chosen, need), End(bps[chosen].range) - need, End(bps[chosen].range))
  {
    var s, e := Copied(bps, n - 1, chosen, need), Emitted(bps[n - 1], n - 1 == chosen, need);
    var lo, hi := End(bps[chosen].range) - need, End(bps[chosen].range);
    if chosen < n - 1 {
      TailIsCopied(bps, n - 1, chosen, need);
      var i :| 0 <= i < |s| && s[i].start <= lo && hi <= End(s[i]);
      assert (s + e)[i] == s[i];
    } else {
      assert (s + e)[|s + e| - 1] == e[|e| - 1];
    }
  }

  lemma InOnePermuted(s: seq<MemRange>, t: seq<MemRange>, lo: int, hi: int)
    requires multiset(s) == multiset(t) && InOne(s, lo, hi)
    ensures InOne(t, lo, hi)
  {
    var i :| 0 <= i < |s| && s[i].start <= lo && hi <= End(s[i]);
    assert s[i] in multiset(s);
    assert s[i] in multiset(t);
    var j :| 0 <= j < |t| && t[j] == s[i];
  }

  /** A sorted permutation of the copied map is a valid map that starts at address 0 and keeps
      the allocator off the bytes that the map itself occupies. */
  lemma SortedMapServes(bps: seq<BootParam>, chosen: nat, need: nat, t: seq<MemRange>)
    requires BootMapOk(bps) && chosen < |bps| && Eligible(bps[chosen], need) && need > 0
    requires SortedByStart(t) && multiset(t) == multiset(Copied(bps, |bps|, chosen, need))
    ensures MapOk(t) && t[0].start == 0
    ensures NoRam(t, End(bps[chosen].range) - need, End(bps[chosen].range))
    ensures InOne(t, End(bps[chosen].range) - need, End(bps[chosen].range))
  {
    var s := Copied(bps, |bps|, chosen, need);
    TailIsCopied(bps, |bps|, chosen, need);
    InOnePermuted(s, t, End(bps[chosen].range) - need, End(bps[chosen].range));
    hide InOne;
    CopiedOk(bps, |bps|, chosen, need);
    TailIsNotRam(bps, |bps|, chosen, need);
    var k :| 0 <= k < |bps| && NonEmpty(bps[k]) && bps[k].range.start == 0;
    ZeroIsCopied(bps, |bps|, chosen, need, k);
    SortedStartsAtZero(s, t);
    SortedIsMapOk(s, t);
    NoRamPermuted(s, t, End(bps[chosen].range) - need, End(bps[chosen].range));
  }

  // ---------------------------------------------------------------------------------------
  // The routine itself

  /** Copies the non-empty ranges into the array at the top of the chosen range. */
  method CopyRanges(bps: seq<BootParam>, chosen: nat, need: nat, base: nat, ranges: array<MemRange>) returns (nmr: nat)
    requires chosen < |bps| && Eligible(bps[chosen], need) && need > 0
    requires ranges.Length == Room(Count(bps, |bps|)) && base == End(bps[chosen].range) - need
    modifies ranges
    ensures nmr < ranges.Length && ranges[..nmr] == Copied(bps, |bps|, chosen, need)
  {
    hide Room, Count, Emitted, Copied;
    nmr := 0;
    CopiedFits(bps, 0, chosen, need);
    CopiedNone(bps, chosen, need);
    for i := 0 to |bps|
      invariant nmr < ranges.Length && ranges[..nmr] == Copied(bps, i, chosen, need)
    {
      CopiedFits(bps, i + 1, chosen, need);
      CopiedNext(bps, i, chosen, need);
      EmittedIs(bps[i], i == chosen, need);
      ghost var s := ranges[..nmr];
      if bps[i].Other? || bps[i].range.len == 0 {
        assert s + [] == s;
        continue;
      }
      var mr := bps[i].range;
      if i == chosen {
        mr := mr.(len := mr.len - need);
        if mr.len != 0 {
          ranges[nmr] := mr;
          nmr := nmr + 1;
          assert ranges[..nmr] == s + [mr];
        }
        mr := mr.(start := base, len := need, e820Type := E820_RESERVED);
      }
      ghost var s1 := ranges[..nmr];
      ranges[nmr] := mr;
      nmr := nmr + 1;
      assert ranges[..nmr] == s1 + [mr];
      assert s1 + [mr] == s + Emitted(bps[i], i == chosen, need);
    }
  }

  /** Copies the ranges to their new place and sorts them. */
  method BuildMap(bps: seq<BootParam>, chosen: nat, need: nat, base: nat, mmr: nat)
    returns (ranges: array<MemRange>, nmr: nat)
    requires chosen < |bps| && Eligible(bps[chosen], need) && need > 0
    requires mmr == Room(Count(bps, |bps|)) && base == End(bps[chosen].range) - need
    ensures fresh(ranges) && ranges.Length == mmr && nmr < mmr
    ensures SortedByStart(ranges[..nmr])
    ensures multiset(ranges[..nmr]) == multiset(Copied(bps, |bps|, chosen, need))
    ensures ranges[..nmr] == ShellSort.ShellSorted(Copied(bps, |bps|, chosen, need))
  {
    hide Copied, Room, Count, SortedByStart;
    hide ShellSort.ShellSorted;
    ranges := new MemRange[mmr];
    nmr := CopyRanges(bps, chosen, need, base, ranges);
    ShellSort.Sort(ranges, nmr);
  }

  lemma ChosenEligible(bps: seq<BootParam>, need: nat, c: int)
    requires HighestEligible(bps, |bps|, need, c)
    ensures -1 <= c < |bps| && (c >= 0 ==> Eligible(bps[c], need))
  {
  }

  lemma RoomIsPositive(count: nat)
    ensures Room(count) >= 16
  {
  }

  /** Builds the map in the highest range that can hold it; halts when there is none. */
  method MemMapInit(bps: seq<BootParam>) returns (r: Outcome, mm: PhysMap.PhysMap?, chosen: int)
    requires BootMapOk(bps)
    ensures var need := Room(Count(bps, |bps|)) * RANGE_SIZE;
            && HighestEligible(bps, |bps|, need, chosen)
            && r == (if chosen == -1 then Halted else Done)
            && (r == Done ==>
                  && mm != null && fresh(mm) && fresh(mm.ranges) && mm.Valid()
                  && mm.ranges.Length == Room(Count(bps, |bps|))
                  && SortedByStart(mm.View())
                  && multiset(mm.View()) == multiset(Copied(bps, |bps|, chosen, need))
                  && mm.View() == ShellSort.ShellSorted(Copied(bps, |bps|, chosen, need))
                  && mm.View()[0].start == 0
                  && mm.at == End(bps[chosen].range) - need
                  && NoRam(mm.View(), mm.at, mm.at + need) && InOne(mm.View(), mm.at, mm.at + need))
  {
    hide BootMapOk, Copied, MapOk, Room, Count, SortedByStart, HighestEligible, NoRam, InOne, ShellSort.ShellSorted;
    mm := null;
    var mmr := CountRanges(bps);
    var need := mmr * RANGE_SIZE;
    RoomIsPositive(Count(bps, |bps|));
    var c := Choose(bps, need);
    chosen := c;
    ChosenEligible(bps, need, c);
    if c == -1 {
      return Halted, null, -1;
    }
    var base := End(bps[c].range) - need;
    var ranges, nmr := BuildMap(bps, c, need, base, mmr);
    SortedMapServes(bps, c, need, ranges[..nmr]);
    mm := new PhysMap.PhysMap(ranges, base, nmr);
    r := Done;
  }
}

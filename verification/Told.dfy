/** What the list that stage 1 hands over says of every byte of memory (stage1/main.c:454-491,
    stage1/bmem.c:99-154), by the kinds of UEFI memory and the blocks of base memory. */
module Told {
  import opened Machine
  import opened MemMap
  import opened BmemSpec
  import opened Bparm
  import opened HandOver

  /** Memory that the firmware will be done with. */
  predicate FreedKind(k: EfiType) {
    k in {LoaderCode, LoaderData, BootServicesCode, BootServicesData, Conventional}
  }

  /** The E820 type for a kind of UEFI memory. */
  predicate TypeFits(k: EfiType, t: nat) {
    && (t == E820_RAM <==> FreedKind(k))
    && (t == E820_ACPI <==> k == AcpiReclaim) && (t == E820_NVS <==> k == AcpiNvs)
    && (t == E820_PMEM <==> k == Persistent)
    && (t == E820_RESERVED <==> k.OtherType?)
  }

  predicate Holds(d: Desc, a: int) {
    d.start <= a < DescEnd(d)
  }

  /** An entry for byte a. */
  predicate IsOf(e: Data, a: int) {
    e.Mrng? && InRange(e.range, a)
  }

  /** The entry says of its bytes what descriptor d does. */
  predicate Agrees(e: Data, d: Desc) {
    e.Mrng? && TypeFits(d.kind, e.range.e820Type) && e.range.uefiAttr == d.attr && e.range.extAttr == 1
  }

  /** Some entry tells of byte a what d does. */
  ghost predicate Tells(l: seq<Data>, a: int, d: Desc) {
    exists i :: 0 <= i < |l| && IsOf(l[i], a) && Agrees(l[i], d)
  }

  /** The entry tells of byte a what one of the first n descriptors does. */
  ghost predicate FromOne(e: Data, a: int, ds: seq<Desc>, n: nat) {
    exists k :: 0 <= k < n && k < |ds| && Holds(ds[k], a) && Agrees(e, ds[k])
  }

  lemma TypeIsFit(k: EfiType)
    ensures TypeFits(k, E820Of(k)) && (FreedKind(k) <==> IsUsable(k))
  {
  }

  // ---------------------------------------------------------------------------------------
  // Descriptors

  /** Byte a is one that add_uefi_mem_bparms reports of d. */
  predicate BaseTold(d: Desc, a: int) {
    Holds(d, a) && a < BMEM_MAX_ADDR && !FreedKind(d.kind)
  }

  predicate ExtendedTold(d: Desc, a: int) {
    Holds(d, a) && a >= BMEM_MAX_ADDR
  }

  lemma {:induction false} ExtendedTells(ds: seq<Desc>, n: nat, a: int)
    requires n <= |ds|
    ensures forall k :: 0 <= k < n && ExtendedTold(ds[k], a) ==> Tells(ExtendedData(ds, n), a, ds[k])
    ensures forall i :: 0 <= i < |ExtendedData(ds, n)| && IsOf(ExtendedData(ds, n)[i], a) ==>
              a >= BMEM_MAX_ADDR && FromOne(ExtendedData(ds, n)[i], a, ds, n)
  {
    if n > 0 {
      var l, p := ExtendedData(ds, n - 1), ExtendedPart(ds[n - 1]);
      ExtendedTells(ds, n - 1, a);
      TypeIsFit(ds[n - 1].kind);
      hide TypeFits, E820Of;
      forall k | 0 <= k < n && ExtendedTold(ds[k], a) ensures Tells(l + p, a, ds[k]) {
        if k < n - 1 {
          var i :| 0 <= i < |l| && IsOf(l[i], a) && Agrees(l[i], ds[k]);
          assert (l + p)[i] == l[i];
        } else {
          assert (l + p)[|l|] == p[0];
        }
      }
      forall i | 0 <= i < |l + p| && IsOf((l + p)[i], a)
        ensures a >= BMEM_MAX_ADDR && FromOne((l + p)[i], a, ds, n)
      {
        if i < |l| {
          assert FromOne(l[i], a, ds, n - 1);
        } else {
          assert Agrees(p[0], ds[n - 1]) && Holds(ds[n - 1], a);
        }
      }
    }
  }

  lemma {:induction false} UefiTells(ds: seq<Desc>, n: nat, a: int)
    requires n <= |ds|
    ensures forall k :: 0 <= k < n && BaseTold(ds[k], a) ==> Tells(UefiData(ds, n), a, ds[k])
    ensures forall i :: 0 <= i < |UefiData(ds, n)| && IsOf(UefiData(ds, n)[i], a) ==>
              a < BMEM_MAX_ADDR && !IsRam(UefiData(ds, n)[i].range) && FromOne(UefiData(ds, n)[i], a, ds, n)
  {
    if n > 0 {
      var l, p := UefiData(ds, n - 1), UefiPart(ds[n - 1]);
      UefiTells(ds, n - 1, a);
      TypeIsFit(ds[n - 1].kind);
      assert p != [] ==> !IsRam(p[0].range);
      hide TypeFits, E820Of, IsUsable;
      forall k | 0 <= k < n && BaseTold(ds[k], a) ensures Tells(l + p, a, ds[k]) {
        if k < n - 1 {
          var i :| 0 <= i < |l| && IsOf(l[i], a) && Agrees(l[i], ds[k]);
          assert (l + p)[i] == l[i];
        } else {
          assert (l + p)[|l|] == p[0];
        }
      }
      forall i | 0 <= i < |l + p| && IsOf((l + p)[i], a)
        ensures a < BMEM_MAX_ADDR && !IsRam((l + p)[i].range) && FromOne((l + p)[i], a, ds, n)
      {
        if i < |l| {
          assert FromOne(l[i], a, ds, n - 1);
        } else {
          assert Agrees(p[0], ds[n - 1]) && Holds(ds[n - 1], a);
        }
      }
    }
  }

  /** The entries l tell of every byte from 1 MiB up what the descriptors do, and nothing else. */
  ghost predicate ExtendedPartTold(l: seq<Data>, ds: seq<Desc>) {
    forall a: int :: ExtendedByte(l, a, ds)
  }

  ghost predicate ExtendedByte(l: seq<Data>, a: int, ds: seq<Desc>) {
    && (forall k :: 0 <= k < |ds| && ExtendedTold(ds[k], a) ==> Tells(l, a, ds[k]))
    && (forall i :: 0 <= i < |l| && IsOf(l[i], a) ==> a >= BMEM_MAX_ADDR && FromOne(l[i], a, ds, |ds|))
  }

  /** The entries l tell of every byte below 1 MiB that the firmware will keep what the descriptors
      do, and nothing else. */
  ghost predicate BasePartTold(l: seq<Data>, ds: seq<Desc>) {
    forall a: int :: BaseByte(l, a, ds)
  }

  ghost predicate BaseByte(l: seq<Data>, a: int, ds: seq<Desc>) {
    && (forall k :: 0 <= k < |ds| && BaseTold(ds[k], a) ==> Tells(l, a, ds[k]))
    && (forall i :: 0 <= i < |l| && IsOf(l[i], a) ==>
          a < BMEM_MAX_ADDR && !IsRam(l[i].range) && FromOne(l[i], a, ds, |ds|))
  }

  lemma DescriptorsTold(ds: seq<Desc>)
    ensures ExtendedPartTold(ExtendedData(ds, |ds|), ds) && BasePartTold(UefiData(ds, |ds|), ds)
  {
    hide ExtendedData, UefiData, Tells, FromOne, ExtendedTold, BaseTold;
    forall a: int ensures ExtendedByte(ExtendedData(ds, |ds|), a, ds) && BaseByte(UefiData(ds, |ds|), a, ds) {
      ExtendedTells(ds, |ds|, a);
      UefiTells(ds, |ds|, a);
    }
  }

  // ---------------------------------------------------------------------------------------
  // Blocks of base memory

  /** Byte a is free, or in use, in a block that was read. */
  ghost predicate FreeIn(s: seq<Blk>, seen: seq<nat>, a: int) {
    exists i :: 0 <= i < |seen| && seen[i] < |s| && s[seen[i]].start <= a < s[seen[i]].end
  }

  ghost predicate UsedIn(s: seq<Blk>, seen: seq<nat>, a: int) {
    exists i :: 0 <= i < |seen| && seen[i] < |s| && s[seen[i]].end <= a < s[seen[i]].origEnd
  }

  ghost predicate ToldAs(l: seq<Data>, a: int, t: nat, attr: nat) {
    exists i :: 0 <= i < |l| && IsOf(l[i], a) && l[i].range.e820Type == t && l[i].range.uefiAttr == attr
      && l[i].range.extAttr == 1
  }

  lemma ToldConcat(l: seq<Data>, m: seq<Data>, a: int, t: nat, attr: nat)
    ensures ToldAs(l + m, a, t, attr) <==> ToldAs(l, a, t, attr) || ToldAs(m, a, t, attr)
  {
    if ToldAs(l, a, t, attr) {
      var i :| 0 <= i < |l| && IsOf(l[i], a) && l[i].range.e820Type == t && l[i].range.uefiAttr == attr
        && l[i].range.extAttr == 1;
      assert (l + m)[i] == l[i];
    }
    if ToldAs(m, a, t, attr) {
      var i :| 0 <= i < |m| && IsOf(m[i], a) && m[i].range.e820Type == t && m[i].range.uefiAttr == attr
        && m[i].range.extAttr == 1;
      assert (l + m)[|l| + i] == m[i];
    }
  }

  lemma OneTold(start: nat, len: nat, t: nat, attr: nat, a: int, u: nat)
    ensures ToldAs(RangeData(MemRange(start, len, t, 1, attr)), a, u, attr) <==> u == t && start <= a < start + len
  {
    var l := RangeData(MemRange(start, len, t, 1, attr));
    assert len > 0 ==> l[0] == Mrng(MemRange(start, len, t, 1, attr));
  }

  lemma {:induction false} BlksTell(s: seq<Blk>, seen: seq<nat>, attr: nat, a: int)
    requires SeenOk(s, seen, 0)
    ensures ToldAs(BlksData(s, seen, attr), a, E820_RAM, attr) <==> FreeIn(s, seen, a)
    ensures ToldAs(BlksData(s, seen, attr), a, E820_RESERVED, attr) <==> UsedIn(s, seen, a)
    decreases |seen|
  {
    if seen != [] {
      var n := |seen| - 1;
      var b := s[seen[n]];
      BlksTell(s, seen[..n], attr, a);
      var l, p := BlksData(s, seen[..n], attr), BlkData(b, attr);
      BlkTells(b, attr, a);
      ToldConcat(l, p, a, E820_RAM, attr);
      ToldConcat(l, p, a, E820_RESERVED, attr);
      SeenSplit(s, seen, a);
      hide ToldAs, FreeIn, UsedIn, BlkData, BlksData;
    }
  }

  lemma BlkTells(b: Blk, attr: nat, a: int)
    requires b.start <= b.end <= b.origEnd
    ensures ToldAs(BlkData(b, attr), a, E820_RAM, attr) <==> b.start <= a < b.end
    ensures ToldAs(BlkData(b, attr), a, E820_RESERVED, attr) <==> b.end <= a < b.origEnd
  {
    hide ToldAs, RangeData;
    var l := RangeData(MemRange(b.start, b.end - b.start, E820_RAM, 1, attr));
    var m := RangeData(MemRange(b.end, b.origEnd - b.end, E820_RESERVED, 1, attr));
    forall t | t == E820_RAM || t == E820_RESERVED
      ensures ToldAs(l + m, a, t, attr)
              <==> (t == E820_RAM && b.start <= a < b.end) || (t == E820_RESERVED && b.end <= a < b.origEnd)
    {
      OneTold(b.start, b.end - b.start, E820_RAM, attr, a, t);
      OneTold(b.end, b.origEnd - b.end, E820_RESERVED, attr, a, t);
      ToldConcat(l, m, a, t, attr);
    }
  }

  lemma SeenSplit(s: seq<Blk>, seen: seq<nat>, a: int)
    requires SeenOk(s, seen, 0) && seen != []
    ensures var n := |seen| - 1; var b := s[seen[n]];
            && (FreeIn(s, seen, a) <==> FreeIn(s, seen[..n], a) || b.start <= a < b.end)
            && (UsedIn(s, seen, a) <==> UsedIn(s, seen[..n], a) || b.end <= a < b.origEnd)
  {
    FreeSplit(s, seen, a);
    UsedSplit(s, seen, a);
  }

  lemma FreeSplit(s: seq<Blk>, seen: seq<nat>, a: int)
    requires seen != [] && seen[|seen| - 1] < |s|
    ensures var n := |seen| - 1; var b := s[seen[n]];
            FreeIn(s, seen, a) <==> FreeIn(s, seen[..n], a) || b.start <= a < b.end
  {
    var n := |seen| - 1;
    if FreeIn(s, seen[..n], a) {
      var i :| 0 <= i < n && seen[..n][i] < |s| && s[seen[..n][i]].start <= a < s[seen[..n][i]].end;
      assert seen[i] == seen[..n][i];
    }
    if FreeIn(s, seen, a) && !(s[seen[n]].start <= a < s[seen[n]].end) {
      var i :| 0 <= i < |seen| && seen[i] < |s| && s[seen[i]].start <= a < s[seen[i]].end;
      assert seen[..n][i] == seen[i];
    }
  }

  lemma UsedSplit(s: seq<Blk>, seen: seq<nat>, a: int)
    requires seen != [] && seen[|seen| - 1] < |s|
    ensures var n := |seen| - 1; var b := s[seen[n]];
            UsedIn(s, seen, a) <==> UsedIn(s, seen[..n], a) || b.end <= a < b.origEnd
  {
    var n := |seen| - 1;
    if UsedIn(s, seen[..n], a) {
      var i :| 0 <= i < n && seen[..n][i] < |s| && s[seen[..n][i]].end <= a < s[seen[..n][i]].origEnd;
      assert seen[i] == seen[..n][i];
    }
    if UsedIn(s, seen, a) && !(s[seen[n]].end <= a < s[seen[n]].origEnd) {
      var i :| 0 <= i < |seen| && seen[i] < |s| && s[seen[i]].end <= a < s[seen[i]].origEnd;
      assert seen[..n][i] == seen[i];
    }
  }

  // ---------------------------------------------------------------------------------------
  // The whole list

  /** Entry e is one of the loader's own for byte a: free base memory below the watermark top or in
      a block, or memory of a block that is in use. */
  ghost predicate IsOurs(e: Data, a: int, top: nat, attr: nat, s: seq<Blk>, seen: seq<nat>) {
    && e.Mrng? && e.range.uefiAttr == attr && e.range.extAttr == 1
    && ((e.range.e820Type == E820_RAM && (0 <= a < top || FreeIn(s, seen, a)))
        || (e.range.e820Type == E820_RESERVED && UsedIn(s, seen, a)))
  }

  /** The list l says of byte a all that it should, and nothing else. */
  ghost predicate ByteTold(l: seq<Data>, a: int, ds: seq<Desc>, top: nat, attr: nat, s: seq<Blk>, seen: seq<nat>) {
    && (forall k :: 0 <= k < |ds| && (ExtendedTold(ds[k], a) || BaseTold(ds[k], a)) ==> Tells(l, a, ds[k]))
    && (0 <= a < top || FreeIn(s, seen, a) ==> ToldAs(l, a, E820_RAM, attr))
    && (UsedIn(s, seen, a) ==> ToldAs(l, a, E820_RESERVED, attr))
    && (forall i :: 0 <= i < |l| && IsOf(l[i], a) ==>
          || (FromOne(l[i], a, ds, |ds|) && (a < BMEM_MAX_ADDR ==> !IsRam(l[i].range)))
          || (a < BMEM_MAX_ADDR && IsOurs(l[i], a, top, attr, s, seen)))
  }

  ghost predicate AllTold(l: seq<Data>, ds: seq<Desc>, top: nat, attr: nat, s: seq<Blk>, seen: seq<nat>) {
    forall a: int :: ByteTold(l, a, ds, top, attr, s, seen)
  }

  ghost predicate RamAt(l: seq<Data>, a: int) {
    exists i :: 0 <= i < |l| && IsOf(l[i], a) && IsRam(l[i].range)
  }

  /** From 1 MiB up, RAM is exactly what the firmware will be done with. */
  lemma ExtendedRamIff(l: seq<Data>, a: int, ds: seq<Desc>, top: nat, attr: nat, s: seq<Blk>, seen: seq<nat>)
    requires ByteTold(l, a, ds, top, attr, s, seen) && a >= BMEM_MAX_ADDR
    ensures RamAt(l, a) <==> exists k :: 0 <= k < |ds| && Holds(ds[k], a) && FreedKind(ds[k].kind)
  {
    if k :| 0 <= k < |ds| && Holds(ds[k], a) && FreedKind(ds[k].kind) {
      assert ExtendedTold(ds[k], a);
      assert Tells(l, a, ds[k]);
    }
  }

  /** Below, it is exactly the memory below the watermark and what is free of the blocks above. */
  lemma BaseRamIff(l: seq<Data>, a: int, ds: seq<Desc>, top: nat, attr: nat, s: seq<Blk>, seen: seq<nat>)
    requires ByteTold(l, a, ds, top, attr, s, seen) && 0 <= a < BMEM_MAX_ADDR
    ensures RamAt(l, a) <==> a < top || FreeIn(s, seen, a)
  {
    hide FreeIn, UsedIn, FromOne;
    if ToldAs(l, a, E820_RAM, attr) {
      var i :| 0 <= i < |l| && IsOf(l[i], a) && l[i].range.e820Type == E820_RAM;
    }
  }

  lemma {:induction false} BlksKinds(s: seq<Blk>, seen: seq<nat>, attr: nat)
    requires SeenOk(s, seen, 0)
    ensures forall i :: 0 <= i < |BlksData(s, seen, attr)| ==> IsKind(BlksData(s, seen, attr)[i], attr)
    decreases |seen|
  {
    if seen != [] {
      BlksKinds(s, seen[..|seen| - 1], attr);
    }
  }

  predicate IsKind(e: Data, attr: nat) {
    && e.Mrng? && e.range.uefiAttr == attr && e.range.extAttr == 1
    && (e.range.e820Type == E820_RAM || e.range.e820Type == E820_RESERVED)
  }

  /** The loader's own entries. */
  lemma OursTell(s: seq<Blk>, seen: seq<nat>, top: nat, attr: nat, a: int)
    requires SeenOk(s, seen, 0)
    ensures var o := RangeData(MemRange(0, top, E820_RAM, 1, attr)) + BlksData(s, seen, attr);
            && (0 <= a < top || FreeIn(s, seen, a) ==> ToldAs(o, a, E820_RAM, attr))
            && (UsedIn(s, seen, a) ==> ToldAs(o, a, E820_RESERVED, attr))
            && forall i :: 0 <= i < |o| && IsOf(o[i], a) ==> IsOurs(o[i], a, top, attr, s, seen)
  {
    var x, b := RangeData(MemRange(0, top, E820_RAM, 1, attr)), BlksData(s, seen, attr);
    var o := x + b;
    OneTold(0, top, E820_RAM, attr, a, E820_RAM);
    OneTold(0, top, E820_RAM, attr, a, E820_RESERVED);
    BlksTell(s, seen, attr, a);
    BlksKinds(s, seen, attr);
    ToldConcat(x, b, a, E820_RAM, attr);
    ToldConcat(x, b, a, E820_RESERVED, attr);
    assert forall i :: 0 <= i < |x| ==> IsKind(x[i], attr);
    hide FreeIn, UsedIn, BlksData, RangeData;
    forall i | 0 <= i < |o| && IsOf(o[i], a) ensures IsOurs(o[i], a, top, attr, s, seen) {
      assert IsKind(o[i], attr);
      assert ToldAs(o, a, o[i].range.e820Type, attr);
    }
  }

  lemma TellsMore(l: seq<Data>, m: seq<Data>, n: seq<Data>, a: int, d: Desc)
    requires Tells(m, a, d)
    ensures Tells(l + m + n, a, d)
  {
    hide IsOf, Agrees;
    var i :| 0 <= i < |m| && IsOf(m[i], a) && Agrees(m[i], d);
    assert (l + m + n)[|l| + i] == m[i];
  }

  lemma HandedIs(before: seq<Data>, x: seq<Data>, segs: Data, u: seq<Data>, o: seq<Data>)
    ensures before + x + [segs] + u + o == before + x + ([segs] + u + o)
    ensures before + x + [segs] + u + o == (before + x + [segs]) + u + o
    ensures before + x + [segs] + u + o == (before + x + [segs] + u) + o
  {
  }

  /** The list that stage 1 hands over says of every byte what the firmware's descriptors and the
      loader's blocks do. */
  lemma HandedTells(before: seq<Data>, ds: seq<Desc>, segs: Data, top: nat, attr: nat, s: seq<Blk>, seen: seq<nat>,
                    a: int)
    requires NoRanges(before) && !segs.Mrng? && SeenOk(s, seen, 0)
    requires AllInBase(RangeData(MemRange(0, top, E820_RAM, 1, attr)) + BlksData(s, seen, attr))
    ensures ByteTold(Handed(before, ds, segs, top, attr, BlksData(s, seen, attr)), a, ds, top, attr, s, seen)
  {
    var x, u := ExtendedData(ds, |ds|), UefiData(ds, |ds|);
    var o := RangeData(MemRange(0, top, E820_RAM, 1, attr)) + BlksData(s, seen, attr);
    var l := Handed(before, ds, segs, top, attr, BlksData(s, seen, attr));
    assert l == before + x + [segs] + u + o;
    ExtendedTells(ds, |ds|, a);
    UefiTells(ds, |ds|, a);
    OursTell(s, seen, top, attr, a);
    HandedIs(before, x, segs, u, o);
    hide Handed, ExtendedData, UefiData, BlksData, RangeData, FreeIn, UsedIn, ToldAs, Tells, FromOne;
    forall k | 0 <= k < |ds| && (ExtendedTold(ds[k], a) || BaseTold(ds[k], a)) ensures Tells(l, a, ds[k]) {
      if ExtendedTold(ds[k], a) {
        TellsMore(before, x, [segs] + u + o, a, ds[k]);
      } else {
        TellsMore(before + x + [segs], u, o, a, ds[k]);
      }
    }
    ToldConcat(before + x + [segs] + u, o, a, E820_RAM, attr);
    ToldConcat(before + x + [segs] + u, o, a, E820_RESERVED, attr);
    forall i | 0 <= i < |l| && IsOf(l[i], a)
      ensures (FromOne(l[i], a, ds, |ds|) && (a < BMEM_MAX_ADDR ==> !IsRam(l[i].range)))
              || (a < BMEM_MAX_ADDR && IsOurs(l[i], a, top, attr, s, seen))
    {
      EntryOf(before, x, segs, u, o, i);
    }
  }

  lemma AllIsTold(before: seq<Data>, ds: seq<Desc>, segs: Data, top: nat, attr: nat, s: seq<Blk>, seen: seq<nat>)
    requires NoRanges(before) && !segs.Mrng? && SeenOk(s, seen, 0)
    requires AllInBase(RangeData(MemRange(0, top, E820_RAM, 1, attr)) + BlksData(s, seen, attr))
    ensures var l := Handed(before, ds, segs, top, attr, BlksData(s, seen, attr));
            AllTold(l, ds, top, attr, s, seen) && before <= l && segs in l
  {
    var l := Handed(before, ds, segs, top, attr, BlksData(s, seen, attr));
    assert l[|before + ExtendedData(ds, |ds|)|] == segs;
    hide Handed, ByteTold;
    forall a: int ensures ByteTold(l, a, ds, top, attr, s, seen) {
      HandedTells(before, ds, segs, top, attr, s, seen, a);
    }
  }

  /** Every range of the list is from one of its parts. */
  lemma EntryOf(before: seq<Data>, x: seq<Data>, segs: Data, u: seq<Data>, o: seq<Data>, i: nat)
    requires NoRanges(before) && !segs.Mrng? && i < |before + x + [segs] + u + o|
    ensures var e := (before + x + [segs] + u + o)[i];
            e.Mrng? ==> e in x || e in u || e in o
  {
  }
}

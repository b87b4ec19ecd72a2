/** Whether stage 2 reaches its own tables and lists once paging is on. It keeps their physical
    addresses and goes on using those (stage2/mem.c:209-308, 449-467, 473-544), so the pages
    that they are on must be mapped to themselves. */
module Reach {
  import opened Machine
  import opened MM = MemMap
  import opened PageTable
  import opened VaPool
  import opened VaTranslation
  import opened Paging
  import VaRuns

  /** Page p is mapped to itself, and is not for mem_va_map to change. */
  ghost predicate PageSafe(base: Memory, pdpt: nat, pool: seq<VaRange>, p: nat) {
    p < 0x10_0000 && !InSome(pool, p * 0x1000) && IdMapped(WalkPage(base, pdpt, p), p)
  }

  /** Page p holds some of [lo, hi). */
  predicate OnPage(lo: nat, hi: nat, p: nat) {
    lo < (p + 1) * 0x1000 && p * 0x1000 < hi
  }

  ghost predicate AreaSafe(base: Memory, pdpt: nat, pool: seq<VaRange>, lo: nat, hi: nat) {
    forall p: nat :: OnPage(lo, hi, p) ==> PageSafe(base, pdpt, pool, p)
  }

  /** All RAM in which a table can be allocated is safe. */
  ghost predicate RamSafe(base: Memory, pdpt: nat, pool: seq<VaRange>, s: seq<MemRange>) {
    forall i :: 0 <= i < |s| && LowRam(s[i]) ==> AreaSafe(base, pdpt, pool, s[i].start, MM.End(s[i]))
  }

  ghost predicate FramesSafe(base: Memory, pdpt: nat, pool: seq<VaRange>, owner: Owner) {
    forall f :: f in owner ==> AreaSafe(base, pdpt, pool, f, f + 0x1000)
  }

  /** The PDPT, the list of unused virtual addresses in [listAt, listEnd), the memory map in
      [mapAt, mapEnd), all other tables, and all RAM where one can be allocated are safe. */
  ghost predicate AllSafe(base: Memory, pdpt: nat, pool: seq<VaRange>, owner: Owner, s: seq<MemRange>,
                          listAt: nat, listEnd: nat, mapAt: nat, mapEnd: nat) {
    && AreaSafe(base, pdpt, pool, pdpt, pdpt + 32)
    && AreaSafe(base, pdpt, pool, listAt, listEnd) && AreaSafe(base, pdpt, pool, mapAt, mapEnd)
    && FramesSafe(base, pdpt, pool, owner) && RamSafe(base, pdpt, pool, s)
  }

  lemma PartIsSafe(base: Memory, pdpt: nat, pool: seq<VaRange>, lo: nat, hi: nat, lo1: nat, hi1: nat)
    requires AreaSafe(base, pdpt, pool, lo, hi) && lo <= lo1 && hi1 <= hi
    ensures AreaSafe(base, pdpt, pool, lo1, hi1)
  {
    hide PageSafe;
    forall p: nat | OnPage(lo1, hi1, p) ensures PageSafe(base, pdpt, pool, p) {
      assert OnPage(lo, hi, p);
    }
  }

  lemma InRamIsSafe(base: Memory, pdpt: nat, pool: seq<VaRange>, s: seq<MemRange>, lo: nat, hi: nat)
    requires RamSafe(base, pdpt, pool, s) && InLowRam(s, lo, hi)
    ensures AreaSafe(base, pdpt, pool, lo, hi)
  {
    hide AreaSafe;
    var i :| 0 <= i < |s| && LowRam(s[i]) && s[i].start <= lo && hi <= MM.End(s[i]);
    PartIsSafe(base, pdpt, pool, s[i].start, MM.End(s[i]), lo, hi);
  }

  /** Allocations keep it so, and the tables they were made for are safe too. */
  lemma StaysSafe(base: Memory, pdpt: nat, pool: seq<VaRange>, s: seq<MemRange>, t: seq<MemRange>, o0: Owner, o1: Owner)
    requires RamSafe(base, pdpt, pool, s) && FramesSafe(base, pdpt, pool, o0)
    requires Later(s, t) && FramesFrom(o0, o1, s)
    ensures RamSafe(base, pdpt, pool, t) && FramesSafe(base, pdpt, pool, o1)
  {
    hide AreaSafe, LowRam, Refines, RamShrinks, Grew, OnlyRamCut, InLowRam;
    forall i | 0 <= i < |t| && LowRam(t[i]) ensures AreaSafe(base, pdpt, pool, t[i].start, MM.End(t[i])) {
      InRamIsSafe(base, pdpt, pool, s, t[i].start, MM.End(t[i]));
    }
    forall f | f in o1 ensures AreaSafe(base, pdpt, pool, f, f + 0x1000) {
      if f !in o0 {
        InRamIsSafe(base, pdpt, pool, s, f, f + 0x1000);
      }
    }
  }

  lemma AllStaySafe(base: Memory, pdpt: nat, pool: seq<VaRange>, s: seq<MemRange>, t: seq<MemRange>, o0: Owner,
                    o1: Owner, listAt: nat, listEnd: nat, mapAt: nat, mapEnd: nat)
    requires AllSafe(base, pdpt, pool, o0, s, listAt, listEnd, mapAt, mapEnd)
    requires Later(s, t) && FramesFrom(o0, o1, s)
    ensures AllSafe(base, pdpt, pool, o1, t, listAt, listEnd, mapAt, mapEnd)
  {
    hide AreaSafe, RamSafe, FramesSafe, Later, FramesFrom;
    StaysSafe(base, pdpt, pool, s, t, o0, o1);
  }

  // ---------------------------------------------------------------------------------------
  // Tables and lists do not overlap

  /** The bytes of [lo, hi) are not for the allocator to hand out, and no table has any of them. */
  ghost predicate Kept(s: seq<MemRange>, pdpt: nat, owner: Owner, lo: nat, hi: nat) {
    && NoRam(s, lo, hi) && (pdpt + 32 <= lo || hi <= pdpt)
    && forall f :: f in owner ==> f + 0x1000 <= lo || hi <= f
  }

  lemma RamIsOff(s: seq<MemRange>, lo: nat, hi: nat, a: nat, b: nat)
    requires NoRam(s, lo, hi) && InLowRam(s, a, b)
    ensures b <= lo || hi <= a
  {
  }

  /** It stays so: new tables are made of RAM. */
  lemma StaysKept(s: seq<MemRange>, t: seq<MemRange>, pdpt: nat, o0: Owner, o1: Owner, lo: nat, hi: nat)
    requires Kept(s, pdpt, o0, lo, hi) && Later(s, t) && FramesFrom(o0, o1, s)
    ensures Kept(t, pdpt, o1, lo, hi)
  {
    hide NoRam, InLowRam, Refines, Grew, LowRamShrinks, OnlyRamCut;
    ShrinkingKeepsNoRam(t, s);
    forall f | f in o1 ensures f + 0x1000 <= lo || hi <= f {
      if f !in o0 {
        RamIsOff(s, lo, hi, f, f + 0x1000);
      }
    }
  }

  /** It is so if all tables have been made of RAM since the bytes were set aside. */
  lemma KeptFrom(s: seq<MemRange>, t: seq<MemRange>, pdpt: nat, owner: Owner, lo: nat, hi: nat)
    requires NoRam(s, lo, hi) && Later(s, t) && InLowRam(s, pdpt, pdpt + 32) && FramesFrom(map[], owner, s)
    ensures Kept(t, pdpt, owner, lo, hi)
  {
    hide NoRam, InLowRam, Refines, Grew, LowRamShrinks, OnlyRamCut;
    ShrinkingKeepsNoRam(t, s);
    RamIsOff(s, lo, hi, pdpt, pdpt + 32);
    forall f | f in owner ensures f + 0x1000 <= lo || hi <= f {
      RamIsOff(s, lo, hi, f, f + 0x1000);
    }
  }

  /** Whatever mappings have been made since, every byte of a safe area is at its own address. */
  lemma SafeByte(m: Memory, base: Memory, pdpt: nat, pool: seq<VaRange>, lo: nat, hi: nat, a: nat)
    requires RestAsIn(m, base, pdpt, pool) && AreaSafe(base, pdpt, pool, lo, hi) && lo <= a < hi
    ensures VaRuns.Translate(m, pdpt, a) == VaRuns.Address(a)
  {
    hide WalkPage, InSome;
    assert OnPage(lo, hi, a / 0x1000);
    assert PageSafe(base, pdpt, pool, a / 0x1000);
  }
}

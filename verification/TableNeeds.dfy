/** Which page tables do_va_map allocates (stage2/mem.c:216-268): at most one for each 2 MiB slot
    that cannot be mapped as a whole, however many pages are mapped. */
module TableNeeds {
  import opened Machine
  import opened MemMap
  import opened PageTable
  import opened Supply

  /** Slot k cannot be mapped whole: pages lo..hi are only part of it, or their frames are not
      aligned as the pages are. */
  predicate NeedsPt(k: nat, lo: nat, hi: nat, pstart: nat) {
    && lo < hi && 512 * k < hi && lo < 512 * k + 512
    && (512 * k < lo || hi < 512 * k + 512 || (pstart - lo * 0x1000) % 0x20_0000 != 0)
  }

  ghost function PtSlots(m: Memory, pdpt: nat): set<nat> {
    set k: nat | k < 2048 && HasPt(m, pdpt, k)
  }

  /** Slot k has been given a table, or has kept the one it had. */
  lemma PtAdded(m: Memory, m1: Memory, pdpt: nat, k: nat)
    requires k < 2048 && HasPt(m1, pdpt, k)
    requires forall j: nat :: j < 2048 && j != k ==> Pde(m1, pdpt, j) == Pde(m, pdpt, j)
    ensures PtSlots(m1, pdpt) == PtSlots(m, pdpt) + {k}
  {
    hide Pde;
  }

  lemma PtIsThere(m: Memory, pdpt: nat, k: nat)
    requires k < 2048 && HasPt(m, pdpt, k)
    ensures PtSlots(m, pdpt) == PtSlots(m, pdpt) + {k}
  {
    hide HasPt;
  }

  /** Slot k, which has no table, has been mapped whole. */
  lemma NoPtAdded(m: Memory, m1: Memory, pdpt: nat, k: nat)
    requires k < 2048 && !HasPt(m, pdpt, k) && Large(Pde(m1, pdpt, k))
    requires forall j: nat :: j < 2048 && j != k ==> Pde(m1, pdpt, j) == Pde(m, pdpt, j)
    ensures PtSlots(m1, pdpt) == PtSlots(m, pdpt)
  {
    hide Pde;
  }

  lemma SamePts(m: Memory, m1: Memory, pdpt: nat)
    requires forall j: nat :: j < 2048 ==> Pde(m1, pdpt, j) == Pde(m, pdpt, j)
    ensures PtSlots(m1, pdpt) == PtSlots(m, pdpt)
  {
    hide Pde;
  }

  /** All page tables of m0 are still there, and all others are for slots that need one. */
  ghost predicate PtsWithin(m0: Memory, m: Memory, pdpt: nat, lo: nat, hi: nat, pstart: nat) {
    && PtSlots(m0, pdpt) <= PtSlots(m, pdpt)
    && forall k :: k in PtSlots(m, pdpt) ==> k in PtSlots(m0, pdpt) || NeedsPt(k, lo, hi, pstart)
  }

  /** Frames have only been taken for these. */
  ghost predicate SpentOn(m0: Memory, m: Memory, pdpt: nat, s: seq<MemRange>, t: seq<MemRange>, cap: nat) {
    Spends(s, t, cap, |PtSlots(m, pdpt) - PtSlots(m0, pdpt)|)
  }

  /** Page p is not the first of its slot that is mapped, so the slot has a table. */
  ghost predicate MidSlot(m: Memory, pdpt: nat, lo: nat, p: nat) {
    lo < p && p % 512 != 0 ==> HasPt(m, pdpt, p / 512)
  }

  /** What mapping pages lo..hi has cost on reaching page p. */
  ghost predicate Costs(m0: Memory, m: Memory, pdpt: nat, lo: nat, p: nat, hi: nat, pstart: nat,
                        s: seq<MemRange>, t: seq<MemRange>, cap: nat) {
    PtsWithin(m0, m, pdpt, lo, hi, pstart) && SpentOn(m0, m, pdpt, s, t, cap) && MidSlot(m, pdpt, lo, p)
  }

  /** A slot that needs a table has none. */
  ghost predicate Stuck(m: Memory, pdpt: nat, lo: nat, hi: nat, pstart: nat) {
    exists k: nat :: k < 2048 && NeedsPt(k, lo, hi, pstart) && !HasPt(m, pdpt, k)
  }

  lemma CostsNothing(m: Memory, pdpt: nat, lo: nat, hi: nat, pstart: nat, s: seq<MemRange>, cap: nat)
    ensures Costs(m, m, pdpt, lo, lo, hi, pstart, s, s, cap)
  {
    hide HasPt, Spends;
    SpendsNothing(s, cap);
    assert PtSlots(m, pdpt) - PtSlots(m, pdpt) == {};
  }

  /** One more table in a growing set of them. */
  lemma OneMore(a: set<nat>, b: set<nat>, k: nat)
    requires a <= b
    ensures |(b + {k}) - a| == |b - a| + if k in b then 0 else 1
  {
    if k in b {
      assert (b + {k}) - a == b - a;
    } else {
      assert (b + {k}) - a == (b - a) + {k};
    }
  }

  lemma CostsSmall(m0: Memory, m: Memory, m1: Memory, pdpt: nat, lo: nat, p: nat, hi: nat, pstart: nat,
                   s: seq<MemRange>, t: seq<MemRange>, t1: seq<MemRange>, cap: nat)
    requires Costs(m0, m, pdpt, lo, p, hi, pstart, s, t, cap) && p < 0x10_0000
    requires PtSlots(m1, pdpt) == PtSlots(m, pdpt) + {p / 512}
    requires HasPt(m, pdpt, p / 512) || NeedsPt(p / 512, lo, hi, pstart)
    requires Spends(t, t1, cap, if HasPt(m, pdpt, p / 512) then 0 else 1)
    ensures Costs(m0, m1, pdpt, lo, p + 1, hi, pstart, s, t1, cap)
  {
    hide HasPt, Spends, NeedsPt;
    var a, b := PtSlots(m0, pdpt), PtSlots(m, pdpt);
    OneMore(a, b, p / 512);
    SpendsThen(s, t, t1, cap, |b - a|, if HasPt(m, pdpt, p / 512) then 0 else 1);
    assert p / 512 in PtSlots(m1, pdpt);
    assert (p + 1) % 512 != 0 ==> (p + 1) / 512 == p / 512;
  }

  lemma CostsLarge(m0: Memory, m: Memory, m1: Memory, pdpt: nat, lo: nat, p: nat, hi: nat, pstart: nat,
                   s: seq<MemRange>, t: seq<MemRange>, cap: nat)
    requires Costs(m0, m, pdpt, lo, p, hi, pstart, s, t, cap) && p % 512 == 0
    requires PtSlots(m1, pdpt) == PtSlots(m, pdpt)
    ensures Costs(m0, m1, pdpt, lo, p + 512, hi, pstart, s, t, cap)
  {
    hide HasPt, Spends, NeedsPt;
  }

  // ---------------------------------------------------------------------------------------
  // Several mappings

  /** Over some mappings tables have only been added, for slots of the set needed, and frames have
      only been taken for these. */
  ghost predicate Pays(m0: Memory, m: Memory, pdpt: nat, s: seq<MemRange>, t: seq<MemRange>, cap: nat,
                       needed: set<nat>) {
    && PtSlots(m0, pdpt) <= PtSlots(m, pdpt) <= PtSlots(m0, pdpt) + needed
    && SpentOn(m0, m, pdpt, s, t, cap)
  }

  /** Some slot of the set has no table yet. */
  ghost predicate Lacks(m: Memory, pdpt: nat, needed: set<nat>) {
    exists k :: k in needed && k !in PtSlots(m, pdpt)
  }

  ghost predicate NeedsWithin(lo: nat, hi: nat, pstart: nat, needed: set<nat>) {
    forall k: nat :: k < 2048 && NeedsPt(k, lo, hi, pstart) ==> k in needed
  }

  lemma PaysNothing(m: Memory, pdpt: nat, s: seq<MemRange>, cap: nat, needed: set<nat>)
    ensures Pays(m, m, pdpt, s, s, cap, needed)
  {
    hide HasPt, Spends;
    SpendsNothing(s, cap);
    assert PtSlots(m, pdpt) - PtSlots(m, pdpt) == {};
  }

  lemma PaysThen(m0: Memory, m1: Memory, m2: Memory, pdpt: nat, s: seq<MemRange>, t: seq<MemRange>, u: seq<MemRange>,
                 cap: nat, needed: set<nat>)
    requires Pays(m0, m1, pdpt, s, t, cap, needed) && Pays(m1, m2, pdpt, t, u, cap, needed)
    ensures Pays(m0, m2, pdpt, s, u, cap, needed)
  {
    hide PtSlots, Spends;
    var a, b, c := PtSlots(m0, pdpt), PtSlots(m1, pdpt), PtSlots(m2, pdpt);
    assert c - a == (c - b) + (b - a);
    SpendsThen(s, t, u, cap, |b - a|, |c - b|);
  }

  /** A mapping pays if the slots that need a table are in the set. */
  lemma MappingPays(m0: Memory, m: Memory, pdpt: nat, lo: nat, hi: nat, pstart: nat, s: seq<MemRange>, t: seq<MemRange>,
                    cap: nat, needed: set<nat>)
    requires NeedsWithin(lo, hi, pstart, needed)
    requires PtsWithin(m0, m, pdpt, lo, hi, pstart) && SpentOn(m0, m, pdpt, s, t, cap)
    ensures Pays(m0, m, pdpt, s, t, cap, needed)
    ensures Stuck(m, pdpt, lo, hi, pstart) ==> Lacks(m, pdpt, needed)
  {
    hide HasPt, Spends, NeedsPt;
    assert forall k :: k in PtSlots(m, pdpt) ==> k < 2048;
    if Stuck(m, pdpt, lo, hi, pstart) {
      var k: nat :| k < 2048 && NeedsPt(k, lo, hi, pstart) && !HasPt(m, pdpt, k);
      assert k in needed && k !in PtSlots(m, pdpt);
    }
  }

  /** With room for a table for every slot of the set at the start, there is room for one more as
      long as some slot lacks one; and base memory has not been touched. */
  lemma RoomRemains(m0: Memory, m: Memory, pdpt: nat, s: seq<MemRange>, t: seq<MemRange>, cap: nat, needed: set<nat>)
    requires Pays(m0, m, pdpt, s, t, cap, needed) && Room(s, cap, |needed|) && PtSlots(m0, pdpt) == {}
    ensures Room(t, cap, |needed - PtSlots(m, pdpt)|) && SameBase(s, t)
    ensures Lacks(m, pdpt, needed) ==> |needed - PtSlots(m, pdpt)| > 0
  {
    hide PtSlots, Room, SameBase;
    var b := PtSlots(m, pdpt);
    assert b - {} == b && b <= needed;
    Split(needed, b);
    if Lacks(m, pdpt, needed) {
      var k :| k in needed && k !in b;
      assert k in needed - b;
    }
  }

  lemma Split(a: set<nat>, b: set<nat>)
    requires b <= a
    ensures |a| == |b| + |a - b| && |b| <= |a|
  {
    assert a == b + (a - b);
  }
}

/** PAE page tables as words in physical memory, and what each kind of write to them does to
    the translation that the processor computes by walking them (Intel SDM Volume 3A,
    section 4.4). Pages are numbered: page p holds the virtual addresses from 4096 * p on.
    Slot k is the 2 MiB of pages 512 * k to 512 * k + 511, translated by one PDE. */
module PageTable {
  import opened Machine

  /** The 64-bit word at each 8-aligned byte address. A word that was never written has an
      unknown value; no result below depends on the one chosen by Rd. */
  type Memory = map<nat, nat>

  const PTE_WT := 0x08
  const PTE_CD := 0x10

  function Rd(m: Memory, a: nat): nat {
    if a in m then m[a] else 0
  }

  function FrameOf(w: nat): nat {
    w / 0x1000 * 0x1000
  }

  predicate Present(w: nat) {
    w % 2 == 1
  }

  /** The PDE_PS bit. */
  predicate Large(w: nat) {
    w / 0x80 % 2 == 1
  }

  /** PTE_P | PTE_RW | PTE_US | flags, for flags below PDE_PS: see AttrIsOr. */
  function Attr(flags: nat): nat {
    flags - flags % 8 + 7
  }

  lemma AttrIsOr(flags: nat)
    requires flags < 0x80
    ensures BitOr(flags, 7) == Attr(flags)
  {
    var h := flags / 8;
    assert flags / 2 / 2 / 2 == h;
    assert BitOr(h, 0) == h;
    assert BitOr(flags / 2 / 2, 1) == 2 * h + 1;
    assert BitOr(flags / 2, 3) == 2 * (2 * h + 1) + 1;
  }

  /** The PTE of do_va_map: `pstart | PTE_P | PTE_RW | PTE_US | flags`. */
  lemma PteWordIsOr(pa: nat, flags: nat)
    requires pa % 0x1000 == 0 && flags < 0x80
    ensures BitOr(BitOr(BitOr(BitOr(pa, 1), 2), 4), flags) == pa + Attr(flags)
  {
    OrSevenIs(pa, flags, 0x1000);
  }

  lemma OrSmall()
    ensures BitOr(1, 2) == 3 && BitOr(3, 4) == 7
  {
  }

  lemma OrSevenIs(pa: nat, flags: nat, a: nat)
    requires IsPow2(a) && a >= 0x80 && pa % a == 0 && flags < 0x80
    ensures BitOr(BitOr(BitOr(pa, 1), 2), 4) == pa + 7
    ensures BitOr(BitOr(BitOr(BitOr(pa, 1), 2), 4), flags) == pa + Attr(flags)
  {
    OrSmall();
    hide BitOr, IsPow2;
    OrDisjointAdds(pa, 1, a);
    OrLow(pa, 1, 2, a);
    OrLow(pa, 3, 4, a);
    OrLow(pa, 7, flags, a);
    OrCommutes(7, flags);
    AttrIsOr(flags);
  }

  /** Its large PDE, with PDE_PS set as well. */
  lemma PdeWordIsOr(pa: nat, flags: nat)
    requires pa % 0x20_0000 == 0 && flags < 0x80
    ensures BitOr(BitOr(BitOr(BitOr(BitOr(pa, 1), 2), 4), 0x80), flags) == pa + Attr(flags) + 0x80
  {
    hide IsPow2;
    LargeIsPow2();
    OrSevenIs(pa, 0, 0x20_0000);
    OrLow(pa, 7, 0x80, 0x20_0000);
    OrCommutes(7, 0x80);
    SmallIsPow2();
    OrDisjointAdds(0x80, 7, 0x80);
    OrLow(pa, 0x87, flags, 0x20_0000);
    OrLow(0x80, 7, flags, 0x80);
    OrCommutes(7, flags);
    AttrIsOr(flags);
  }

  lemma LargeIsPow2()
    ensures IsPow2(0x20_0000)
  {
    hide IsPow2;
    OneIsPow2();
    TimesEight(1);
    TimesEight(0x8);
    TimesEight(0x40);
    TimesEight(0x200);
    TimesEight(0x1000);
    TimesEight(0x8000);
    TimesEight(0x4_0000);
  }

  lemma Twice(a: nat)
    requires IsPow2(a)
    ensures IsPow2(2 * a)
  {
    MultipleMod(a, 2, 0);
  }

  lemma TimesEight(a: nat)
    requires IsPow2(a)
    ensures IsPow2(8 * a)
  {
    hide IsPow2;
    Twice(a);
    Twice(2 * a);
    Twice(4 * a);
  }

  lemma SmallIsPow2()
    ensures IsPow2(0x80) && IsPow2(0x1000)
  {
    hide IsPow2;
    OneIsPow2();
    TimesEight(1);
    TimesEight(0x8);
    TimesEight(0x40);
    TimesEight(0x200);
    Twice(0x40);
  }

  /** The words that point to tables: `pt | PTE_P | PTE_RW | PTE_US` and `pd | PTE_P`. */
  lemma TableWordIsOr(g: nat)
    requires g % 0x1000 == 0
    ensures BitOr(BitOr(BitOr(g, 1), 2), 4) == g + 7 && BitOr(g, 1) == g + 1
  {
    SmallIsPow2();
    OrSevenIs(g, 0, 0x1000);
    OrDisjointAdds(g, 1, 0x1000);
  }

  /** The source's test and removal of PDE_PS, on 64-bit words. */
  lemma LargeBitIsAnd(w: uint64)
    ensures BitAnd(w, 0x80) != 0 <==> Large(w)
    ensures Large(w) ==> BitAnd(w, TWO64 - 1 - 0x80) == w - 0x80
  {
    SmallIsPow2();
    Pow2Words();
    AndSingleBit(w, 0x80);
    AndNotSingleBit(w, 0x80, 64);
  }

  /** What a present page translates to: the physical address of its first byte, the low seven
      bits of the last entry (P, RW, US, WT, CD, A, D), which say how it is cached, and what may be
      done with it: it may be written, or used outside ring 0, only if all entries of the walk
      allow that (section 4.6). */
  datatype Leaf = Leaf(frame: nat, attr: nat, writable: bool, user: bool)

  datatype Walk = Absent | Mapped(leaf: Leaf)

  function PdeAddr(m: Memory, pdpt: nat, k: nat): nat {
    FrameOf(Rd(m, pdpt + 8 * (k / 512))) + 8 * (k % 512)
  }

  function Pde(m: Memory, pdpt: nat, k: nat): nat {
    Rd(m, PdeAddr(m, pdpt, k))
  }

  /** The R/W bit. */
  predicate Writable(w: nat) {
    w % 0x80 / 2 % 2 == 1
  }

  /** The U/S bit. */
  predicate User(w: nat) {
    w % 0x80 / 4 % 2 == 1
  }

  function LargeLeaf(w: nat, i: nat): Walk {
    if Present(w) then Mapped(Leaf(w / 0x20_0000 * 0x20_0000 + i * 0x1000, w % 0x80, Writable(w), User(w)))
    else Absent
  }

  function SmallLeaf(w: nat): Walk {
    if Present(w) then Mapped(Leaf(FrameOf(w), w % 0x80, Writable(w), User(w))) else Absent
  }

  /** What the PDE w leaves of the rights that a PTE gives. */
  function Under(x: Walk, w: nat): Walk {
    match x
    case Absent => Absent
    case Mapped(l) => Mapped(l.(writable := l.writable && Writable(w), user := l.user && User(w)))
  }

  /** The walk for page i of a slot whose PDE is w. */
  function WalkPde(m: Memory, w: nat, i: nat): Walk {
    if !Present(w) then Absent
    else if Large(w) then LargeLeaf(w, i)
    else Under(SmallLeaf(Rd(m, FrameOf(w) + 8 * i)), w)
  }

  function WalkPage(m: Memory, pdpt: nat, p: nat): Walk {
    if Present(Rd(m, pdpt + 8 * (p / 0x4_0000))) then WalkPde(m, Pde(m, pdpt, p / 512), p % 512)
    else Absent
  }

  /** Page p is mapped to itself, and may be written. */
  predicate IdMapped(w: Walk, p: nat) {
    w.Mapped? && w.leaf.frame == p * 0x1000 && w.leaf.writable
  }

  // ---------------------------------------------------------------------------------------
  // Well-formed tables

  /** Which table a frame holds: the PD of one GiB, or the PT of one slot. */
  datatype Table = Pd(i: nat) | Pt(k: nat)

  type Owner = map<nat, Table>

  predicate LargeOk(w: nat) {
    w < TWO64 && Present(w) && 0x80 <= w % 0x20_0000 < 0x100
  }

  /** An entry that refers to the PT of slot k, and takes no rights away. */
  predicate PtrOk(w: nat, k: nat, owner: Owner) {
    && w < XM32_MAX_ADDR && Present(w) && w % 0x1000 < 0x80 && Writable(w) && User(w)
    && FrameOf(w) in owner && owner[FrameOf(w)] == Pt(k)
  }

  predicate PdeOk(w: nat, k: nat, owner: Owner) {
    w == 0 || LargeOk(w) || PtrOk(w, k, owner)
  }

  predicate PdpteOk(w: nat, i: nat, owner: Owner) {
    w < XM32_MAX_ADDR && w % 0x1000 == 1 && FrameOf(w) in owner && owner[FrameOf(w)] == Pd(i)
  }

  /** No frame holds two tables: owner maps each table frame to the one table in it. */
  ghost predicate Wf(m: Memory, pdpt: nat, owner: Owner) {
    && pdpt % 32 == 0 && pdpt + 32 <= XM32_MAX_ADDR && FrameOf(pdpt) !in owner
    && (forall f :: f in owner ==> f % 0x1000 == 0)
    && (forall i :: 0 <= i < 4 ==> PdpteOk(Rd(m, pdpt + 8 * i), i, owner))
    && (forall k: nat :: k < 2048 ==> PdeOk(Pde(m, pdpt, k), k, owner))
  }

  /** The translations of m1 are those of m0. */
  ghost predicate SameWalks(m0: Memory, m1: Memory, pdpt: nat) {
    forall p: nat :: p < 0x10_0000 ==> WalkPage(m1, pdpt, p) == WalkPage(m0, pdpt, p)
  }

  ghost predicate SameOutside(m0: Memory, m1: Memory, g: nat) {
    forall a: nat :: FrameOf(a) != g ==> Rd(m1, a) == Rd(m0, a)
  }

  lemma FrameIsBase(w: nat)
    ensures FrameOf(w) == w - w % 0x1000 && FrameOf(w) % 0x1000 == 0
  {
  }

  lemma EntryFrame(f: nat, i: nat)
    requires f % 0x1000 == 0 && i < 512
    ensures FrameOf(f + 8 * i) == f
  {
  }

  lemma PdpteFrame(pdpt: nat, i: nat)
    requires pdpt % 32 == 0 && i < 4
    ensures FrameOf(pdpt + 8 * i) == FrameOf(pdpt)
  {
    var q, r, t := pdpt / 0x1000, pdpt % 0x1000, pdpt / 32;
    assert r == 32 * (t - 128 * q);
    assert r <= 0xfe0;
    MultipleMod(q, 0x1000, r + 8 * i);
  }

  /** The PD of slot k, in well-formed tables. */
  lemma PdFrame(m: Memory, pdpt: nat, owner: Owner, k: nat)
    requires Wf(m, pdpt, owner) && k < 2048
    ensures var f := FrameOf(Rd(m, pdpt + 8 * (k / 512)));
            && f in owner && owner[f] == Pd(k / 512) && f % 0x1000 == 0
            && PdeAddr(m, pdpt, k) == f + 8 * (k % 512) && FrameOf(PdeAddr(m, pdpt, k)) == f
            && Present(Rd(m, pdpt + 8 * (k / 512))) && Rd(m, pdpt + 8 * (k / 512)) == f + 1
  {
    hide FrameOf, Wf;
    var w := Rd(m, pdpt + 8 * (k / 512));
    PdpteIsOk(m, pdpt, owner, k / 512);
    FrameIsBase(w);
    EntryFrame(FrameOf(w), k % 512);
    OddWord(w);
  }

  lemma PdpteIsOk(m: Memory, pdpt: nat, owner: Owner, i: nat)
    requires Wf(m, pdpt, owner) && i < 4
    ensures PdpteOk(Rd(m, pdpt + 8 * i), i, owner)
  {
    hide PdpteOk, PdeOk, Pde, FrameOf;
  }

  lemma OddWord(w: nat)
    requires w % 0x1000 == 1
    ensures Present(w)
  {
    MultipleMod(w / 0x1000 * 0x800, 2, 1);
  }

  lemma WalkIsPde(m: Memory, pdpt: nat, owner: Owner, p: nat)
    requires Wf(m, pdpt, owner) && p < 0x10_0000
    ensures WalkPage(m, pdpt, p) == WalkPde(m, Pde(m, pdpt, p / 512), p % 512)
  {
    PdFrame(m, pdpt, owner, p / 512);
    assert p / 512 / 512 == p / 0x4_0000;
  }

  // ---------------------------------------------------------------------------------------
  // Writes to a frame that is no PD

  ghost predicate NotPd(g: nat, pdpt: nat, owner: Owner) {
    g != FrameOf(pdpt) && (g in owner ==> owner[g].Pt?)
  }

  lemma PdeUnchanged(m0: Memory, m1: Memory, pdpt: nat, owner: Owner, g: nat, k: nat)
    requires Wf(m0, pdpt, owner) && SameOutside(m0, m1, g) && NotPd(g, pdpt, owner) && k < 2048
    ensures Rd(m1, pdpt + 8 * (k / 512)) == Rd(m0, pdpt + 8 * (k / 512))
    ensures Pde(m1, pdpt, k) == Pde(m0, pdpt, k)
  {
    PdpteFrame(pdpt, k / 512);
    PdFrame(m0, pdpt, owner, k);
  }

  lemma WfUnchanged(m0: Memory, m1: Memory, pdpt: nat, owner: Owner, g: nat)
    requires Wf(m0, pdpt, owner) && SameOutside(m0, m1, g) && NotPd(g, pdpt, owner)
    ensures Wf(m1, pdpt, owner)
  {
    forall i | 0 <= i < 4 ensures PdpteOk(Rd(m1, pdpt + 8 * i), i, owner) {
      PdpteFrame(pdpt, i);
    }
    forall k: nat | k < 2048 ensures PdeOk(Pde(m1, pdpt, k), k, owner) {
      PdeUnchanged(m0, m1, pdpt, owner, g, k);
    }
  }

  /** Only the pages of the slot whose PT is in frame g can be affected. */
  lemma WalkUnchanged(m0: Memory, m1: Memory, pdpt: nat, owner: Owner, g: nat, p: nat)
    requires Wf(m0, pdpt, owner) && SameOutside(m0, m1, g) && NotPd(g, pdpt, owner)
    requires p < 0x10_0000 && (g in owner ==> owner[g] != Pt(p / 512))
    ensures WalkPage(m1, pdpt, p) == WalkPage(m0, pdpt, p)
  {
    hide Wf, FrameOf, Pde, PdeAddr, WalkPage, NotPd;
    var k := p / 512;
    WfUnchanged(m0, m1, pdpt, owner, g);
    WalkIsPde(m0, pdpt, owner, p);
    WalkIsPde(m1, pdpt, owner, p);
    PdeUnchanged(m0, m1, pdpt, owner, g, k);
    var w := Pde(m0, pdpt, k);
    if Present(w) && !Large(w) {
      PtFrame(m0, pdpt, owner, k);
      EntryFrame(FrameOf(w), p % 512);
    }
  }

  lemma LargeIsLarge(w: nat)
    ensures LargeOk(w) ==> Large(w)
    ensures w % 0x1000 < 0x80 ==> !Large(w)
  {
    hide Large;
    if LargeOk(w) {
      EighthBit(w / 0x20_0000 * 0x4000 + 1, w % 0x20_0000 - 0x80, w);
      MultipleMod(w / 0x20_0000 * 0x2000, 2, 1);
    }
    if w % 0x1000 < 0x80 {
      EighthBit(w / 0x1000 * 32, w % 0x1000, w);
      MultipleMod(w / 0x1000 * 16, 2, 0);
    }
  }

  lemma EighthBit(q: nat, a: nat, w: nat)
    requires w == q * 0x80 + a && a < 0x80
    ensures Large(w) <==> q % 2 == 1
    ensures w % 0x80 == a
  {
    MultipleMod(q, 0x80, a);
  }

  // ---------------------------------------------------------------------------------------
  // do_va_map and do_va_unmap: one PTE

  predicate HasPt(m: Memory, pdpt: nat, k: nat) {
    Present(Pde(m, pdpt, k)) && !Large(Pde(m, pdpt, k))
  }

  function PteAddr(m: Memory, pdpt: nat, p: nat): nat {
    FrameOf(Pde(m, pdpt, p / 512)) + 8 * (p % 512)
  }

  /** Writing one PTE changes the translation of that page and of no other. */
  lemma SetPte(m: Memory, pdpt: nat, owner: Owner, p: nat, w: nat)
    requires Wf(m, pdpt, owner) && p < 0x10_0000 && HasPt(m, pdpt, p / 512)
    ensures var m1 := m[PteAddr(m, pdpt, p) := w];
            && Wf(m1, pdpt, owner) && WalkPage(m1, pdpt, p) == SmallLeaf(w)
            && (forall q: nat :: q < 0x10_0000 && q != p ==> WalkPage(m1, pdpt, q) == WalkPage(m, pdpt, q))
            && (forall k: nat :: k < 2048 ==> Pde(m1, pdpt, k) == Pde(m, pdpt, k))
  {
    hide Wf, WalkPage, WalkPde, PdeAddr, Pde;
    var a := PteAddr(m, pdpt, p);
    var m1 := m[a := w];
    var k := p / 512;
    var g := FrameOf(Pde(m, pdpt, k));
    PtFrame(m, pdpt, owner, k);
    EntryFrame(g, p % 512);
    WfUnchanged(m, m1, pdpt, owner, g);
    forall q: nat | q < 0x10_0000 && q != p ensures WalkPage(m1, pdpt, q) == WalkPage(m, pdpt, q) {
      if q / 512 == k {
        SlotPage(m, m1, pdpt, owner, g, q);
      } else {
        WalkUnchanged(m, m1, pdpt, owner, g, q);
      }
    }
    SlotPage(m, m1, pdpt, owner, g, p);
    forall j: nat | j < 2048 ensures Pde(m1, pdpt, j) == Pde(m, pdpt, j) {
      PdeUnchanged(m, m1, pdpt, owner, g, j);
    }
  }

  lemma PtFrame(m: Memory, pdpt: nat, owner: Owner, k: nat)
    requires Wf(m, pdpt, owner) && k < 2048 && HasPt(m, pdpt, k)
    ensures var g := FrameOf(Pde(m, pdpt, k));
            && g in owner && owner[g] == Pt(k) && g % 0x1000 == 0 && NotPd(g, pdpt, owner)
            && PtrOk(Pde(m, pdpt, k), k, owner)
  {
    assert PdeOk(Pde(m, pdpt, k), k, owner);
    LargeIsLarge(Pde(m, pdpt, k));
  }

  /** The translation of a page in a slot with a PT, before and after writes to that PT. */
  lemma SlotPage(m: Memory, m1: Memory, pdpt: nat, owner: Owner, g: nat, q: nat)
    requires Wf(m, pdpt, owner) && q < 0x10_0000 && HasPt(m, pdpt, q / 512)
    requires g == FrameOf(Pde(m, pdpt, q / 512)) && SameOutside(m, m1, g)
    ensures WalkPage(m, pdpt, q) == SmallLeaf(Rd(m, g + 8 * (q % 512)))
    ensures WalkPage(m1, pdpt, q) == SmallLeaf(Rd(m1, g + 8 * (q % 512)))
  {
    hide Wf, FrameOf, Pde, PdeAddr, WalkPage, NotPd;
    PtFrame(m, pdpt, owner, q / 512);
    WalkIsPde(m, pdpt, owner, q);
    WfUnchanged(m, m1, pdpt, owner, g);
    PdeUnchanged(m, m1, pdpt, owner, g, q / 512);
    WalkIsPde(m1, pdpt, owner, q);
  }

  // ---------------------------------------------------------------------------------------
  // One PDE

  lemma PdeAddrsDiffer(m: Memory, pdpt: nat, owner: Owner, k: nat, j: nat)
    requires Wf(m, pdpt, owner) && k < 2048 && j < 2048 && k != j
    ensures PdeAddr(m, pdpt, k) != PdeAddr(m, pdpt, j)
  {
    PdFrame(m, pdpt, owner, k);
    PdFrame(m, pdpt, owner, j);
  }

  /** Writing one PDE changes no other PDE and no PDPTE. */
  lemma SetPde(m: Memory, pdpt: nat, owner: Owner, k: nat, w: nat)
    requires Wf(m, pdpt, owner) && k < 2048 && PdeOk(w, k, owner)
    ensures var m1 := m[PdeAddr(m, pdpt, k) := w];
            && Wf(m1, pdpt, owner) && Pde(m1, pdpt, k) == w
            && (forall j: nat :: j < 2048 && j != k ==> Pde(m1, pdpt, j) == Pde(m, pdpt, j))
            && SameOutside(m, m1, FrameOf(Rd(m, pdpt + 8 * (k / 512))))
  {
    var m1 := m[PdeAddr(m, pdpt, k) := w];
    PdFrame(m, pdpt, owner, k);
    forall i | 0 <= i < 4 ensures Rd(m1, pdpt + 8 * i) == Rd(m, pdpt + 8 * i) {
      PdpteFrame(pdpt, i);
    }
    forall j: nat | j < 2048
      ensures PdeAddr(m1, pdpt, j) == PdeAddr(m, pdpt, j)
      ensures Pde(m1, pdpt, j) == if j == k then w else Pde(m, pdpt, j)
    {
      if j != k {
        PdeAddrsDiffer(m, pdpt, owner, k, j);
      }
    }
  }

  /** The pages of the other slots keep their translation; those of slot k get it from w. */
  lemma SetPdeWalks(m: Memory, pdpt: nat, owner: Owner, k: nat, w: nat, q: nat)
    requires Wf(m, pdpt, owner) && k < 2048 && PdeOk(w, k, owner) && q < 0x10_0000
    ensures var m1 := m[PdeAddr(m, pdpt, k) := w];
            WalkPage(m1, pdpt, q) ==
              if q / 512 == k then WalkPde(m, w, q % 512) else WalkPage(m, pdpt, q)
  {
    hide Wf;
    var m1 := m[PdeAddr(m, pdpt, k) := w];
    SetPde(m, pdpt, owner, k, w);
    WalkIsPde(m, pdpt, owner, q);
    WalkIsPde(m1, pdpt, owner, q);
    PtReadUnchanged(m, m1, pdpt, owner, k, q / 512, Pde(m1, pdpt, q / 512), q % 512);
  }

  lemma PtReadUnchanged(m: Memory, m1: Memory, pdpt: nat, owner: Owner, k: nat, j: nat, w: nat, i: nat)
    requires Wf(m, pdpt, owner) && Wf(m1, pdpt, owner) && k < 2048 && j < 2048 && i < 512
    requires SameOutside(m, m1, FrameOf(Rd(m, pdpt + 8 * (k / 512)))) && w == Pde(m1, pdpt, j)
    ensures WalkPde(m1, w, i) == WalkPde(m, w, i)
  {
    hide Wf, FrameOf, Pde, PdeAddr, NotPd;
    if Present(w) && !Large(w) {
      PtFrame(m1, pdpt, owner, j);
      PdFrame(m, pdpt, owner, k);
      EntryFrame(FrameOf(w), i);
    }
  }

  // ---------------------------------------------------------------------------------------
  // ensure_pt: a new PT for a slot

  /** Entry i of the PT that replaces the PDE w: blank, or page i of the large page. */
  function NewPte(w: nat, i: nat): nat {
    if w == 0 then 0 else (w - 0x80 + i * 0x1000) % TWO64
  }

  lemma NewPteNext(w: nat, i: nat)
    requires w == 0 || 0x80 <= w < TWO64
    ensures NewPte(w, 0) == if w == 0 then 0 else w - 0x80
    ensures NewPte(w, i + 1) == if w == 0 then NewPte(w, i) else (NewPte(w, i) + 0x1000) % TWO64
  {
    if w != 0 {
      MultipleMod(0, TWO64, w - 0x80);
      AddModTwice(w - 0x80 + i * 0x1000, 0x1000);
    }
  }

  lemma AddModTwice(x: nat, y: nat)
    ensures (x % TWO64 + y) % TWO64 == (x + y) % TWO64
  {
    var q, r := x / TWO64, (x % TWO64 + y) / TWO64;
    assert x + y == (q + r) * TWO64 + (x % TWO64 + y) % TWO64;
    MultipleMod(q + r, TWO64, (x % TWO64 + y) % TWO64);
  }

  lemma NewPteKeepsLeaf(w: nat, i: nat)
    requires (w == 0 || LargeOk(w)) && i < 512
    ensures SmallLeaf(NewPte(w, i)) == if w == 0 then Absent else LargeLeaf(w, i)
  {
    if w != 0 {
      var b, a := w / 0x20_0000, w % 0x20_0000 - 0x80;
      var e := w - 0x80 + i * 0x1000;
      assert e == (b * 512 + i) * 0x1000 + a;
      BelowTop(b, w);
      MultipleMod(0, TWO64, e);
      hide FrameOf;
      WordBits(b * 512 + i, a, e);
      LargeWordBits(b, a, w);
    }
  }

  lemma BelowTop(b: nat, w: nat)
    requires b == w / 0x20_0000 && w < TWO64
    ensures b * 0x20_0000 + 0x20_0000 <= TWO64
  {
    assert b * 0x20_0000 <= w;
    assert b < 0x800_0000_0000;
  }

  lemma OwnerGrows(m: Memory, pdpt: nat, owner: Owner, g: nat, t: Table)
    requires Wf(m, pdpt, owner) && g % 0x1000 == 0 && g !in owner && g != FrameOf(pdpt)
    ensures Wf(m, pdpt, owner[g := t])
  {
    hide FrameOf, Pde;
    forall k: nat | k < 2048 ensures PdeOk(Pde(m, pdpt, k), k, owner[g := t]) {
      assert PdeOk(Pde(m, pdpt, k), k, owner);
    }
    forall i | 0 <= i < 4 ensures PdpteOk(Rd(m, pdpt + 8 * i), i, owner[g := t]) {
      assert PdpteOk(Rd(m, pdpt + 8 * i), i, owner);
    }
  }

  /** Frame g has been filled with the entries that replace the PDE of slot k. */
  ghost predicate Filled(m: Memory, m1: Memory, pdpt: nat, k: nat, g: nat) {
    && SameOutside(m, m1, g)
    && forall i: nat :: i < 512 ==> Rd(m1, g + 8 * i) == NewPte(Pde(m, pdpt, k), i)
  }

  /** Hooking up a filled fresh frame as the PT of slot k changes no translation: not those of
      the 512 pages of a large page that is broken up, and not those of any other page. */
  lemma InstallPt(m: Memory, m1: Memory, pdpt: nat, owner: Owner, k: nat, g: nat)
    requires Wf(m, pdpt, owner) && k < 2048 && !HasPt(m, pdpt, k)
    requires g % 0x1000 == 0 && g < XM32_MAX_ADDR && g !in owner && g != FrameOf(pdpt)
    requires Filled(m, m1, pdpt, k, g)
    ensures PdeAddr(m1, pdpt, k) == PdeAddr(m, pdpt, k)
    ensures var m2 := m1[PdeAddr(m1, pdpt, k) := g + 7];
            && Wf(m2, pdpt, owner[g := Pt(k)]) && Pde(m2, pdpt, k) == g + 7
            && HasPt(m2, pdpt, k) && FrameOf(g + 7) == g
            && (forall j: nat :: j < 2048 && j != k ==> Pde(m2, pdpt, j) == Pde(m, pdpt, j))
            && SameWalks(m, m2, pdpt)
  {
    hide Wf, Pde, PdeAddr, WalkPage, WalkPde;
    var o := owner[g := Pt(k)];
    var m2 := m1[PdeAddr(m1, pdpt, k) := g + 7];
    WfUnchanged(m, m1, pdpt, owner, g);
    OwnerGrows(m1, pdpt, owner, g, Pt(k));
    SamePdeAddr(m, m1, pdpt, owner, g, k);
    NewPde(g);
    SetPde(m1, pdpt, o, k, g + 7);
    forall j: nat | j < 2048 ensures Pde(m1, pdpt, j) == Pde(m, pdpt, j) {
      PdeUnchanged(m, m1, pdpt, owner, g, j);
    }
    forall q: nat | q < 0x10_0000 ensures WalkPage(m2, pdpt, q) == WalkPage(m, pdpt, q) {
      SetPdeWalks(m1, pdpt, o, k, g + 7, q);
      WalkUnchanged(m, m1, pdpt, owner, g, q);
      if q / 512 == k {
        InstalledPage(m, m1, pdpt, owner, k, g, q);
      }
    }
  }

  lemma SamePdeAddr(m: Memory, m1: Memory, pdpt: nat, owner: Owner, g: nat, k: nat)
    requires Wf(m, pdpt, owner) && SameOutside(m, m1, g) && NotPd(g, pdpt, owner) && k < 2048
    ensures PdeAddr(m1, pdpt, k) == PdeAddr(m, pdpt, k)
  {
    PdeUnchanged(m, m1, pdpt, owner, g, k);
  }

  lemma NewPde(g: nat)
    requires g % 0x1000 == 0
    ensures Present(g + 7) && !Large(g + 7) && FrameOf(g + 7) == g && Writable(g + 7) && User(g + 7)
  {
    hide Large, FrameOf;
    WordBits(g / 0x1000, 7, g + 7);
    MultipleMod(g / 0x1000, 0x1000, 7);
    LargeIsLarge(g + 7);
  }

  lemma InstalledPage(m: Memory, m1: Memory, pdpt: nat, owner: Owner, k: nat, g: nat, q: nat)
    requires Wf(m, pdpt, owner) && k < 2048 && !HasPt(m, pdpt, k)
    requires g % 0x1000 == 0 && Filled(m, m1, pdpt, k, g)
    requires q < 0x10_0000 && q / 512 == k
    ensures WalkPde(m1, g + 7, q % 512) == WalkPage(m, pdpt, q)
  {
    var w := Pde(m, pdpt, k);
    PdeIsBlankOrLarge(m, pdpt, owner, k);
    hide Wf, Pde, WalkPage, NewPte, SmallLeaf, LargeLeaf, LargeOk, Large, FrameOf, HasPt;
    WalkIsPde(m, pdpt, owner, q);
    NewPteKeepsLeaf(w, q % 512);
    NewPde(g);
  }

  lemma PdeIsBlankOrLarge(m: Memory, pdpt: nat, owner: Owner, k: nat)
    requires Wf(m, pdpt, owner) && k < 2048
    ensures var w := Pde(m, pdpt, k);
            && (w == 0 || Present(w))
            && (!HasPt(m, pdpt, k) ==> w == 0 || (LargeOk(w) && Large(w) && Present(w)))
            && (w != 0 && !Large(w) ==> HasPt(m, pdpt, k))
  {
    var w := Pde(m, pdpt, k);
    assert PdeOk(w, k, owner);
    LargeIsLarge(w);
  }

  // ---------------------------------------------------------------------------------------
  // Mapping and unmapping, page by page

  /** The translation of page i of a mapping that starts at pstart: all may use and write it. */
  function Consecutive(pstart: nat, i: nat, attr: nat): Walk {
    Mapped(Leaf((pstart + i * 0x1000) % TWO64, attr, true, true))
  }

  lemma ConsecutiveShifts(pstart: nat, i: nat, j: nat, attr: nat)
    ensures Consecutive((pstart + i * 0x1000) % TWO64, j, attr) == Consecutive(pstart, i + j, attr)
  {
  }

  /** m1 translates pages v0..v1 to consecutive frames from pstart on, modulo 2^64, with the
      given attribute bits, and every other page as m0 does. */
  ghost predicate MapsTo(m0: Memory, m1: Memory, pdpt: nat, v0: nat, v1: nat, pstart: nat, attr: nat) {
    forall p: nat :: p < 0x10_0000 ==>
      WalkPage(m1, pdpt, p) ==
        if v0 <= p < v1 then Consecutive(pstart, p - v0, attr) else WalkPage(m0, pdpt, p)
  }

  ghost predicate UnmapsTo(m0: Memory, m1: Memory, pdpt: nat, v0: nat, v1: nat) {
    forall p: nat :: p < 0x10_0000 ==>
      WalkPage(m1, pdpt, p) == if v0 <= p < v1 then Absent else WalkPage(m0, pdpt, p)
  }

  /** Slot k holds no large page of m0 that reaches outside pages lo..hi. */
  ghost predicate Removable(m0: Memory, pdpt: nat, k: nat, lo: nat, hi: nat) {
    Large(Pde(m0, pdpt, k)) ==> lo <= 512 * k && 512 * k + 512 <= hi
  }

  /** What do_va_unmap has done on reaching page p on its way from lo to hi: the pages behind
      it are absent, except those of large pages that lie only partly in lo..hi. */
  ghost predicate UnmappedUpTo(m0: Memory, m1: Memory, pdpt: nat, lo: nat, p: nat, hi: nat) {
    && (forall q: nat :: q < 0x10_0000 ==>
          WalkPage(m1, pdpt, q) ==
            if lo <= q < p && Removable(m0, pdpt, q / 512, lo, hi) then Absent else WalkPage(m0, pdpt, q))
    && (forall k: nat :: k < 2048 && p <= 512 * k + 511 ==> Pde(m1, pdpt, k) == Pde(m0, pdpt, k))
    && (forall k: nat :: k < 2048 && Large(Pde(m1, pdpt, k)) ==> Large(Pde(m0, pdpt, k)))
  }

  /** A large page of m1 is a large page of m0, or lies wholly in pages v0..v1. */
  ghost predicate LargeOnlyIn(m0: Memory, m1: Memory, pdpt: nat, v0: nat, v1: nat) {
    forall k: nat :: k < 2048 && Large(Pde(m1, pdpt, k)) ==>
      Large(Pde(m0, pdpt, k)) || (v0 <= 512 * k && 512 * k + 512 <= v1)
  }

  lemma MapsToNothing(m: Memory, pdpt: nat, v: nat, pstart: nat, attr: nat)
    ensures MapsTo(m, m, pdpt, v, v, pstart, attr) && LargeOnlyIn(m, m, pdpt, v, v)
    ensures forall hi :: UnmappedUpTo(m, m, pdpt, v, v, hi)
  {
  }

  lemma MapsToThen(m0: Memory, m1: Memory, m2: Memory, pdpt: nat, v0: nat, p: nat, n: nat, pstart: nat, pa: nat,
                   attr: nat)
    requires v0 <= p && pa == (pstart + (p - v0) * 0x1000) % TWO64
    requires MapsTo(m0, m1, pdpt, v0, p, pstart, attr) && MapsTo(m1, m2, pdpt, p, p + n, pa, attr)
    requires LargeOnlyIn(m0, m1, pdpt, v0, p) && LargeOnlyIn(m1, m2, pdpt, p, p + n)
    ensures MapsTo(m0, m2, pdpt, v0, p + n, pstart, attr) && LargeOnlyIn(m0, m2, pdpt, v0, p + n)
  {
    hide WalkPage, Pde, Large, Consecutive;
    forall q: nat | q < 0x10_0000
      ensures WalkPage(m2, pdpt, q) ==
        if v0 <= q < p + n then Consecutive(pstart, q - v0, attr) else WalkPage(m0, pdpt, q)
    {
      if p <= q {
        ConsecutiveShifts(pstart, p - v0, q - p, attr);
      }
    }
  }

  /** A step of do_va_unmap over pages p..p+n, clearing them. */
  lemma UnmapStep(m0: Memory, m1: Memory, m2: Memory, pdpt: nat, lo: nat, p: nat, n: nat, hi: nat)
    requires UnmappedUpTo(m0, m1, pdpt, lo, p, hi) && UnmapsTo(m1, m2, pdpt, p, p + n)
    requires lo <= p < 0x10_0000 && 0 < n <= 512 && (p + n - 1) / 512 == p / 512
    requires Removable(m0, pdpt, p / 512, lo, hi)
    requires forall k: nat :: k < 2048 && k != p / 512 ==> Pde(m2, pdpt, k) == Pde(m1, pdpt, k)
    requires Pde(m2, pdpt, p / 512) == Pde(m1, pdpt, p / 512)
             || (Pde(m2, pdpt, p / 512) == 0 && p + n == 512 * (p / 512) + 512)
    ensures UnmappedUpTo(m0, m2, pdpt, lo, p + n, hi)
  {
    hide WalkPage, Pde, Removable;
    forall q: nat | q < 0x10_0000
      ensures WalkPage(m2, pdpt, q) ==
        if lo <= q < p + n && Removable(m0, pdpt, q / 512, lo, hi) then Absent else WalkPage(m0, pdpt, q)
    {
      if p <= q < p + n {
        assert q / 512 == p / 512;
      }
    }
  }

  /** A step of do_va_unmap that skips page p. */
  lemma SkipStep(m0: Memory, m1: Memory, pdpt: nat, owner: Owner, lo: nat, p: nat, hi: nat)
    requires Wf(m1, pdpt, owner) && lo <= p < 0x10_0000
    requires UnmappedUpTo(m0, m1, pdpt, lo, p, hi)
    requires !Removable(m0, pdpt, p / 512, lo, hi) || Pde(m1, pdpt, p / 512) == 0
    ensures UnmappedUpTo(m0, m1, pdpt, lo, p + 1, hi)
  {
    hide WalkPage, Pde, Removable, Wf;
    if Pde(m1, pdpt, p / 512) == 0 {
      BlankIsAbsent(m1, pdpt, owner, p);
    }
  }

  /** A small page: m1 is m with a PT in place for page p; m2 has the PTE written. */
  lemma MapSmall(m: Memory, m1: Memory, pdpt: nat, owner: Owner, p: nat, pa: nat, flags: nat)
    requires Wf(m1, pdpt, owner) && p < 0x10_0000 && HasPt(m1, pdpt, p / 512)
    requires SameWalks(m, m1, pdpt) && flags < 0x80 && pa % 0x1000 == 0 && pa < TWO64
    requires forall j: nat :: j < 2048 && j != p / 512 ==> Pde(m1, pdpt, j) == Pde(m, pdpt, j)
    ensures var m2 := m1[PteAddr(m1, pdpt, p) := pa + Attr(flags)];
            && Wf(m2, pdpt, owner)
            && MapsTo(m, m2, pdpt, p, p + 1, pa, Attr(flags)) && LargeOnlyIn(m, m2, pdpt, p, p + 1)
            && HasPt(m2, pdpt, p / 512)
            && (forall k: nat :: k < 2048 ==> Pde(m2, pdpt, k) == Pde(m1, pdpt, k))
  {
    hide Wf, WalkPage, Pde, PteAddr, Attr, Consecutive, SmallLeaf;
    var w := pa + Attr(flags);
    SetPte(m1, pdpt, owner, p, w);
    SmallWord(pa, flags);
  }

  lemma AttrBits(flags: nat)
    requires flags < 0x80
    ensures Attr(flags) % 2 == 1 && Attr(flags) < 0x80
    ensures Attr(flags) / 2 % 2 == 1 && Attr(flags) / 4 % 2 == 1
  {
    var h := flags / 8;
    assert Attr(flags) == h * 8 + 7;
    MultipleMod(4 * h + 3, 2, 1);
    MultipleMod(2 * h + 1, 4, 3);
    MultipleMod(2 * h + 1, 2, 1);
    MultipleMod(h, 2, 1);
  }

  lemma WordBits(q: nat, a: nat, w: nat)
    requires w == q * 0x1000 + a && a < 0x80
    ensures FrameOf(w) == q * 0x1000 && w % 0x80 == a && w % 2 == a % 2
  {
    MultipleMod(q, 0x1000, a);
    EighthBit(q * 32, a, w);
    FirstBit(q * 0x800, a, w);
  }

  lemma FirstBit(q: nat, a: nat, w: nat)
    requires w == q * 2 + a
    ensures w % 2 == a % 2
  {
    assert a == a / 2 * 2 + a % 2;
    MultipleMod(q + a / 2, 2, a % 2);
  }

  lemma LargeWordBits(q: nat, a: nat, w: nat)
    requires w == q * 0x20_0000 + 0x80 + a && a < 0x80
    ensures w / 0x20_0000 * 0x20_0000 == q * 0x20_0000 && w % 0x20_0000 == 0x80 + a
    ensures w % 0x80 == a && w % 2 == a % 2
  {
    MultipleMod(q, 0x20_0000, 0x80 + a);
    EighthBit(q * 0x4000 + 1, a, w);
    FirstBit(q * 0x10_0000 + 0x40, a, w);
  }

  lemma SmallWord(pa: nat, flags: nat)
    requires flags < 0x80 && pa % 0x1000 == 0 && pa < TWO64
    ensures SmallLeaf(pa + Attr(flags)) == Consecutive(pa, 0, Attr(flags))
  {
    hide Attr, FrameOf;
    AttrBits(flags);
    WordBits(pa / 0x1000, Attr(flags), pa + Attr(flags));
  }

  lemma LargeWord(pa: nat, flags: nat, i: nat)
    requires flags < 0x80 && pa % 0x20_0000 == 0 && pa < TWO64 && i < 512
    ensures LargeOk(pa + Attr(flags) + 0x80) && Large(pa + Attr(flags) + 0x80)
    ensures LargeLeaf(pa + Attr(flags) + 0x80, i) == Consecutive(pa, i, Attr(flags))
  {
    hide Attr, Large;
    var w := pa + Attr(flags) + 0x80;
    var q := pa / 0x20_0000;
    AttrBits(flags);
    assert pa == q * 0x20_0000;
    BelowTop(q, pa);
    LargeWordBits(q, Attr(flags), w);
    LargeIsLarge(w);
  }

  lemma MapLarge(m: Memory, pdpt: nat, owner: Owner, k: nat, pa: nat, flags: nat)
    requires Wf(m, pdpt, owner) && k < 2048 && flags < 0x80 && pa % 0x20_0000 == 0 && pa < TWO64
    ensures var m1 := m[PdeAddr(m, pdpt, k) := pa + Attr(flags) + 0x80];
            && Wf(m1, pdpt, owner)
            && MapsTo(m, m1, pdpt, 512 * k, 512 * k + 512, pa, Attr(flags))
            && LargeOnlyIn(m, m1, pdpt, 512 * k, 512 * k + 512)
            && Large(Pde(m1, pdpt, k))
            && (forall j: nat :: j < 2048 && j != k ==> Pde(m1, pdpt, j) == Pde(m, pdpt, j))
  {
    hide Wf, WalkPage, Pde, PdeAddr, LargeOk, LargeLeaf, Large, Attr, Consecutive;
    var w := pa + Attr(flags) + 0x80;
    var m1 := m[PdeAddr(m, pdpt, k) := w];
    LargeWord(pa, flags, 0);
    SetPde(m, pdpt, owner, k, w);
    forall q: nat | q < 0x10_0000
      ensures WalkPage(m1, pdpt, q) ==
        if q / 512 == k then Consecutive(pa, q - 512 * k, Attr(flags)) else WalkPage(m, pdpt, q)
    {
      SetPdeWalks(m, pdpt, owner, k, w, q);
      LargeWord(pa, flags, q % 512);
      LargePresent(w);
    }
  }

  lemma LargePresent(w: nat)
    requires LargeOk(w)
    ensures Present(w)
  {
  }

  lemma UnmapLarge(m: Memory, pdpt: nat, owner: Owner, k: nat)
    requires Wf(m, pdpt, owner) && k < 2048
    ensures var m1 := m[PdeAddr(m, pdpt, k) := 0];
            && Wf(m1, pdpt, owner) && UnmapsTo(m, m1, pdpt, 512 * k, 512 * k + 512)
            && (forall j: nat :: j < 2048 ==> Pde(m1, pdpt, j) == if j == k then 0 else Pde(m, pdpt, j))
  {
    hide Wf, WalkPage, Pde, PdeAddr;
    var m1 := m[PdeAddr(m, pdpt, k) := 0];
    SetPde(m, pdpt, owner, k, 0);
    forall q: nat | q < 0x10_0000
      ensures WalkPage(m1, pdpt, q) == if 512 * k <= q < 512 * k + 512 then Absent else WalkPage(m, pdpt, q)
    {
      SetPdeWalks(m, pdpt, owner, k, 0, q);
    }
  }

  lemma UnmapSmall(m: Memory, pdpt: nat, owner: Owner, p: nat)
    requires Wf(m, pdpt, owner) && p < 0x10_0000 && HasPt(m, pdpt, p / 512)
    ensures var m1 := m[PteAddr(m, pdpt, p) := 0];
            && Wf(m1, pdpt, owner) && UnmapsTo(m, m1, pdpt, p, p + 1)
            && (forall j: nat :: j < 2048 ==> Pde(m1, pdpt, j) == Pde(m, pdpt, j))
  {
    hide Wf, WalkPage, Pde, PteAddr;
    SetPte(m, pdpt, owner, p, 0);
  }

  lemma BlankIsAbsent(m: Memory, pdpt: nat, owner: Owner, p: nat)
    requires Wf(m, pdpt, owner) && p < 0x10_0000 && Pde(m, pdpt, p / 512) == 0
    ensures WalkPage(m, pdpt, p) == Absent
  {
    WalkIsPde(m, pdpt, owner, p);
  }

  // ---------------------------------------------------------------------------------------
  // Empty tables

  ghost predicate BlankPd(m: Memory, f: nat) {
    forall j: nat :: j < 512 ==> Rd(m, f + 8 * j) == 0
  }

  /** The first n PDs are in place, and blank. */
  ghost predicate Building(m: Memory, pdpt: nat, owner: Owner, n: nat) {
    && pdpt % 32 == 0 && pdpt + 32 <= XM32_MAX_ADDR && FrameOf(pdpt) !in owner
    && (forall f :: f in owner ==> f % 0x1000 == 0)
    && (forall i: nat :: i < n && i < 4 ==>
          PdpteOk(Rd(m, pdpt + 8 * i), i, owner) && BlankPd(m, FrameOf(Rd(m, pdpt + 8 * i))))
  }

  lemma PdpteKept(m: Memory, m1: Memory, pdpt: nat, owner: Owner, n: nat, g: nat, i: nat)
    requires Building(m, pdpt, owner, n) && i < n && i < 4
    requires SameOutside(m, m1, g) && g !in owner && g != FrameOf(pdpt)
    ensures Rd(m1, pdpt + 8 * i) == Rd(m, pdpt + 8 * i)
    ensures BlankPd(m1, FrameOf(Rd(m, pdpt + 8 * i)))
  {
    PdpteFrame(pdpt, i);
    var f := FrameOf(Rd(m, pdpt + 8 * i));
    assert PdpteOk(Rd(m, pdpt + 8 * i), i, owner);
    forall j: nat | j < 512 ensures Rd(m1, f + 8 * j) == 0 {
      EntryFrame(f, j);
    }
  }

  lemma PdpteWord(g: nat, i: nat, owner: Owner)
    requires g % 0x1000 == 0 && g + 0x1000 <= XM32_MAX_ADDR && g in owner && owner[g] == Pd(i)
    ensures PdpteOk(g + 1, i, owner) && FrameOf(g + 1) == g
  {
  }

  /** Writing a PDPTE leaves the frames of the PDs alone. */
  lemma BlankKept(m: Memory, pdpt: nat, n: nat, w: nat, f: nat)
    requires BlankPd(m, f) && f % 0x1000 == 0 && f != FrameOf(pdpt) && pdpt % 32 == 0 && n < 4
    ensures BlankPd(m[pdpt + 8 * n := w], f)
  {
    PdpteFrame(pdpt, n);
    forall j: nat | j < 512 ensures Rd(m[pdpt + 8 * n := w], f + 8 * j) == 0 {
      EntryFrame(f, j);
    }
  }

  lemma AddPd(m: Memory, m1: Memory, pdpt: nat, owner: Owner, n: nat, g: nat)
    requires Building(m, pdpt, owner, n) && n < 4
    requires g % 0x1000 == 0 && g + 0x1000 <= XM32_MAX_ADDR && g !in owner && g != FrameOf(pdpt)
    requires SameOutside(m, m1, g) && BlankPd(m1, g)
    ensures Building(m1[pdpt + 8 * n := g + 1], pdpt, owner[g := Pd(n)], n + 1)
  {
    hide FrameOf, SameOutside, BlankPd;
    var o := owner[g := Pd(n)];
    var m2 := m1[pdpt + 8 * n := g + 1];
    PdpteWord(g, n, o);
    BlankKept(m1, pdpt, n, g + 1, g);
    forall i: nat | i < n
      ensures PdpteOk(Rd(m2, pdpt + 8 * i), i, o) && BlankPd(m2, FrameOf(Rd(m2, pdpt + 8 * i)))
    {
      PdpteKept(m, m1, pdpt, owner, n, g, i);
      var w := Rd(m, pdpt + 8 * i);
      assert PdpteOk(w, i, owner);
      BlankKept(m1, pdpt, n, g + 1, FrameOf(w));
    }
  }

  /** Four blank PDs are well-formed tables in which every page is absent. */
  lemma BuiltIsEmpty(m: Memory, pdpt: nat, owner: Owner)
    requires Building(m, pdpt, owner, 4)
    ensures Wf(m, pdpt, owner)
    ensures forall k: nat :: k < 2048 ==> Pde(m, pdpt, k) == 0
    ensures forall p: nat :: p < 0x10_0000 ==> WalkPage(m, pdpt, p) == Absent
  {
    hide FrameOf, WalkPage;
    forall k: nat | k < 2048 ensures Pde(m, pdpt, k) == 0 {
      assert BlankPd(m, FrameOf(Rd(m, pdpt + 8 * (k / 512))));
      assert Rd(m, FrameOf(Rd(m, pdpt + 8 * (k / 512))) + 8 * (k % 512)) == 0;
    }
    forall p: nat | p < 0x10_0000 ensures WalkPage(m, pdpt, p) == Absent {
      BlankIsAbsent(m, pdpt, owner, p);
    }
  }
}

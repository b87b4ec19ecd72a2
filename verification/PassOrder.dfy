/** Which ranges of base memory the attribute pass of va_init maps (stage2/mem.c:395-425). The
    scan at the end of an iteration steps over every range that does not start above the one
    just mapped. Above 1 MiB that only ever passes over ranges that are done; in base memory,
    where ranges overlap, it passes over others as well. */
module PassOrder {
  import opened Machine
  import opened MemMap
  import opened Holes
  import opened Identity
  import opened PageTable
  import opened Paging
  import opened SecondPass

  // ---------------------------------------------------------------------------------------
  // The order on a map that does not change

  /** The first entry from i on that starts above start. */
  function AfterStart(t: seq<MemRange>, i: nat, start: nat): (r: nat)
    ensures i <= r && (i <= |t| ==> r <= |t|)
    ensures forall j :: i <= j < r && j < |t| ==> t[j].start <= start
    ensures r < |t| ==> t[r].start > start
    decreases |t| - i
  {
    if i < |t| && t[i].start <= start then AfterStart(t, i + 1, start) else i
  }

  /** The entries of base memory that the pass maps from entry i on, in order. */
  function BaseOrder(t: seq<MemRange>, i: nat): (o: seq<nat>)
    ensures forall n :: 0 <= n < |o| ==> i <= o[n] < |t|
    decreases |t| - i
  {
    if !InBaseAt(t, i) then []
    else if NothingToDo(t[i]) then BaseOrder(t, i + 1)
    else [i] + BaseOrder(t, AfterStart(t, i + 1, t[i].start))
  }

  /** Some entry after j, up to k, starts above entry j. */
  ghost predicate Rises(t: seq<MemRange>, j: nat, k: nat) {
    j < |t| && exists l :: j < l <= k && l < |t| && t[l].start > t[j].start
  }

  /** Entry k needs special flags, and after every entry from i on that does, up to it, some
      entry starts higher. */
  ghost predicate IsReached(t: seq<MemRange>, i: nat, k: nat) {
    i <= k < |t| && !NothingToDo(t[k]) && forall j: nat :: i <= j < k && !NothingToDo(t[j]) ==> Rises(t, j, k)
  }

  /** Entries of base memory come first. */
  ghost predicate BaseFirst(t: seq<MemRange>) {
    forall j, k :: 0 <= j < k < |t| && t[j].start >= BMEM_MAX_ADDR ==> t[k].start >= BMEM_MAX_ADDR
  }

  lemma MapIsBaseFirst(t: seq<MemRange>)
    requires MapOk(t)
    ensures BaseFirst(t)
  {
  }

  /** The pass maps entry k of base memory if and only if it is reached: no entry before it that
      needs special flags starts at or above all that follow it, up to entry k. */
  lemma {:induction false} BaseOrderIff(t: seq<MemRange>, i: nat, k: nat)
    requires BaseFirst(t)
    ensures k in BaseOrder(t, i) <==> IsReached(t, i, k) && t[k].start < BMEM_MAX_ADDR
    decreases |t| - i
  {
    hide NothingToDo, BaseOrder, IsReached, AfterStart, BaseFirst;
    BaseOrderStep(t, i);
    if !InBaseAt(t, i) {
      OutOfBase(t, i, k);
    } else if NothingToDo(t[i]) {
      BaseOrderIff(t, i + 1, k);
      ReachedNext(t, i, k);
    } else {
      var n := AfterStart(t, i + 1, t[i].start);
      BaseOrderIff(t, n, k);
      ReachedAfter(t, i, n, k);
    }
  }

  lemma BaseOrderStep(t: seq<MemRange>, i: nat)
    ensures BaseOrder(t, i) ==
            if !InBaseAt(t, i) then []
            else if NothingToDo(t[i]) then BaseOrder(t, i + 1)
            else [i] + BaseOrder(t, AfterStart(t, i + 1, t[i].start))
  {
    hide NothingToDo, AfterStart;
  }

  lemma OutOfBase(t: seq<MemRange>, i: nat, k: nat)
    requires BaseFirst(t) && !InBaseAt(t, i)
    ensures IsReached(t, i, k) ==> t[k].start >= BMEM_MAX_ADDR
  {
    hide NothingToDo, Rises;
  }

  lemma ReachedNext(t: seq<MemRange>, i: nat, k: nat)
    requires i < |t| && NothingToDo(t[i])
    ensures IsReached(t, i, k) <==> IsReached(t, i + 1, k)
  {
    hide NothingToDo, Rises;
  }

  lemma ReachedAfter(t: seq<MemRange>, i: nat, n: nat, k: nat)
    requires i < |t| && !NothingToDo(t[i]) && n == AfterStart(t, i + 1, t[i].start)
    ensures IsReached(t, i, k) <==> k == i || IsReached(t, n, k)
  {
    hide NothingToDo;
    if IsReached(t, n, k) {
      forall j: nat | i <= j < k && !NothingToDo(t[j]) ensures Rises(t, j, k) {
        if j < n {
          assert t[n].start > t[i].start >= t[j].start;
        }
      }
    }
    if IsReached(t, i, k) && k != i {
      assert Rises(t, i, k);
    }
  }

  // ---------------------------------------------------------------------------------------
  // The ranges of base memory that are mapped while the map grows

  /** The ranges still to be mapped of base memory, if the map does not change. */
  function Rest(t: seq<MemRange>, i: nat): seq<MemRange> {
    var o := BaseOrder(t, i);
    seq(|o|, n requires 0 <= n < |o| => t[o[n]])
  }

  function FirstSpecial(t: seq<MemRange>, i: nat): (k: nat)
    ensures i <= k && (k < |t| ==> !NothingToDo(t[k])) && forall j :: i <= j < k && j < |t| ==> NothingToDo(t[j])
    decreases |t| - i
  {
    if i < |t| && NothingToDo(t[i]) then FirstSpecial(t, i + 1) else i
  }

  /** The ranges of base memory that a pass over the map t maps from entry i on. To map the first
      one takes a frame, unless slot 0 has a table; to map the others takes none. */
  ghost function BaseWant(t: seq<MemRange>, i: nat, cap: nat, had: bool): seq<MemRange> {
    var k := FirstSpecial(t, i);
    if !InBaseAt(t, k) then []
    else
      var t1 := SlotMapped(t, cap, had);
      [t[k]] + Rest(t1, AfterStart(t1, k, t[k].start))
  }

  /** The mapped ranges of base memory. */
  function BaseOf(mapped: seq<MemRange>): seq<MemRange> {
    if mapped == [] then []
    else
      BaseOf(mapped[..|mapped| - 1])
      + if mapped[|mapped| - 1].start < BMEM_MAX_ADDR then [mapped[|mapped| - 1]] else []
  }

  /** The pass, which began with the map t0, is at entry i of the map t. */
  ghost predicate BaseInv(t0: seq<MemRange>, cap: nat, had: bool, t: seq<MemRange>, i: nat, mapped: seq<MemRange>,
                          has: bool) {
    if mapped == [] then BaseWant(t, i, cap, has) == BaseWant(t0, 0, cap, had)
    else BaseOf(mapped) + Rest(t, i) == BaseWant(t0, 0, cap, had) && (InBaseAt(t, i) ==> has)
  }

  lemma RestOutOfBase(t: seq<MemRange>, i: nat)
    requires !InBaseAt(t, i)
    ensures Rest(t, i) == []
  {
  }

  lemma RestNext(t: seq<MemRange>, i: nat)
    requires BaseFirst(t) && i < |t|
    ensures NothingToDo(t[i]) ==> Rest(t, i) == Rest(t, i + 1)
    ensures !NothingToDo(t[i]) && InBaseAt(t, i) ==> Rest(t, i) == [t[i]] + Rest(t, AfterStart(t, i, t[i].start))
  {
    hide NothingToDo;
    if !InBaseAt(t, i) {
      assert !InBaseAt(t, i + 1);
    }
    assert AfterStart(t, i, t[i].start) == AfterStart(t, i + 1, t[i].start);
  }

  lemma BaseSkip(t0: seq<MemRange>, cap: nat, had: bool, t: seq<MemRange>, i: nat, mapped: seq<MemRange>, has: bool)
    requires BaseInv(t0, cap, had, t, i, mapped, has) && BaseFirst(t) && i < |t| && NothingToDo(t[i])
    ensures BaseInv(t0, cap, had, t, i + 1, mapped, has)
  {
    hide NothingToDo, Rest, SlotMapped, BaseOf;
    RestNext(t, i);
    assert InBaseAt(t, i + 1) ==> InBaseAt(t, i);
  }

  lemma BaseOfMore(mapped: seq<MemRange>, r: MemRange)
    ensures BaseOf([]) == []
    ensures BaseOf(mapped + [r]) == BaseOf(mapped) + if r.start < BMEM_MAX_ADDR then [r] else []
  {
    assert (mapped + [r])[..|mapped|] == mapped;
  }

  lemma HasIsSame(t: seq<MemRange>, cap: nat)
    ensures SlotMapped(t, cap, true) == t
  {
  }

  lemma FirstIsSpecial(t: seq<MemRange>, i: nat)
    requires i < |t| && !NothingToDo(t[i])
    ensures FirstSpecial(t, i) == i
  {
  }

  /** Entry i is mapped, which makes t1 of the map, and the scan goes on to entry i1. */
  lemma BaseMap(t0: seq<MemRange>, cap: nat, had: bool, t: seq<MemRange>, t1: seq<MemRange>, i: nat, i1: nat,
                mapped: seq<MemRange>, has: bool, has1: bool)
    requires BaseInv(t0, cap, had, t, i, mapped, has) && BaseFirst(t) && i < |t| && !NothingToDo(t[i])
    requires i1 == AfterStart(t1, i, t[i].start)
    requires t[i].start < BMEM_MAX_ADDR ==> has1 && t1 == SlotMapped(t, cap, has)
    ensures BaseInv(t0, cap, had, t1, i1, mapped + [t[i]], has1)
  {
    hide NothingToDo, Rest, BaseOf, SlotMapped, FirstSpecial, AfterStart, BaseFirst;
    BaseOfMore(mapped, t[i]);
    RestNext(t, i);
    if InBaseAt(t, i) {
      if mapped != [] {
        hide BaseWant;
        HasIsSame(t, cap);
        assert BaseOf(mapped) + ([t[i]] + Rest(t, i1)) == BaseOf(mapped) + [t[i]] + Rest(t, i1);
      } else {
        FirstIsSpecial(t, i);
      }
    } else {
      RestOutOfBase(t, i);
      RestOutOfBase(t1, i1);
    }
  }

  lemma BaseEnd(t0: seq<MemRange>, cap: nat, had: bool, t: seq<MemRange>, mapped: seq<MemRange>, has: bool)
    requires BaseInv(t0, cap, had, t, |t|, mapped, has)
    ensures BaseOf(mapped) == BaseWant(t0, 0, cap, had)
  {
    RestOutOfBase(t, |t|);
  }

  // ---------------------------------------------------------------------------------------
  // Maps with the same base memory

  lemma SameAfterStart(t: seq<MemRange>, u: seq<MemRange>, i: nat, start: nat)
    requires SameBase(t, u) && BaseFirst(t) && BaseFirst(u)
    ensures var n, m := AfterStart(t, i, start), AfterStart(u, i, start);
            (InBaseAt(t, n) || InBaseAt(u, m)) ==> n == m
  {
    var n, m := AfterStart(t, i, start), AfterStart(u, i, start);
    assert InBaseAt(t, n) && m < n ==> InBaseAt(t, m);
    assert InBaseAt(u, m) && n < m ==> InBaseAt(u, n);
  }

  lemma {:induction false} SameOrder(t: seq<MemRange>, u: seq<MemRange>, i: nat)
    requires SameBase(t, u) && BaseFirst(t) && BaseFirst(u)
    ensures BaseOrder(t, i) == BaseOrder(u, i)
    decreases |t| - i
  {
    if InBaseAt(t, i) {
      hide NothingToDo;
      if NothingToDo(t[i]) {
        SameOrder(t, u, i + 1);
      } else {
        var n := AfterStart(t, i + 1, t[i].start);
        SameAfterStart(t, u, i + 1, t[i].start);
        SameOrder(t, u, n);
      }
    }
  }

  lemma SameRest(t: seq<MemRange>, u: seq<MemRange>, i: nat)
    requires SameBase(t, u) && BaseFirst(t) && BaseFirst(u)
    ensures Rest(t, i) == Rest(u, i)
  {
    SameOrder(t, u, i);
    var o := BaseOrder(t, i);
    forall n | 0 <= n < |o| ensures t[o[n]] == u[o[n]] {
      BaseOrderIff(t, i, o[n]);
    }
  }

  lemma {:induction false} RestFromFirst(t: seq<MemRange>, i: nat)
    requires BaseFirst(t)
    ensures Rest(t, i) == Rest(t, FirstSpecial(t, i))
    decreases |t| - i
  {
    hide Rest;
    if i < |t| && NothingToDo(t[i]) {
      RestNext(t, i);
      RestFromFirst(t, i + 1);
    }
  }

  lemma SameFirst(s: seq<MemRange>, t: seq<MemRange>)
    requires SameBase(s, t) && BaseFirst(s) && BaseFirst(t)
    ensures var k, l := FirstSpecial(s, 0), FirstSpecial(t, 0); (InBaseAt(s, k) || InBaseAt(t, l)) ==> k == l
  {
    hide NothingToDo;
    var k, l := FirstSpecial(s, 0), FirstSpecial(t, 0);
    assert InBaseAt(s, k) && l < k ==> InBaseAt(s, l);
    assert InBaseAt(t, l) && k < l ==> InBaseAt(t, k);
  }

  /** If no allocation cuts base memory, the pass maps there what the map says it reaches. */
  lemma BaseWantPlain(s: seq<MemRange>, t: seq<MemRange>, cap: nat, had: bool)
    requires BaseFirst(s) && BaseFirst(t) && BaseFirst(SlotMapped(t, cap, had))
    requires SameBase(s, t) && SameBase(s, SlotMapped(t, cap, had))
    ensures BaseWant(t, 0, cap, had) == Rest(s, 0)
  {
    hide NothingToDo, Rest, SlotMapped;
    var k, t1 := FirstSpecial(t, 0), SlotMapped(t, cap, had);
    SameFirst(s, t);
    RestFromFirst(s, 0);
    if InBaseAt(t, k) {
      RestNext(s, k);
      SameAfterStart(s, t1, k, t[k].start);
      var n, m := AfterStart(s, k, t[k].start), AfterStart(t1, k, t[k].start);
      if n == m {
        SameRest(s, t1, n);
      } else {
        RestOutOfBase(s, n);
        RestOutOfBase(t1, m);
      }
    } else {
      RestOutOfBase(s, FirstSpecial(s, 0));
    }
  }

  // ---------------------------------------------------------------------------------------
  // Pages of base memory

  /** Only ranges of base memory touch pages of base memory. */
  lemma {:induction false} PaintBase(mapped: seq<MemRange>, q: nat, w: Walk)
    requires q < 0x100
    ensures Paint(mapped, q, w) == Paint(BaseOf(mapped), q, w)
  {
    if mapped != [] {
      hide IdPage, PteFlags, Paint;
      var n := |mapped| - 1;
      PaintBase(mapped[..n], q, w);
      assert mapped == mapped[..n] + [mapped[n]];
      PaintAppend(mapped[..n], mapped[n], q, w);
      if mapped[n].start < BMEM_MAX_ADDR {
        PaintAppend(BaseOf(mapped[..n]), mapped[n], q, w);
      } else {
        assert BaseOf(mapped) == BaseOf(mapped[..n]);
      }
    }
  }

  /** The entries that make a pass touch page q of base memory. */
  ghost predicate ReachedTouch(t: seq<MemRange>, i: nat, q: nat, k: nat) {
    IsReached(t, i, k) && t[k].start < BMEM_MAX_ADDR && Touches(t[k], q)
  }

  lemma RestTouches(t: seq<MemRange>, i: nat, q: nat)
    requires BaseFirst(t)
    ensures TouchedIn(Rest(t, i), q) <==> exists k: nat :: ReachedTouch(t, i, q, k)
  {
    hide Touches, IsReached;
    var o := BaseOrder(t, i);
    if TouchedIn(Rest(t, i), q) {
      var n :| 0 <= n < |Rest(t, i)| && Touches(Rest(t, i)[n], q);
      BaseOrderIff(t, i, o[n]);
      assert ReachedTouch(t, i, q, o[n]);
    }
    if k: nat :| ReachedTouch(t, i, q, k) {
      BaseOrderIff(t, i, k);
      var n :| 0 <= n < |o| && o[n] == k;
      assert Touches(Rest(t, i)[n], q);
    }
  }
}

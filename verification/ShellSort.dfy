/** The in-place Shell sort of the memory map (stage2/mem.c:50-71). */
module ShellSort {
  import Machine
  import opened MemMap

  /** Entries h apart are in order, up to index n. */
  ghost predicate GapSorted(s: seq<MemRange>, h: nat, n: nat)
    requires n <= |s|
  {
    forall k :: h <= k < n ==> s[k - h].start <= s[k].start
  }

  // ---------------------------------------------------------------------------------------
  // The order that the sort leaves, also of entries with equal starts

  /** Entry v goes down from index j in steps of h, to the first that does not start above it. */
  function Sink(s: seq<MemRange>, h: nat, j: nat, v: MemRange): (t: seq<MemRange>)
    requires 0 < h && j < |s|
    ensures |t| == |s|
    decreases j
  {
    if j >= h && s[j - h].start > v.start then Sink(s[j := s[j - h]], h, j - h, v) else s[j := v]
  }

  /** The entries from i on are inserted with gap h. */
  function Pass(s: seq<MemRange>, h: nat, i: nat): (t: seq<MemRange>)
    requires 0 < h
    ensures |t| == |s|
    decreases |s| - i
  {
    if i >= |s| then s else Pass(Sink(s, h, i, s[i]), h, i + 1)
  }

  function Passes(s: seq<MemRange>, h: nat): (t: seq<MemRange>)
    ensures |t| == |s|
    decreases h
  {
    if h == 0 then s else Passes(Pass(s, h, h), h / 2)
  }

  function FirstGap(h: nat, n: nat): nat
    requires h > 0
    decreases n - h
  {
    if h < n then FirstGap(h * 2, n) else h - 1
  }

  function ShellSorted(s: seq<MemRange>): (t: seq<MemRange>)
    ensures |t| == |s|
  {
    if |s| < 2 then s else Passes(s, FirstGap(1, |s|))
  }

  lemma Pow2Even(a: nat)
    requires Machine.IsPow2(a)
    ensures Machine.IsPow2(2 * a)
    ensures a > 1 ==> a == 2 * (a / 2) && Machine.IsPow2(a / 2)
  {
    assert 2 * a % 2 == 0 && 2 * a / 2 == a;
  }

  /** The first gap is one less than the least power of two that is not below the length; as gaps
      are halved, all are one less than a power of two. */
  lemma {:induction false} FirstGapIs(h: nat, n: nat)
    requires Machine.IsPow2(h)
    ensures FirstGap(h, n) >= h - 1 && Machine.IsPow2(FirstGap(h, n) + 1) && FirstGap(h, n) + 1 >= n
    ensures FirstGap(h, n) + 1 == h || FirstGap(h, n) + 1 < 2 * n
    decreases n - h
  {
    assert h > 0;
    Pow2Even(h);
    hide Machine.IsPow2;
    if h < n {
      FirstGapIs(2 * h, n);
    }
  }

  lemma GapHalves(h: nat)
    requires h > 0 && Machine.IsPow2(h + 1)
    ensures Machine.IsPow2(h / 2 + 1)
  {
    hide Machine.IsPow2;
    var k := (h + 1) / 2;
    Pow2Even(h + 1);
    assert h / 2 + 1 == k;
  }

  // ---------------------------------------------------------------------------------------

  lemma HoleMoves(s: seq<MemRange>, j: nat, k: nat, v: MemRange)
    requires j < |s| && k < |s| && j != k
    ensures multiset(s[j := s[k]][k := v]) == multiset(s[j := v])
  {
  }

  /** Gap-1 order is order. */
  lemma {:induction false} GapOneIsSorted(s: seq<MemRange>)
    requires GapSorted(s, 1, |s|)
    ensures SortedByStart(s)
    decreases |s|
  {
    if s != [] {
      var n := |s| - 1;
      GapOneIsSorted(s[..n]);
      if n > 0 {
        assert s[n - 1].start <= s[n].start;
      }
    }
  }

  /** The entries up to i are h apart in order, but for a hole at j where v is to go or to
      pass further down. */
  ghost predicate HoleSorted(s: seq<MemRange>, h: nat, i: nat, j: nat, v: MemRange) {
    && j <= i < |s|
    && (forall k :: h <= k <= i && k != j && k - h != j ==> s[k - h].start <= s[k].start)
    && (j + h <= i ==> v.start <= s[j + h].start)
    && (h <= j && j + h <= i ==> s[j - h].start <= s[j + h].start)
  }

  lemma HoleStepsDown(s: seq<MemRange>, h: nat, i: nat, j: nat, v: MemRange)
    requires 0 < h <= j && HoleSorted(s, h, i, j, v) && s[j - h].start > v.start
    ensures HoleSorted(s[j := s[j - h]], h, i, j - h, v)
  {
  }

  lemma HoleFilled(s: seq<MemRange>, h: nat, i: nat, j: nat, v: MemRange)
    requires 0 < h && HoleSorted(s, h, i, j, v) && (j < h || s[j - h].start <= v.start)
    ensures GapSorted(s[j := v], h, i + 1)
  {
  }

  /** Inserting keeps the entries and leaves those up to i in gap order. */
  lemma {:induction false} SinkKeeps(s: seq<MemRange>, h: nat, i: nat, j: nat, v: MemRange)
    requires 0 < h && HoleSorted(s, h, i, j, v)
    ensures GapSorted(Sink(s, h, j, v), h, i + 1)
    ensures multiset(Sink(s, h, j, v)) == multiset(s[j := v])
    decreases j
  {
    hide GapSorted;
    assert j < |s|;
    hide HoleSorted;
    if j >= h && s[j - h].start > v.start {
      HoleMoves(s, j, j - h, v);
      HoleStepsDown(s, h, i, j, v);
      SinkKeeps(s[j := s[j - h]], h, i, j - h, v);
    } else {
      HoleFilled(s, h, i, j, v);
    }
  }

  lemma InsertKeeps(s: seq<MemRange>, h: nat, i: nat)
    requires 0 < h <= i < |s| && GapSorted(s, h, i)
    ensures GapSorted(Sink(s, h, i, s[i]), h, i + 1)
    ensures multiset(Sink(s, h, i, s[i])) == multiset(s)
  {
    assert s[i := s[i]] == s;
    assert HoleSorted(s, h, i, i, s[i]);
    SinkKeeps(s, h, i, i, s[i]);
  }

  /** Inserts entry i among the entries h, 2h, ... below it. */
  method InsertGap(a: array<MemRange>, n: nat, h: nat, i: nat)
    requires 0 < h <= i < n <= a.Length
    modifies a
    ensures a[..n] == Sink(old(a[..n]), h, i, old(a[i]))
    ensures a[n..] == old(a[n..])
  {
    ghost var s0 := a[..n];
    var v := a[i];
    var j: nat := i;
    while j >= h && a[j - h].start > v.start
      invariant j <= i
      invariant Sink(a[..n], h, j, v) == Sink(s0, h, i, v)
      invariant a[n..] == old(a[n..])
      decreases j
    {
      ghost var s := a[..n];
      a[j] := a[j - h];
      assert a[..n] == s[j := s[j - h]];
      j := j - h;
    }
    ghost var s := a[..n];
    a[j] := v;
    assert a[..n] == s[j := v];
  }

  lemma GapStart(s: seq<MemRange>, h: nat)
    ensures GapSorted(s, h, if h <= |s| then h else |s|)
  {
  }

  /** One pass: all entries h apart come to be in order. */
  method GapPass(a: array<MemRange>, n: nat, h: nat)
    requires 0 < h && n <= a.Length
    modifies a
    ensures GapSorted(a[..n], h, n)
    ensures multiset(a[..n]) == old(multiset(a[..n]))
    ensures a[..n] == Pass(old(a[..n]), h, h)
    ensures a[n..] == old(a[n..])
  {
    hide Sink, GapSorted;
    assert GapSorted(a[..n], h, if h <= n then h else n) by { GapStart(a[..n], h); }
    var i := h;
    while i < n
      invariant h <= i && (i <= n || i == h)
      invariant GapSorted(a[..n], h, if i <= n then i else n)
      invariant multiset(a[..n]) == old(multiset(a[..n]))
      invariant Pass(a[..n], h, i) == Pass(old(a[..n]), h, h)
      invariant a[n..] == old(a[n..])
    {
      InsertKeeps(a[..n], h, i);
      InsertGap(a, n, h, i);
      i := i + 1;
    }
  }

  /** Sorts the first n entries by start and permutes them, for every n: the gaps run through
      2^k - 1 down to 1. */
  method Sort(a: array<MemRange>, n: nat)
    requires n <= a.Length
    modifies a
    ensures SortedByStart(a[..n])
    ensures multiset(a[..n]) == old(multiset(a[..n]))
    ensures a[..n] == ShellSorted(old(a[..n]))
    ensures a[n..] == old(a[n..])
  {
    hide Pass;
    if n < 2 {
      return;
    }
    var h: nat := 1;
    while h < n
      invariant h > 0 && FirstGap(h, n) == FirstGap(1, n)
      decreases n - h
    {
      h := h * 2;
    }
    h := h - 1;
    while true
      invariant h > 0
      invariant multiset(a[..n]) == old(multiset(a[..n]))
      invariant Passes(a[..n], h) == ShellSorted(old(a[..n]))
      invariant a[n..] == old(a[n..])
      decreases h
    {
      GapPass(a, n, h);
      if h == 1 {
        GapOneIsSorted(a[..n]);
      }
      h := h / 2;
      if h == 0 {
        break;
      }
    }
  }
}

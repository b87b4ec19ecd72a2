/** The list of boot parameters (stage1/bparm.c). Its nodes live in boot-time base memory and
    are linked by address. */
module Bparm {
  import opened Machine
  import opened MemMap
  import opened BmemSpec
  import Bmem

  const NODE_HEADER := 16      // sizeof(bparm_t)
  const MEM_RANGE_DATA := 32   // sizeof(bdat_mem_range_t)
  const BMEM_DATA := 4         // sizeof(bdat_bmem_t)
  const POINTER_SIZE := 8

  /** The data of a node; that of a new node is all zeros. */
  datatype Data = Mrng(range: MemRange) | BmemSegs(botSeg: nat, topSeg: nat) | Zeros(size: nat)

  datatype Node = Node(next: nat, data: Data)

  type Nodes = map<nat, Node>

  function DataAt(nodes: Nodes, p: nat): Data {
    if p in nodes then nodes[p].data else Zeros(0)
  }

  function NextOf(nodes: Nodes, p: nat): nat {
    if p in nodes then nodes[p].next else 0
  }

  function Listed(nodes: Nodes, order: seq<nat>): (r: seq<Data>)
    ensures |r| == |order|
  {
    seq(|order|, i requires 0 <= i < |order| => DataAt(nodes, order[i]))
  }

  /** What stage 2 reads when it follows the links from p. */
  function Walk(nodes: Nodes, p: nat, fuel: nat): seq<Data>
    decreases fuel
  {
    if p == 0 || fuel == 0 then [] else [DataAt(nodes, p)] + Walk(nodes, NextOf(nodes, p), fuel - 1)
  }

  ghost predicate Linked(nodes: Nodes, order: seq<nat>, head: nat, tail: nat) {
    && (order == [] ==> head == 0)
    && (order != [] ==> head == order[0] && tail == order[|order| - 1])
    && (forall i :: 0 <= i < |order| ==> order[i] != 0 && order[i] in nodes)
    && (forall i :: 0 <= i < |order| ==> NextOf(nodes, order[i]) == if i + 1 < |order| then order[i + 1] else 0)
    && (forall i, j :: 0 <= i < j < |order| ==> order[i] != order[j])
  }

  ghost predicate IsNodeOf(p: nat, used: seq<Use>) {
    exists k :: 0 <= k < |used| && used[k].start == p && p + NODE_HEADER <= used[k].end && !used[k].runTime
  }

  /** Every node has boot-time memory of its own. */
  ghost predicate Housed(order: seq<nat>, used: seq<Use>) {
    forall i :: 0 <= i < |order| ==> IsNodeOf(order[i], used)
  }

  lemma {:induction false} WalkFrom(nodes: Nodes, order: seq<nat>, head: nat, tail: nat, i: nat, fuel: nat)
    requires Linked(nodes, order, head, tail) && i <= |order| <= i + fuel
    ensures Walk(nodes, if i < |order| then order[i] else 0, fuel) == Listed(nodes, order)[i..]
    decreases |order| - i
  {
    if i < |order| {
      WalkFrom(nodes, order, head, tail, i + 1, fuel - 1);
      assert Listed(nodes, order)[i..] == [DataAt(nodes, order[i])] + Listed(nodes, order)[i + 1..];
    }
  }

  /** Following the links from the head gives the parameters in the order of their addition,
      and then ends. */
  lemma WalkIsListed(nodes: Nodes, order: seq<nat>, head: nat, tail: nat, fuel: nat)
    requires Linked(nodes, order, head, tail) && |order| <= fuel
    ensures Walk(nodes, head, fuel) == Listed(nodes, order)
  {
    WalkFrom(nodes, order, head, tail, 0, fuel);
  }

  lemma AppendLinks(nodes: Nodes, order: seq<nat>, head: nat, tail: nat, p: nat, data: Data)
    requires Linked(nodes, order, head, tail) && p != 0 && p !in order
    ensures var linked := if order == [] then nodes else nodes[tail := nodes[tail].(next := p)];
            var nodes1 := linked[p := Node(0, data)];
            && Linked(nodes1, order + [p], if order == [] then p else head, p)
            && Listed(nodes1, order + [p]) == Listed(nodes, order) + [data]
  {
    var linked := if order == [] then nodes else nodes[tail := nodes[tail].(next := p)];
    var nodes1 := linked[p := Node(0, data)];
    forall i | 0 <= i < |order|
      ensures DataAt(nodes1, order[i]) == DataAt(nodes, order[i])
      ensures NextOf(nodes1, order[i]) == if i + 1 < |order| then order[i + 1] else p
    {
      assert order[i] != p && (i + 1 < |order| ==> order[i] != tail);
    }
    var order1 := order + [p];
    forall i | 0 <= i < |order1|
      ensures NextOf(nodes1, order1[i]) == if i + 1 < |order1| then order1[i + 1] else 0
    {
      assert i < |order| ==> order1[i] == order[i];
    }
    assert Linked(nodes1, order1, if order == [] then p else head, p);
  }

  lemma FilledStaysLinked(nodes: Nodes, order: seq<nat>, head: nat, tail: nat, i: nat, data: Data)
    requires Linked(nodes, order, head, tail) && i < |order|
    ensures var nodes1 := nodes[order[i] := nodes[order[i]].(data := data)];
            Linked(nodes1, order, head, tail) && Listed(nodes1, order) == Listed(nodes, order)[i := data]
  {
    var nodes1 := nodes[order[i] := nodes[order[i]].(data := data)];
    forall j | 0 <= j < |order|
      ensures NextOf(nodes1, order[j]) == NextOf(nodes, order[j])
      ensures DataAt(nodes1, order[j]) == if j == i then data else DataAt(nodes, order[j])
    {
    }
  }

  lemma NewIsUnlisted(order: seq<nat>, used: seq<Use>, u: Use)
    requires Housed(order, used) && u.start < u.end
    requires forall k :: 0 <= k < |used| ==> Apart(used[k].start, used[k].end, u.start, u.end)
    ensures u.start !in order
  {
    forall i | 0 <= i < |order| ensures order[i] != u.start {
      assert IsNodeOf(order[i], used);
    }
  }

  lemma HousedGrows(order: seq<nat>, used: seq<Use>, u: Use)
    requires Housed(order, used) && u.start + NODE_HEADER <= u.end && !u.runTime
    ensures Housed(order + [u.start], used + [u])
  {
    var used1 := used + [u];
    forall i | 0 <= i <= |order| ensures IsNodeOf((order + [u.start])[i], used1) {
      if i < |order| {
        assert IsNodeOf(order[i], used);
        var k :| 0 <= k < |used| && used[k].start == order[i] && order[i] + NODE_HEADER <= used[k].end && !used[k].runTime;
        assert used1[k] == used[k];
      } else {
        assert used1[|used|] == u;
      }
    }
  }

  /** Boot-time memory was taken from below the run-time watermark, if any was taken. */
  ghost predicate Eaten(s: seq<Blk>, t: seq<Blk>, top: nat) {
    s == t || exists i: nat, aend: nat :: EatenAt(s, t, top, i, aend)
  }

  ghost predicate EatenAt(s: seq<Blk>, t: seq<Blk>, top: nat, i: nat, aend: nat) {
    i < |s| && s[i].start <= aend <= s[i].end && s[i].start < top && t == CutBottom(s, i, aend)
  }

  /** Only boot-time uses were added. */
  ghost predicate MoreBootTime(u: seq<Use>, v: seq<Use>) {
    |u| <= |v| && v[..|u|] == u && forall k :: |u| <= k < |v| ==> !v[k].runTime
  }

  lemma EatenNothing(s: seq<Blk>, top: nat)
    ensures Eaten(s, s, top)
  {
  }

  /** What a successful boot-time allocation of a node tells about base memory. */
  lemma NodeTaken(runs: seq<Run>, s: seq<Blk>, t: seq<Blk>, used: seq<Use>, bot: nat, top: nat, i: nat, p: nat,
                  size: nat)
    requires BmemOk(runs, t, used + [Use(p, p + size, false)], bot, top) && size > 0
    requires FindBottom(s, 0, size, POINTER_SIZE) == BmemSpec.At(i, p) && p < top && t == CutBottom(s, i, p + size)
    ensures Eaten(s, t, top) && PAGE_SIZE <= p
    ensures forall k :: 0 <= k < |used| ==> Apart(used[k].start, used[k].end, p, p + size)
  {
    hide BlksOk, NoneStraddles, UsedApartFree, CutBottom, FindBottom;
    AlignUpBounds(s[i].start, POINTER_SIZE);
    var used1 := used + [Use(p, p + size, false)];
    assert used1[|used|] == Use(p, p + size, false);
    assert InRun(runs, p, p + size);
    forall k | 0 <= k < |used| ensures Apart(used[k].start, used[k].end, p, p + size) {
      assert used1[k] == used[k];
    }
    assert EatenAt(s, t, top, i, p + size);
  }

  /** Whether there is boot-time memory of that size, for a node. */
  predicate HasRoom(s: seq<Blk>, top: nat, size: nat) {
    match FindBottom(s, 0, size, POINTER_SIZE)
    case Nowhere => false
    case At(_, a) => a < top
  }

  /** The blocks after a node of that size has been taken, if there is room for it. */
  function TakeNode(s: seq<Blk>, top: nat, size: nat): seq<Blk> {
    match FindBottom(s, 0, size, POINTER_SIZE)
    case Nowhere => s
    case At(i, a) => if a < top then CutBottom(s, i, a + size) else s
  }

  class Bparms {
    const bm: Bmem.Bmem
    var head: nat             // bp_head
    var tail: nat             // bp_tail
    var nodes: Nodes
    ghost var order: seq<nat>

    ghost function View(): seq<Data>
      reads this
    {
      Listed(nodes, order)
    }

    ghost predicate Valid()
      reads this, bm, bm.blk
    {
      bm.Valid() && Linked(nodes, order, head, tail) && Housed(order, bm.used)
    }

    constructor (bm: Bmem.Bmem)
      requires bm.Valid()
      ensures Valid() && this.bm == bm && View() == []
    {
      this.bm := bm;
      this.head, this.tail := 0, 0;
      this.nodes := map[];
      this.order := [];
    }

    /** Adds a node of zeros at the end of the list, in fresh boot-time memory. */
    method Add(size: nat) returns (ok: bool, p: nat)
      requires Valid()
      modifies this, bm, bm.blk
      ensures Valid() && bm.top == old(bm.top)
      ensures Eaten(old(bm.View()), bm.View(), bm.top) && MoreBootTime(old(bm.used), bm.used)
      ensures ok == HasRoom(old(bm.View()), bm.top, NODE_HEADER + size)
      ensures bm.View() == TakeNode(old(bm.View()), bm.top, NODE_HEADER + size)
      ensures !ok ==> View() == old(View()) && bm.View() == old(bm.View())
      ensures ok ==> View() == old(View()) + [Zeros(size)] && order == old(order) + [p]
    {
      hide BmemOk, CutBottom, FindBottom, Linked, Housed, Eaten, Listed;
      p := 0;
      var r := bm.AllocBoottime(NODE_HEADER + size, POINTER_SIZE);
      if r.GaveUp? {
        EatenNothing(bm.View(), bm.top);
        return false, 0;
      }
      p := r.address;
      ghost var u := Use(p, p + NODE_HEADER + size, false);
      NodeTaken(bm.runs, old(bm.View()), bm.View(), old(bm.used), bm.bot, bm.top,
        FindBottom(old(bm.View()), 0, NODE_HEADER + size, POINTER_SIZE).index, p, NODE_HEADER + size);
      NewIsUnlisted(order, old(bm.used), u);
      HousedGrows(order, old(bm.used), u);
      AppendLinks(nodes, order, head, tail, p, Zeros(size));
      TailIsNode(nodes, order, head, tail);
      if head == 0 {
        head, tail := p, p;
      } else {
        nodes := nodes[tail := nodes[tail].(next := p)];
        tail := p;
      }
      nodes := nodes[p := Node(0, Zeros(size))];
      order := order + [p];
      ok := true;
    }

    /** Fills in the data of the node at p. */
    method Fill(p: nat, ghost i: nat, data: Data)
      requires Linked(nodes, order, head, tail) && i < |order| && order[i] == p
      modifies this`nodes
      ensures Linked(nodes, order, head, tail) && View() == old(View())[i := data]
    {
      NodeIsThere(nodes, order, head, tail, i);
      hide Linked, Listed;
      FilledStaysLinked(nodes, order, head, tail, i, data);
      nodes := nodes[p := nodes[p].(data := data)];
    }

    /** Adds a memory range, unless it is empty. */
    method AddMemRange(range: MemRange) returns (ok: bool)
      requires Valid()
      modifies this, bm, bm.blk
      ensures Valid() && bm.top == old(bm.top)
      ensures Eaten(old(bm.View()), bm.View(), bm.top) && MoreBootTime(old(bm.used), bm.used)
      ensures ok <==> range.len == 0 || HasRoom(old(bm.View()), bm.top, NODE_HEADER + MEM_RANGE_DATA)
      ensures bm.View() == if range.len == 0 then old(bm.View())
                           else TakeNode(old(bm.View()), bm.top, NODE_HEADER + MEM_RANGE_DATA)
      ensures !ok ==> View() == old(View()) && bm.View() == old(bm.View())
      ensures ok ==> View() == old(View()) + RangeData(range) && order[..|old(order)|] == old(order)
    {
      hide BmemOk, Linked, Housed, Eaten, Listed, HasRoom, TakeNode;
      if range.len == 0 {
        EatenNothing(bm.View(), bm.top);
        return true;
      }
      var p;
      ok, p := Add(MEM_RANGE_DATA);
      if ok {
        Fill(p, |order| - 1, Mrng(range));
      }
    }
  }

  lemma NextInOrder(nodes: Nodes, order: seq<nat>, head: nat, tail: nat, i: nat)
    requires Linked(nodes, order, head, tail) && i <= |order|
    ensures i == 0 ==> head == if order == [] then 0 else order[0]
    ensures i < |order| ==> order[i] != 0 && NextOf(nodes, order[i]) == if i + 1 < |order| then order[i + 1] else 0
  {
  }

  /** Reads the list by its links, as stage 2 does. */
  method ReadList(bp: Bparms) returns (l: seq<Data>)
    requires Linked(bp.nodes, bp.order, bp.head, bp.tail)
    ensures l == bp.View()
  {
    hide Linked;
    l := [];
    ghost var i: nat := 0;
    NextInOrder(bp.nodes, bp.order, bp.head, bp.tail, 0);
    var p := bp.head;
    while p != 0
      invariant i <= |bp.order| && p == (if i < |bp.order| then bp.order[i] else 0)
      invariant l == bp.View()[..i]
      decreases |bp.order| - i
    {
      NextInOrder(bp.nodes, bp.order, bp.head, bp.tail, i);
      assert bp.View()[..i + 1] == bp.View()[..i] + [DataAt(bp.nodes, p)];
      l := l + [DataAt(bp.nodes, p)];
      p := NextOf(bp.nodes, p);
      i := i + 1;
    }
    assert i == |bp.order| by {
      NextInOrder(bp.nodes, bp.order, bp.head, bp.tail, i);
    }
  }

  function RangeData(range: MemRange): seq<Data> {
    if range.len == 0 then [] else [Mrng(range)]
  }

  lemma NodeIsThere(nodes: Nodes, order: seq<nat>, head: nat, tail: nat, i: nat)
    requires Linked(nodes, order, head, tail) && i < |order|
    ensures order[i] in nodes
  {
  }

  lemma TailIsNode(nodes: Nodes, order: seq<nat>, head: nat, tail: nat)
    requires Linked(nodes, order, head, tail)
    ensures head == 0 <==> order == []
    ensures order != [] ==> tail in nodes
  {
  }
}

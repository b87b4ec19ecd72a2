/** The memory map and the physical allocator, in place (stage2/mem.c:44-46, 73-120, 443-467). */
module PhysMap {
  import opened Machine
  import opened MemMap

  const RANGE_SIZE := 32   // sizeof(mem_range_t)

  class PhysMap {
    const ranges: array<MemRange>   // mem_ranges, with room for max_mem_ranges entries
    const at: nat                   // the address of mem_ranges
    var num: nat                    // num_mem_ranges

    ghost predicate Valid()
      reads this, ranges
    {
      num <= ranges.Length && MapOk(ranges[..num])
    }

    ghost function View(): seq<MemRange>
      reads this, ranges
    {
      if num <= ranges.Length then ranges[..num] else []
    }

    constructor (ranges: array<MemRange>, at: nat, num: nat)
      requires num <= ranges.Length && MapOk(ranges[..num])
      ensures this.ranges == ranges && this.at == at && this.num == num && Valid()
    {
      this.ranges := ranges;
      this.at := at;
      this.num := num;
    }

    method FindHighestRangeBelow(max: nat) returns (r: FindResult)
      requires Valid()
      ensures r == FindHighestBelow(View(), max)
    {
      ghost var s := View();
      var left, right := 0, num;
      while left < right - 1
        invariant left < right <= num
        invariant Bisect(s, max, left, right) == Bisect(s, max, 0, num)
      {
        var mid := (left + right) / 2;
        if EndsAbove(ranges[mid], max) {
          right := mid;
        } else {
          left := mid;
        }
      }
      while EndsAbove(ranges[left], max)
        invariant left < num
        invariant StepDown(s, max, left) == FindHighestBelow(s, max)
        decreases left
      {
        if left == 0 {
          return NotFound;
        }
        left := left - 1;
      }
      r := Found(left);
    }

    /** Makes room for a copy of entry i after it. */
    method ShiftUp(i: nat)
      requires i < num < ranges.Length
      modifies this`num, ranges
      ensures num == old(num) + 1
      ensures forall k :: 0 <= k <= i ==> ranges[k] == old(ranges[k])
      ensures forall k :: i < k < num ==> ranges[k] == old(ranges[k - 1])
    {
      var j := num;
      num := num + 1;
      while j != i
        invariant i <= j < num == old(num) + 1
        invariant forall k :: 0 <= k <= j && k < old(num) ==> ranges[k] == old(ranges[k])
        invariant forall k :: j < k < num ==> ranges[k] == old(ranges[k - 1])
        decreases j
      {
        ranges[j] := ranges[j - 1];
        j := j - 1;
      }
    }

    /** Retypes range i below and above a point inside it, inserting an entry when the point is
        strictly inside; halts when there is no room for one. */
    method SplitRangeAt(i: nat, point: nat, below: nat, above: nat) returns (r: Outcome)
      requires num <= ranges.Length && i < num
      requires ranges[i].start <= point <= End(ranges[i])
      modifies this`num, ranges
      ensures r == if SplitNeedsRoom(old(ranges[i]), point) && old(num) == ranges.Length then Halted else Done
      ensures num <= ranges.Length
      ensures View() == if r == Done then SplitRange(old(View()), i, point, below, above) else old(View())
    {
      ghost var s := View();
      var mr := ranges[i];
      if mr.start == point {
        ranges[i] := mr.(e820Type := above);
        RetypedIsSplice(s, i, ranges[i]);
      } else if End(mr) == point {
        ranges[i] := mr.(e820Type := below);
        RetypedIsSplice(s, i, ranges[i]);
      } else {
        if num >= ranges.Length {
          return Halted;
        }
        ShiftUp(i);
        ranges[i] := mr.(len := point - mr.start, e820Type := below);
        ranges[i + 1] := mr.(start := point, len := End(mr) - point, e820Type := above);
        InsertedIsSplice(s, i, ranges[i], ranges[i + 1], View());
      }
      r := Done;
    }

    /** The downward walk of MemAlloc from entry top. */
    method WalkDown(top: nat, sz: nat, align: nat) returns (c: Candidate)
      requires num <= ranges.Length && top < num && align > 0
      ensures c == Scan(View(), top, sz, align)
    {
      hide MaskDown;
      ghost var s := View();
      var i: nat := top;
      while true
        invariant i < num
        invariant Scan(s, i, sz, align) == Scan(s, top, sz, align)
        decreases i
      {
        var mr := ranges[i];
        if IsRam(mr) && mr.len >= sz {
          var start := TopFit(mr, sz, align);
          if start >= mr.start {
            return At(i, start);
          }
          if mr.start == 0 {
            return Nowhere(Halted);
          }
        }
        if i == 0 {
          return Nowhere(Undefined);
        }
        i := i - 1;
      }
    }

    /** Reserves sz bytes of physical memory. NULL, modelled by the address 0, for sz == 0. */
    method MemAlloc(sz: nat, align: nat, maxAddr: uint32) returns (r: Outcome, start: nat)
      requires Valid() && IsPow2(align)
      modifies this`num, ranges
      ensures num <= ranges.Length
      ensures match Alloc(old(View()), ranges.Length, sz, align, maxAddr)
              case Null => r == Done && start == 0 && View() == old(View())
              case Stopped(why) => r == why && View() == old(View())
              case Placed(_, a, t) => r == Done && start == a && View() == t
    {
      hide Scan, FindHighestBelow, SplitRange, Fits, MaskDown;
      ghost var s := View();
      if sz == 0 {
        return Done, 0;
      }
      CandidateIsTopFit(s, sz, align, maxAddr);
      var max := if maxAddr == 0 then XM32_MAX_ADDR else maxAddr;
      if max < sz {
        return Halted, 0;
      }
      var found := FindHighestRangeBelow(max);
      if found == NotFound {
        return Halted, 0;
      }
      var c := WalkDown(found.index, sz, align);
      if c.Nowhere? {
        return c.why, 0;
      }
      FitIsInside(s[c.index], sz, align);
      start := c.start;
      r := SplitRangeAt(c.index, start, E820_RAM, E820_RESERVED);
    }
  }
}

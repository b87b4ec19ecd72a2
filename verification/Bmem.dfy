/** The base memory allocator of stage 1, in place (stage1/bmem.c:57-93, 265-353). */
module Bmem {
  import opened Machine
  import opened BmemSpec

  /** error() does not return: the boot loader gives up. */
  datatype Result = Ok(address: nat) | GaveUp

  class Bmem {
    const blk: array<Blk>       // room for MAX_BMEM_BLKS blocks
    var num: nat                // num_blks
    var bot: nat                // boottime_bmem_bot
    var top: nat                // runtime_bmem_top
    const attr: nat             // bmem_uefi_attr
    ghost const runs: seq<Run>
    ghost var used: seq<Use>

    ghost function View(): seq<Blk>
      reads this, blk
    {
      if num <= blk.Length then blk[..num] else []
    }

    ghost predicate Valid()
      reads this, blk
    {
      num <= blk.Length && top <= BMEM_MAX_ADDR && BmemOk(runs, blk[..num], used, bot, top)
    }

    constructor (blk: array<Blk>, num: nat, top: nat, attr: nat, ghost runs: seq<Run>)
      requires num <= blk.Length && top <= BMEM_MAX_ADDR && BmemOk(runs, blk[..num], [], PAGE_SIZE, top)
      ensures Valid() && this.blk == blk && this.num == num && bot == PAGE_SIZE && this.top == top
      ensures this.attr == attr && this.runs == runs && used == []
    {
      this.blk := blk;
      this.num := num;
      this.bot := PAGE_SIZE;
      this.top := top;
      this.attr := attr;
      this.runs := runs;
      this.used := [];
    }

    /** Takes the top of block i, where size bytes fit, down to astart. */
    method TakeTop(i: nat, astart: nat, size: nat, ghost align: nat)
      requires Valid() && align > 0 && i < num
      requires RunTimeFits(blk[i], size, align) && astart == MaskDown(blk[i].end - size, align)
      modifies this`top, this`used, blk
      ensures Valid() && View() == old(View())[i := old(View())[i].(end := astart)]
      ensures top == Min(old(top), astart) && used == old(used) + [Use(astart, astart + size, true)]
    {
      hide BmemOk, MaskDown, RunTimeFits;
      ghost var s := blk[..num];
      TopAllocKeeps(runs, s, used, bot, top, i, size, align);
      if top > astart {
        top := astart;
      }
      blk[i] := blk[i].(end := astart);
      used := used + [Use(astart, astart + size, true)];
      assert blk[..num] == s[i := s[i].(end := astart)];
    }

    /** Memory for use at run time, from the highest block that fits. The watermark drops to it
        if need be. */
    method Alloc(size: nat, align: uint32) returns (r: Result)
      requires Valid() && IsPow2(align)
      modifies this, blk
      ensures Valid()
      ensures match FindTop(old(View()), old(num), size, align)
              case Nowhere =>
                r == GaveUp && View() == old(View()) && top == old(top) && bot == old(bot) && used == old(used)
              case At(i, a) =>
                && r == Ok(a) && Aligned(a, align)
                && View() == old(View())[i := old(View())[i].(end := a)] && top == Min(old(top), a)
                && bot == old(bot) && used == old(used) + [Use(a, a + size, true)]
    {
      hide BmemOk, MaskDown, FindTop, Aligned;
      ghost var s := View();
      var i: nat := num;
      while i != 0
        invariant i <= num && Valid() && View() == s
        invariant top == old(top) && bot == old(bot) && used == old(used) && num == old(num)
        invariant FindTop(s, i, size, align) == FindTop(s, num, size, align)
        decreases i
      {
        i := i - 1;
        FindTopStep(s, i, size, align);
        BlockShape(runs, s, used, bot, top, i);
        var bstart, bend := blk[i].start, blk[i].end;
        if size <= bend - bstart {
          var astart := MaskDown(bend - size, align);
          if bstart <= astart {
            MaskDownAligned(bend - size, align);
            TakeTop(i, astart, size, align);
            return Ok(astart);
          }
        }
      }
      return GaveUp;
    }

    /** Closes the gap left by block i. */
    method Remove(i: nat)
      requires i < num <= blk.Length
      modifies this`num, blk
      ensures num == old(num) - 1 && View() == old(View())[..i] + old(View())[i + 1..]
    {
      ghost var s := blk[..num];
      var j: nat := i;
      while j < num - 1
        invariant i <= j < num == old(num) && blk[..i] == s[..i]
        invariant forall k :: i <= k < j ==> blk[k] == s[k + 1]
        invariant forall k :: j < k < num ==> blk[k] == s[k]
      {
        blk[j] := blk[j + 1];
        j := j + 1;
      }
      assert blk[..j] == s[..i] + s[i + 1..];
      num := num - 1;
    }

    /** Memory for use at boot time only, from the lowest block that fits; gives up if that one
        does not start below the run-time watermark. */
    method AllocBoottime(size: nat, align: uint32) returns (r: Result)
      requires Valid() && IsPow2(align)
      modifies this, blk
      ensures Valid() && top == old(top)
      ensures match FindBottom(old(View()), 0, size, align)
              case Nowhere => r == GaveUp && View() == old(View()) && bot == old(bot) && used == old(used)
              case At(i, a) =>
                if a >= old(top) then r == GaveUp && View() == old(View()) && bot == old(bot) && used == old(used)
                else
                  && r == Ok(a) && Aligned(a, align) && a + size <= top
                  && View() == CutBottom(old(View()), i, a + size) && bot == Max(old(bot), a + size)
                  && used == old(used) + [Use(a, a + size, false)]
    {
      hide BmemOk, MaskDown, Aligned;
      ghost var s := View();
      var i: nat := 0;
      while i < num
        invariant i <= num && Valid() && View() == s
        invariant top == old(top) && bot == old(bot) && used == old(used) && num == old(num)
        invariant FindBottom(s, i, size, align) == FindBottom(s, 0, size, align)
      {
        BlockShape(runs, s, used, bot, top, i);
        var bstart, bend := blk[i].start, blk[i].end;
        var astart := AlignUp(bstart, align);
        if bend - bstart < size || astart > bend || bend - astart < size {
          i := i + 1;
          continue;
        }
        if astart >= top {
          return GaveUp;
        }
        AlignUpAligned(bstart, align);
        BottomAllocKeeps(runs, s, used, bot, top, i, size, align);
        var aend := astart + size;
        if bot < aend {
          bot := aend;
        }
        used := used + [Use(astart, aend, false)];
        if aend != bend {
          blk[i] := blk[i].(start := aend);
          assert View() == CutBottom(s, i, aend);
        } else {
          Remove(i);
        }
        return Ok(astart);
      }
      return GaveUp;
    }

    /** The end of bmem_fini: aligns the watermarks, and gives up if too little is left. When it
        does not, all boot-time memory ends at or below the bottom, all run-time memory starts
        at or above the top, and 128 KiB or more lie between. */
    method CloseOff() returns (ok: bool)
      requires Valid()
      modifies this`bot, this`top
      ensures View() == old(View()) && used == old(used)
      ensures bot == AlignUp(old(bot), PARA_SIZE) && top == MaskDown(old(top), KIBYTE)
      ensures ok <==> top >= 192 * KIBYTE && bot + 128 * KIBYTE <= top
      ensures bot % PARA_SIZE == 0 && top % KIBYTE == 0
      ensures UsesOk(runs, used, bot, top)
    {
      AlignUpBounds(bot, PARA_SIZE);
      MaskDownIsMultiple(top, KIBYTE);
      hide AlignUp, MaskDown;
      WatermarksMove(runs, used, bot, top, AlignUp(bot, PARA_SIZE), MaskDown(top, KIBYTE));
      bot := AlignUp(bot, PARA_SIZE);
      top := MaskDown(top, KIBYTE);
      ok := !(top < 192 * KIBYTE || bot > top - 128 * KIBYTE);
    }
  }

  lemma BlockShape(runs: seq<Run>, s: seq<Blk>, used: seq<Use>, bot: nat, top: nat, i: nat)
    requires BmemOk(runs, s, used, bot, top) && i < |s|
    ensures s[i].start <= s[i].end <= s[i].origEnd
  {
  }

  lemma WatermarksMove(runs: seq<Run>, used: seq<Use>, bot: nat, top: nat, bot1: nat, top1: nat)
    requires UsesOk(runs, used, bot, top) && bot <= bot1 && top1 <= top
    ensures UsesOk(runs, used, bot1, top1)
  {
  }
}

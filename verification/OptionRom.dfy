/** Option ROM images: checksums, the checks on an image, its list of device ids, and the chain
    of images in a ROM (stage1/util.c:93-108, stage1/pci.c:82-134, pci.h). Buffers are
    sequences of bytes, so that every read is shown to lie inside its buffer. */
module OptionRom {
  import opened Machine

  const HKIBYTE := 512
  const PCIR_MIN_SZ := 22      // offsetof(rimg_pcir_t, max_rt_sz_hkib)
  const ROM_SIG := 0xaa55
  const PCIR_SIG := 0x52494350 // "PCIR"
  const TYPE_PCAT := 0

  type byte = x: int | 0 <= x < 256

  datatype Option<T> = Some(value: T) | None

  function Le16(s: seq<byte>, i: nat): nat
    requires i + 2 <= |s|
  {
    s[i] as int + 256 * (s[i + 1] as int)
  }

  function Le32(s: seq<byte>, i: nat): nat
    requires i + 4 <= |s|
  {
    Le16(s, i) + 0x1_0000 * Le16(s, i + 2)
  }

  // ---------------------------------------------------------------------------------------
  // Checksums

  function Sum(s: seq<byte>): nat {
    if s == [] then 0 else Sum(s[..|s| - 1]) + s[|s| - 1]
  }

  /** The byte that brings the sum to 0 modulo 256. */
  method ComputeCksum(s: seq<byte>) returns (c: byte)
    ensures (Sum(s) + c) % 256 == 0
  {
    c := 0;
    var i := 0;
    while i < |s|
      invariant 0 <= i <= |s| && (Sum(s[..i]) + c) % 256 == 0
    {
      assert s[..i + 1][..i] == s[..i];
      c := (c - s[i]) % 256;
      i := i + 1;
    }
    assert s[..i] == s;
  }

  lemma {:induction false} SumUpdate(s: seq<byte>, i: nat, b: byte)
    requires i < |s|
    ensures Sum(s[i := b]) == Sum(s) - s[i] + b
    decreases |s|
  {
    var n := |s| - 1;
    if i == n {
      assert s[i := b][..n] == s[..n];
    } else {
      assert s[i := b][..n] == s[..n][i := b];
      SumUpdate(s[..n], i, b);
    }
  }

  /** Stores the checksum of the first n bytes at position p; if that lies among them, they sum
      to 0 afterwards. */
  method UpdateCksum(buf: array<byte>, n: nat, p: nat)
    requires n <= buf.Length && p < buf.Length
    modifies buf
    ensures p < n ==> Sum(buf[..n]) % 256 == 0
    ensures p >= n ==> (Sum(buf[..n]) + buf[p]) % 256 == 0
    ensures forall k :: 0 <= k < buf.Length && k != p ==> buf[k] == old(buf[k])
  {
    buf[p] := 0;
    ghost var s := buf[..n];
    var c := ComputeCksum(buf[..n]);
    buf[p] := c;
    if p < n {
      SumUpdate(s, p, c);
      assert buf[..n] == s[p := c];
    } else {
      assert buf[..n] == s;
    }
  }

  // ---------------------------------------------------------------------------------------
  // One image

  /** The fields of a PCI Data Structure at the start of its image. */
  datatype Pcir = Pcir(off: nat, pciId: nat, devIdsOff: nat, rev: nat, classIf: nat, size: nat, kind: nat, last: bool)

  function PcirAt(s: seq<byte>, off: nat): Pcir
    requires off + PCIR_MIN_SZ <= |s|
  {
    Pcir(off, Le32(s, off + 4), Le16(s, off + 8), s[off + 12],
         0x100 * (s[off + 13] as int) + 0x1_0000 * (s[off + 14] as int) + 0x100_0000 * (s[off + 15] as int),
         HKIBYTE * Le16(s, off + 16), s[off + 20], s[off + 21] >= 128)
  }

  /** A buffer that starts with an image: the signatures are there, the declared size fits and
      holds the PCI Data Structure, and the bytes of the image sum to 0. */
  ghost predicate StartsImage(s: seq<byte>) {
    && |s| >= HKIBYTE && Le16(s, 0) == ROM_SIG && Le16(s, 0x18) != 0
    && var off := Le16(s, 0x18);
       && off + PCIR_MIN_SZ <= |s| && Le32(s, off) == PCIR_SIG
       && var n := HKIBYTE * Le16(s, off + 16);
          && 0 < n <= |s| && PCIR_MIN_SZ <= Le16(s, off + 10) && off + Le16(s, off + 10) <= n
          && Sum(s[..n]) % 256 == 0
  }

  function PcirOf(s: seq<byte>): Pcir
    requires StartsImage(s)
  {
    PcirAt(s, Le16(s, 0x18))
  }

  lemma ImageBounds(s: seq<byte>)
    requires StartsImage(s)
    ensures HKIBYTE <= PcirOf(s).size <= |s| && PcirOf(s).off + PCIR_MIN_SZ <= PcirOf(s).size
  {
  }

  /** Finds the PCI Data Structure exactly if the buffer starts with an image. */
  method FindPcir(s: seq<byte>) returns (r: Option<Pcir>)
    requires |s| < TWO64
    ensures r.Some? <==> StartsImage(s)
    ensures r.Some? ==> r.value == PcirOf(s)
  {
    var romSz: uint64 := |s|;
    if romSz < HKIBYTE {
      return None;
    }
    if Le16(s, 0) != ROM_SIG {
      return None;
    }
    var off := Le16(s, 0x18);
    if off == 0 {
      return None;
    }
    if off > romSz - PCIR_MIN_SZ {
      return None;
    }
    if Le32(s, off) != PCIR_SIG {
      return None;
    }
    var pcirSz := Le16(s, off + 10);
    if pcirSz < PCIR_MIN_SZ || pcirSz > romSz - off {
      return None;
    }
    var hkib := Le16(s, off + 16);
    if hkib == 0 || hkib > romSz / HKIBYTE {
      return None;
    }
    var n := hkib * HKIBYTE;
    if off > n - PCIR_MIN_SZ || pcirSz > n - off {
      return None;
    }
    var c := ComputeCksum(s[..n]);
    if c != 0 {
      return None;
    }
    return Some(PcirAt(s, off));
  }

  lemma SamePrefix(s: seq<byte>, t: seq<byte>, n: nat, i: nat)
    requires n <= |s| && n <= |t| && s[..n] == t[..n]
    ensures i + 2 <= n ==> Le16(s, i) == Le16(t, i)
    ensures i + 4 <= n ==> Le32(s, i) == Le32(t, i)
    ensures i < n ==> s[i] == t[i]
  {
    assert i < n ==> s[i] == s[..n][i] && t[i] == t[..n][i];
    assert i + 1 < n ==> s[i + 1] == s[..n][i + 1] && t[i + 1] == t[..n][i + 1];
    assert i + 2 < n ==> s[i + 2] == s[..n][i + 2] && t[i + 2] == t[..n][i + 2];
    assert i + 3 < n ==> s[i + 3] == s[..n][i + 3] && t[i + 3] == t[..n][i + 3];
  }

  /** Whether a buffer starts with an image, and what its fields are, depends only on the bytes
      of the image: it revalidates when read again with just its declared size, or in any other
      buffer. */
  lemma ImageRevalidates(s: seq<byte>, t: seq<byte>)
    requires StartsImage(s) && PcirOf(s).size <= |t| && t[..PcirOf(s).size] == s[..PcirOf(s).size]
    ensures StartsImage(t) && PcirOf(t) == PcirOf(s)
  {
    hide Le16, Le32;
    var n, off := PcirOf(s).size, PcirOf(s).off;
    ImageBounds(s);
    SamePrefix(s, t, n, 0);
    SamePrefix(s, t, n, 0x18);
    SamePrefix(s, t, n, off);
    SamePrefix(s, t, n, off + 4);
    SamePrefix(s, t, n, off + 8);
    SamePrefix(s, t, n, off + 10);
    SamePrefix(s, t, n, off + 12);
    SamePrefix(s, t, n, off + 13);
    SamePrefix(s, t, n, off + 14);
    SamePrefix(s, t, n, off + 15);
    SamePrefix(s, t, n, off + 16);
    SamePrefix(s, t, n, off + 20);
    SamePrefix(s, t, n, off + 21);
  }

  // ---------------------------------------------------------------------------------------
  // The list of device ids

  /** The k words from pos on are not 0, and the next one is; all lie in the buffer. */
  ghost predicate ListEnds(s: seq<byte>, pos: nat, k: nat) {
    && pos + 2 * k + 2 <= |s| && Le16(s, pos + 2 * k) == 0
    && forall j :: 0 <= j < k ==> Le16(s, pos + 2 * j) != 0
  }

  ghost predicate ListAt(s: seq<byte>, pos: nat) {
    exists k: nat :: ListEnds(s, pos, k)
  }

  function DevIdsAt(pcir: Pcir): nat {
    pcir.off + pcir.devIdsOff
  }

  ghost predicate HasDevIds(s: seq<byte>, pcir: Pcir) {
    pcir.rev >= 3 && pcir.devIdsOff != 0 && ListAt(s, DevIdsAt(pcir))
  }

  /** A list is accepted exactly if the image is of revision 3 or later, points to one, and the
      zero word that ends it lies inside the image. */
  method FindDevIdList(s: seq<byte>, pcir: Pcir) returns (r: Option<nat>, ghost k: nat)
    ensures r.Some? <==> HasDevIds(s, pcir)
    ensures r.Some? ==> r.value == DevIdsAt(pcir) && ListEnds(s, r.value, k)
  {
    k := 0;
    if pcir.rev < 3 {
      return None, 0;
    }
    if pcir.devIdsOff == 0 {
      return None, 0;
    }
    var devIds := DevIdsAt(pcir);
    var p: nat := devIds;
    while true
      invariant p == devIds + 2 * k && (k == 0 || p <= |s|)
      invariant forall j :: 0 <= j < k ==> Le16(s, devIds + 2 * j) != 0
      decreases |s| - p
    {
      if p >= |s| || p + 1 >= |s| {
        forall m: nat ensures !ListEnds(s, devIds, m) {
          if m < k {
            assert Le16(s, devIds + 2 * m) != 0;
          }
        }
        return None, 0;
      }
      p := p + 2;
      if s[p - 2] == 0 && s[p - 1] == 0 {
        assert ListEnds(s, devIds, k);
        return Some(devIds), k;
      }
      k := k + 1;
    }
  }
}

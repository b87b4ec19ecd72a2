/** The cache of option ROM images from firmware volumes: a hash table with chains, and the walk
    over the images of a ROM that fills it (stage1/fv.c:39-101, 214-228, stage1/pci.c:216-226). */
module RomCache {
  import opened Machine
  import opened OptionRom

  const HASH_BUCKETS := 1381

  datatype Entry = Entry(pciId: nat, classIf: nat, image: seq<byte>)

  function Bucket(pciId: nat, classIf: nat): (b: nat)
    ensures b < HASH_BUCKETS
  {
    (pciId * XM32_MAX_ADDR + classIf) % HASH_BUCKETS
  }

  predicate Matches(e: Entry, pciId: nat, classIf: nat) {
    e.pciId == pciId && e.classIf == classIf
  }

  /** What an association list says, newest entry first. */
  function Lookup(log: seq<Entry>, pciId: nat, classIf: nat): Option<seq<byte>> {
    if log == [] then None
    else if Matches(log[0], pciId, classIf) then Some(log[0].image)
    else Lookup(log[1..], pciId, classIf)
  }

  /** The entries that share a bucket. */
  function InBucket(log: seq<Entry>, b: nat): seq<Entry> {
    if log == [] then []
    else (if Bucket(log[0].pciId, log[0].classIf) == b then [log[0]] else []) + InBucket(log[1..], b)
  }

  /** A chain knows as much about its keys as the whole list. */
  lemma {:induction false} BucketSuffices(log: seq<Entry>, pciId: nat, classIf: nat)
    ensures Lookup(InBucket(log, Bucket(pciId, classIf)), pciId, classIf) == Lookup(log, pciId, classIf)
  {
    hide Bucket;
    if log != [] {
      var b := Bucket(pciId, classIf);
      BucketSuffices(log[1..], pciId, classIf);
      if Bucket(log[0].pciId, log[0].classIf) == b {
        assert InBucket(log, b) == [log[0]] + InBucket(log[1..], b);
        assert InBucket(log, b)[1..] == InBucket(log[1..], b);
      } else {
        assert InBucket(log, b) == InBucket(log[1..], b);
      }
    }
  }

  // ---------------------------------------------------------------------------------------
  // The ids of an image

  function MakeId(vendor: nat, dev: nat): nat {
    dev * 0x1_0000 + vendor
  }

  /** The id made from word j of the list at pos. */
  function ListedId(s: seq<byte>, pos: nat, j: nat): nat
    requires StartsImage(s) && pos + 2 * j + 2 <= |s|
  {
    MakeId(PcirOf(s).pciId % 0x1_0000, Le16(s, pos + 2 * j))
  }

  ghost predicate IsListedId(s: seq<byte>, pos: nat, k: nat, id: nat)
    requires StartsImage(s)
  {
    exists j: nat :: j < k && pos + 2 * j + 2 <= |s| && ListedId(s, pos, j) == id
  }

  /** How many ids the accepted list at pos has. */
  ghost function ListLength(s: seq<byte>, pos: nat): (k: nat)
    requires ListAt(s, pos)
    ensures ListEnds(s, pos, k)
  {
    var k: nat :| ListEnds(s, pos, k);
    k
  }

  lemma ListEndsOnce(s: seq<byte>, pos: nat, k: nat, l: nat)
    requires ListEnds(s, pos, k) && ListEnds(s, pos, l)
    ensures k == l
  {
    if k <= l {
      ListGoesOn(s, pos, l, k);
    } else {
      ListGoesOn(s, pos, k, l);
    }
  }

  /** The device is one of those that the image is for. */
  ghost predicate ServesId(s: seq<byte>, id: nat)
    requires StartsImage(s)
  {
    id == PcirOf(s).pciId
    || (HasDevIds(s, PcirOf(s))
        && IsListedId(s, DevIdsAt(PcirOf(s)), ListLength(s, DevIdsAt(PcirOf(s))), id))
  }

  ghost predicate Serves(s: seq<byte>, id: nat, classIf: nat)
    requires StartsImage(s)
  {
    classIf == PcirOf(s).classIf && ServesId(s, id)
  }

  /** A PC-AT image of just its declared size. */
  ghost predicate CachedImage(s: seq<byte>) {
    StartsImage(s) && PcirOf(s).size == |s| && PcirOf(s).kind == TYPE_PCAT
  }

  /** Every entry holds an image that is for the device it is filed under. */
  ghost predicate LogOk(log: seq<Entry>) {
    forall i :: 0 <= i < |log| ==> CachedImage(log[i].image) && Serves(log[i].image, log[i].pciId, log[i].classIf)
  }

  /** The newest entries file image s under the first k ids of the list at pos. */
  ghost predicate FiledUpTo(log: seq<Entry>, old_: seq<Entry>, s: seq<byte>, pos: nat, k: nat)
    requires StartsImage(s)
  {
    forall id: nat, c: nat ::
      Lookup(log, id, c) ==
      if c == PcirOf(s).classIf && (id == PcirOf(s).pciId || IsListedId(s, pos, k, id)) then Some(s)
      else Lookup(old_, id, c)
  }

  lemma FileOne(log: seq<Entry>, old_: seq<Entry>, s: seq<byte>, pos: nat, k: nat, e: Entry)
    requires StartsImage(s) && FiledUpTo(log, old_, s, pos, k) && pos + 2 * k + 2 <= |s|
    requires e == Entry(ListedId(s, pos, k), PcirOf(s).classIf, s)
    ensures FiledUpTo([e] + log, old_, s, pos, k + 1)
    ensures e.pciId == PcirOf(s).pciId ==> FiledUpTo(log, old_, s, pos, k + 1)
  {
    hide StartsImage, PcirOf, ListedId;
    var log1 := [e] + log;
    assert log1[1..] == log;
    forall id: nat, c: nat
      ensures IsListedId(s, pos, k + 1, id) <==> IsListedId(s, pos, k, id) || ListedId(s, pos, k) == id
      ensures Lookup(log1, id, c) == if Matches(e, id, c) then Some(s) else Lookup(log, id, c)
    {
      OneMoreListed(s, pos, k, id);
    }
  }

  lemma OneMoreListed(s: seq<byte>, pos: nat, k: nat, id: nat)
    requires StartsImage(s) && pos + 2 * k + 2 <= |s|
    ensures IsListedId(s, pos, k + 1, id) <==> IsListedId(s, pos, k, id) || ListedId(s, pos, k) == id
  {
    hide StartsImage, PcirOf, ListedId;
    if IsListedId(s, pos, k + 1, id) {
      var j: nat :| j < k + 1 && pos + 2 * j + 2 <= |s| && ListedId(s, pos, j) == id;
      assert j == k || IsListedId(s, pos, k, id);
    }
  }

  lemma FirstFiled(log: seq<Entry>, s: seq<byte>, pos: nat)
    requires StartsImage(s)
    ensures FiledUpTo([Entry(PcirOf(s).pciId, PcirOf(s).classIf, s)] + log, log, s, pos, 0)
  {
    hide StartsImage, PcirOf;
    var log1 := [Entry(PcirOf(s).pciId, PcirOf(s).classIf, s)] + log;
    assert log1[1..] == log;
  }

  /** Image s has been filed under all its ids, in front of whatever was there. */
  ghost predicate Filed(log: seq<Entry>, old_: seq<Entry>, s: seq<byte>)
    requires StartsImage(s)
  {
    forall id: nat, c: nat ::
      Lookup(log, id, c) == if Serves(s, id, c) then Some(s) else Lookup(old_, id, c)
  }

  lemma AllFiled(log: seq<Entry>, old_: seq<Entry>, s: seq<byte>, k: nat)
    requires StartsImage(s) && HasDevIds(s, PcirOf(s)) && ListEnds(s, DevIdsAt(PcirOf(s)), k)
    requires FiledUpTo(log, old_, s, DevIdsAt(PcirOf(s)), k)
    ensures Filed(log, old_, s)
  {
    hide StartsImage, PcirOf, ListEnds, Lookup, IsListedId;
    ListEndsOnce(s, DevIdsAt(PcirOf(s)), k, ListLength(s, DevIdsAt(PcirOf(s))));
  }

  lemma OnlyPrimaryFiled(log: seq<Entry>, old_: seq<Entry>, s: seq<byte>, pos: nat)
    requires StartsImage(s) && !HasDevIds(s, PcirOf(s)) && FiledUpTo(log, old_, s, pos, 0)
    ensures Filed(log, old_, s)
  {
    hide StartsImage, PcirOf, Lookup;
  }

  // ---------------------------------------------------------------------------------------
  // The hash table

  class Cache {
    const ht: array<seq<Entry>>   // each chain newest first
    ghost var log: seq<Entry>     // all entries, newest first

    ghost predicate Valid()
      reads this, ht
    {
      ht.Length == HASH_BUCKETS && LogOk(log) && forall b :: 0 <= b < HASH_BUCKETS ==> ht[b] == InBucket(log, b)
    }

    constructor ()
      ensures Valid() && fresh(ht) && log == []
    {
      ht := new seq<Entry>[HASH_BUCKETS](_ => []);
      log := [];
    }

    /** fv_add_hash_entry. */
    method Add(pciId: nat, classIf: nat, image: seq<byte>)
      requires Valid() && CachedImage(image) && Serves(image, pciId, classIf)
      modifies this, ht
      ensures Valid() && log == [Entry(pciId, classIf, image)] + old(log)
    {
      hide StartsImage, CachedImage, Serves;
      var b := Bucket(pciId, classIf);
      ghost var log1 := [Entry(pciId, classIf, image)] + log;
      assert log1[1..] == log;
      ht[b] := [Entry(pciId, classIf, image)] + ht[b];
      log := log1;
    }

    /** fv_find_rimg. The chains do what the list of all entries would. */
    method Find(pciId: nat, classIf: nat) returns (r: Option<seq<byte>>)
      requires Valid()
      ensures r == Lookup(log, pciId, classIf)
    {
      hide Bucket, LogOk;
      var chain := ht[Bucket(pciId, classIf)];
      var i := 0;
      while i < |chain|
        invariant 0 <= i <= |chain|
        invariant Lookup(chain, pciId, classIf) == Lookup(chain[i..], pciId, classIf)
      {
        if Matches(chain[i], pciId, classIf) {
          BucketSuffices(log, pciId, classIf);
          return Some(chain[i].image);
        }
        i := i + 1;
      }
      BucketSuffices(log, pciId, classIf);
      return None;
    }

    /** fv_cache_rimg: files an image under its id and all the ids of its list. */
    method CacheRimg(image: seq<byte>)
      requires Valid() && CachedImage(image)
      modifies this, ht
      ensures Valid() && Filed(log, old(log), image)
    {
      hide StartsImage, LogOk, InBucket, Lookup, FiledUpTo, ListEnds, HasDevIds, ServesId, IsListedId, Filed;
      var pcir := PcirOf(image);
      ghost var k;
      var r;
      r, k := FindDevIdList(image, pcir);
      PrimaryServes(image);
      FirstFiled(log, image, DevIdsAt(pcir));
      Add(pcir.pciId, pcir.classIf, image);
      if r == None {
        OnlyPrimaryFiled(log, old(log), image, DevIdsAt(pcir));
        return;
      }
      var p: nat := r.value;
      ghost var j: nat := 0;
      ListGoesOn(image, r.value, k, 0);
      while Le16(image, p) != 0
        invariant j <= k && p == r.value + 2 * j && p + 2 <= |image|
        invariant Valid() && FiledUpTo(log, old(log), image, r.value, j)
        invariant Le16(image, p) == 0 <==> j == k
        decreases k - j
      {
        var id := MakeId(pcir.pciId % 0x1_0000, Le16(image, p));
        ListedServes(image, k, j);
        FileOne(log, old(log), image, r.value, j, Entry(id, pcir.classIf, image));
        if id != pcir.pciId {
          Add(id, pcir.classIf, image);
        }
        p := p + 2;
        j := j + 1;
        ListGoesOn(image, r.value, k, j);
      }
      AllFiled(log, old(log), image, k);
    }

    /** get_rimg_from_fvs: what the cache finds is an image for the device, and passes the checks
        again. */
    method GetRimg(pciId: nat, classIf: nat) returns (r: Option<seq<byte>>, pcir: Option<Pcir>)
      requires Valid()
      ensures r == Lookup(log, pciId, classIf)
      ensures r.Some? <==> pcir.Some?
      ensures r.Some? ==> CachedImage(r.value) && Serves(r.value, pciId, classIf) && pcir.value == PcirOf(r.value)
    {
      hide StartsImage, InBucket, Serves;
      r := Find(pciId, classIf);
      pcir := None;
      if r.Some? {
        FoundIsOk(log, pciId, classIf);
        ImageSize(r.value);
        pcir := FindPcir(r.value);
      }
    }
  }

  lemma ImageSize(s: seq<byte>)
    requires CachedImage(s)
    ensures |s| < TWO64
  {
  }

  lemma PrimaryServes(s: seq<byte>)
    requires StartsImage(s)
    ensures Serves(s, PcirOf(s).pciId, PcirOf(s).classIf)
  {
  }

  lemma ListGoesOn(s: seq<byte>, pos: nat, k: nat, j: nat)
    requires ListEnds(s, pos, k) && j <= k
    ensures pos + 2 * j + 2 <= |s| && (Le16(s, pos + 2 * j) == 0 <==> j == k)
  {
  }

  lemma ListedServes(s: seq<byte>, k: nat, j: nat)
    requires StartsImage(s) && HasDevIds(s, PcirOf(s)) && ListEnds(s, DevIdsAt(PcirOf(s)), k) && j < k
    ensures DevIdsAt(PcirOf(s)) + 2 * j + 2 <= |s|
    ensures Serves(s, ListedId(s, DevIdsAt(PcirOf(s)), j), PcirOf(s).classIf)
  {
    hide StartsImage, PcirOf;
    var pos := DevIdsAt(PcirOf(s));
    ListEndsOnce(s, pos, k, ListLength(s, pos));
    assert IsListedId(s, pos, k, ListedId(s, pos, j));
  }

  lemma {:induction false} FoundIsOk(log: seq<Entry>, pciId: nat, classIf: nat)
    requires LogOk(log) && Lookup(log, pciId, classIf).Some?
    ensures var s := Lookup(log, pciId, classIf).value; CachedImage(s) && Serves(s, pciId, classIf)
  {
    hide CachedImage, Serves;
    if !Matches(log[0], pciId, classIf) {
      FoundIsOk(log[1..], pciId, classIf);
    }
  }
}

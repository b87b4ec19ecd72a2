/** The walk over the images of a ROM (stage1/fv.c:103-139). A ROM is a chain of images; an
    image with the last-image flag closes a group. */
module RomWalk {
  import opened Machine
  import opened OptionRom
  import opened RomCache

  datatype Img = Img(base: nat, pcir: Pcir)

  function ImgEnd(m: Img): nat {
    m.base + m.pcir.size
  }

  /** Where the images so far end. */
  function ChainEnd(imgs: seq<Img>): nat {
    if imgs == [] then 0 else ImgEnd(imgs[|imgs| - 1])
  }

  ghost predicate ImageAt(rom: seq<byte>, m: Img) {
    m.base <= |rom| && StartsImage(rom[m.base..]) && m.pcir == PcirOf(rom[m.base..])
  }

  /** Each image starts where the one before it ends, and passes all checks there. */
  ghost predicate Chain(rom: seq<byte>, imgs: seq<Img>) {
    && (forall k :: 0 <= k < |imgs| ==> ImageAt(rom, imgs[k]))
    && (forall k :: 0 <= k < |imgs| ==> imgs[k].base == ChainEnd(imgs[..k]))
  }

  /** No image follows. */
  ghost predicate Complete(rom: seq<byte>, imgs: seq<Img>) {
    Chain(rom, imgs) && ChainEnd(imgs) <= |rom| && !StartsImage(rom[ChainEnd(imgs)..])
  }

  function Bytes(rom: seq<byte>, m: Img): seq<byte>
    requires ImgEnd(m) <= |rom|
  {
    rom[m.base..ImgEnd(m)]
  }

  predicate IsPcat(m: Img, rev: nat) {
    m.pcir.kind == TYPE_PCAT && m.pcir.rev >= rev
  }

  /** The first PC-AT image among numbers i to j - 1 of at least a revision. */
  function First(imgs: seq<Img>, i: nat, j: nat, rev: nat): (r: Option<nat>)
    requires j <= |imgs|
    ensures r.Some? ==> i <= r.value < j && IsPcat(imgs[r.value], rev)
    ensures forall k :: i <= k < (if r.Some? then r.value else j) ==> !IsPcat(imgs[k], rev)
    decreases j
  {
    if j <= i then None
    else if First(imgs, i, j - 1, rev).Some? then First(imgs, i, j - 1, rev)
    else if IsPcat(imgs[j - 1], rev) then Some(j - 1)
    else None
  }

  /** The image to cache of a group: the first PC-AT image of revision 3 or later, else the
      first PC-AT image, if there is any. */
  function Choice(imgs: seq<Img>, i: nat, j: nat): (r: Option<nat>)
    requires j <= |imgs|
    ensures r.Some? ==> i <= r.value < j && IsPcat(imgs[r.value], 0)
  {
    if First(imgs, i, j, 3).Some? then First(imgs, i, j, 3) else First(imgs, i, j, 0)
  }

  /** Where the group that image n belongs to begins. */
  function GroupStart(imgs: seq<Img>, n: nat): (g: nat)
    requires n <= |imgs|
    ensures g <= n
  {
    if n == 0 || imgs[n - 1].pcir.last then n else GroupStart(imgs, n - 1)
  }

  lemma {:induction false} GroupStartIs(imgs: seq<Img>, n: nat)
    requires n <= |imgs|
    ensures var g := GroupStart(imgs, n);
            (g > 0 ==> imgs[g - 1].pcir.last) && forall k :: g <= k < n ==> !imgs[k].pcir.last
  {
    if n > 0 && !imgs[n - 1].pcir.last {
      GroupStartIs(imgs, n - 1);
    }
  }

  /** The choices of the groups that are closed within the first n images. */
  function Picks(imgs: seq<Img>, n: nat): seq<nat>
    requires n <= |imgs|
  {
    if n == 0 then []
    else
      Picks(imgs, n - 1)
      + if imgs[n - 1].pcir.last && Choice(imgs, GroupStart(imgs, n - 1), n).Some?
        then [Choice(imgs, GroupStart(imgs, n - 1), n).value] else []
  }

  /** Images g to j are a group that is closed within the first n images. */
  ghost predicate ClosedGroup(imgs: seq<Img>, n: nat, g: nat, j: nat) {
    && g <= j < n <= |imgs| && imgs[j].pcir.last && (g == 0 || imgs[g - 1].pcir.last)
    && forall i :: g <= i < j ==> !imgs[i].pcir.last
  }

  /** Image k is the one to use of the group g to j: the first PC-AT image of revision 3 or later
      or, in a group without one, the first PC-AT image. */
  ghost predicate Deserves(imgs: seq<Img>, g: nat, j: nat, k: nat)
    requires j < |imgs|
  {
    && g <= k <= j && IsPcat(imgs[k], 0)
    && if imgs[k].pcir.rev >= 3 then forall i :: g <= i < k ==> !IsPcat(imgs[i], 3)
       else (forall i :: g <= i < k ==> !IsPcat(imgs[i], 0)) && forall i :: g <= i <= j ==> !IsPcat(imgs[i], 3)
  }

  ghost predicate ChosenOf(imgs: seq<Img>, n: nat, g: nat, j: nat, k: nat) {
    ClosedGroup(imgs, n, g, j) && Deserves(imgs, g, j, k)
  }

  lemma ChoiceDeserves(imgs: seq<Img>, g: nat, j: nat, k: nat)
    requires j < |imgs|
    ensures Choice(imgs, g, j + 1) == Some(k) <==> Deserves(imgs, g, j, k)
  {
    var a, b := First(imgs, g, j + 1, 3), First(imgs, g, j + 1, 0);
    hide First;
    assert k < |imgs| ==> IsPcat(imgs[k], 0) == (imgs[k].pcir.kind == TYPE_PCAT);
    assert a.Some? ==> IsPcat(imgs[a.value], 3) && IsPcat(imgs[a.value], 0);
  }

  ghost predicate Chosen(imgs: seq<Img>, n: nat, k: nat) {
    exists g: nat, j: nat :: ChosenOf(imgs, n, g, j, k)
  }

  lemma OneMoreChosen(imgs: seq<Img>, m: nat, k: nat)
    requires m < |imgs|
    ensures Chosen(imgs, m + 1, k) <==>
            Chosen(imgs, m, k) || (imgs[m].pcir.last && Deserves(imgs, GroupStart(imgs, m), m, k))
  {
    hide Deserves, GroupStart;
    var g0 := GroupStart(imgs, m);
    GroupStartIs(imgs, m);
    assert imgs[m].pcir.last ==> ClosedGroup(imgs, m + 1, g0, m);
    if Chosen(imgs, m, k) {
      var g: nat, j: nat :| ChosenOf(imgs, m, g, j, k);
      assert ChosenOf(imgs, m + 1, g, j, k);
    }
    if Chosen(imgs, m + 1, k) {
      var g: nat, j: nat :| ChosenOf(imgs, m + 1, g, j, k);
      if j == m {
        SameStart(imgs, m + 1, g, j);
      } else {
        assert ChosenOf(imgs, m, g, j, k);
      }
    }
    if imgs[m].pcir.last && Deserves(imgs, g0, m, k) {
      assert ChosenOf(imgs, m + 1, g0, m, k);
    }
  }

  lemma OneMorePicked(imgs: seq<Img>, m: nat, k: nat)
    requires m < |imgs|
    ensures k in Picks(imgs, m + 1) <==>
            k in Picks(imgs, m) || (imgs[m].pcir.last && Choice(imgs, GroupStart(imgs, m), m + 1) == Some(k))
  {
    hide Choice, GroupStart, IsPcat;
  }

  /** Exactly the images that their groups call for are cached. */
  lemma {:induction false} PickedIff(imgs: seq<Img>, n: nat, k: nat)
    requires n <= |imgs|
    ensures k in Picks(imgs, n) <==> Chosen(imgs, n, k)
  {
    hide Choice, Chosen, Deserves, GroupStart, Picks, IsPcat, First;
    if n == 0 {
      NonePicked(imgs, k);
    } else {
      OneMorePicked(imgs, n - 1, k);
      PickedIff(imgs, n - 1, k);
      ChoiceDeserves(imgs, GroupStart(imgs, n - 1), n - 1, k);
      OneMoreChosen(imgs, n - 1, k);
    }
  }

  lemma NonePicked(imgs: seq<Img>, k: nat)
    ensures k !in Picks(imgs, 0) && !Chosen(imgs, 0, k)
  {
  }

  lemma SameStart(imgs: seq<Img>, n: nat, g: nat, j: nat)
    requires ClosedGroup(imgs, n, g, j)
    ensures g == GroupStart(imgs, j)
  {
    GroupStartIs(imgs, j);
  }

  lemma {:induction false} FirstStays(imgs: seq<Img>, m: Img, i: nat, j: nat, rev: nat)
    requires j <= |imgs|
    ensures First(imgs + [m], i, j, rev) == First(imgs, i, j, rev)
    decreases j
  {
    if j > i {
      FirstStays(imgs, m, i, j - 1, rev);
      assert (imgs + [m])[j - 1] == imgs[j - 1];
    }
  }

  lemma ChoiceStays(imgs: seq<Img>, m: Img, i: nat, j: nat)
    requires j <= |imgs|
    ensures Choice(imgs + [m], i, j) == Choice(imgs, i, j)
  {
    FirstStays(imgs, m, i, j, 3);
    FirstStays(imgs, m, i, j, 0);
  }

  lemma {:induction false} GroupStartStays(imgs: seq<Img>, m: Img, n: nat)
    requires n <= |imgs|
    ensures GroupStart(imgs + [m], n) == GroupStart(imgs, n)
  {
    if n > 0 {
      assert (imgs + [m])[n - 1] == imgs[n - 1];
      if !imgs[n - 1].pcir.last {
        GroupStartStays(imgs, m, n - 1);
      }
    }
  }

  lemma {:induction false} PicksStay(imgs: seq<Img>, m: Img, n: nat)
    requires n <= |imgs|
    ensures Picks(imgs + [m], n) == Picks(imgs, n)
  {
    hide Choice, GroupStart, IsPcat, First;
    if n > 0 {
      PicksStay(imgs, m, n - 1);
      GroupStartStays(imgs, m, n - 1);
      ChoiceStays(imgs, m, GroupStart(imgs, n - 1), n);
      assert (imgs + [m])[n - 1] == imgs[n - 1];
    }
  }

  /** The choice of the open group. */
  function Open(imgs: seq<Img>): Option<nat> {
    Choice(imgs, GroupStart(imgs, |imgs|), |imgs|)
  }

  /** The source's rule for one more image of the group. */
  predicate Replaces(imgs: seq<Img>, m: Img) {
    m.pcir.kind == TYPE_PCAT
    && (Open(imgs).None? || (imgs[Open(imgs).value].pcir.rev < 3 && m.pcir.rev >= 3))
  }

  /** The image that would be cached if m closed the group. */
  function Closing(imgs: seq<Img>, m: Img): (c: Option<nat>)
    ensures c.Some? ==> c.value <= |imgs| && IsPcat((imgs + [m])[c.value], 0)
  {
    if Replaces(imgs, m) then Some(|imgs|) else Open(imgs)
  }

  /** What the choice is when the group has one image more. */
  lemma ChoiceStep(imgs: seq<Img>, m: Img)
    ensures var imgs1 := imgs + [m];
            Choice(imgs1, GroupStart(imgs, |imgs|), |imgs1|) == Closing(imgs, m)
  {
    var g := GroupStart(imgs, |imgs|);
    FirstStays(imgs, m, g, |imgs|, 3);
    FirstStays(imgs, m, g, |imgs|, 0);
    var a, b := First(imgs, g, |imgs|, 3), First(imgs, g, |imgs|, 0);
    assert a.Some? ==> b.Some?;
    hide GroupStart;
    assert First(imgs + [m], g, |imgs| + 1, 3) == if a.Some? then a else if IsPcat(m, 3) then Some(|imgs|) else None;
    assert First(imgs + [m], g, |imgs| + 1, 0) == if b.Some? then b else if IsPcat(m, 0) then Some(|imgs|) else None;
    assert a.None? && b.Some? ==> imgs[b.value].pcir.rev < 3;
  }

  /** What a pass over one more image does. */
  lemma PassOne(imgs: seq<Img>, m: Img)
    ensures var c := Closing(imgs, m);
            && Open(imgs + [m]) == (if m.pcir.last then None else c)
            && Picks(imgs + [m], |imgs| + 1)
               == Picks(imgs, |imgs|) + (if m.pcir.last && c.Some? then [c.value] else [])
  {
    hide Choice, First, Replaces;
    var imgs1 := imgs + [m];
    GroupStartStays(imgs, m, |imgs|);
    PicksStay(imgs, m, |imgs|);
    ChoiceStep(imgs, m);
    assert imgs1[|imgs|] == m;
    if m.pcir.last {
      NoneInEmpty(imgs1, |imgs1|);
    }
  }

  lemma NoneInEmpty(imgs: seq<Img>, j: nat)
    requires j <= |imgs|
    ensures Choice(imgs, j, j) == None
  {
  }

  // ---------------------------------------------------------------------------------------
  // The cache afterwards

  ghost predicate ServesHere(s: seq<byte>, id: nat, c: nat) {
    StartsImage(s) && Serves(s, id, c)
  }

  /** The last of the images that serves a device. */
  ghost function Newest(images: seq<seq<byte>>, id: nat, c: nat): Option<seq<byte>> {
    if images == [] then None
    else if ServesHere(images[|images| - 1], id, c) then Some(images[|images| - 1])
    else Newest(images[..|images| - 1], id, c)
  }

  /** The cache finds the last of the images that serves a device, else what it found before. */
  ghost predicate Holds(log: seq<Entry>, before: seq<Entry>, images: seq<seq<byte>>) {
    forall id: nat, c: nat ::
      Lookup(log, id, c) == if Newest(images, id, c).Some? then Newest(images, id, c) else Lookup(before, id, c)
  }

  lemma HoldsOneMore(log: seq<Entry>, mid: seq<Entry>, before: seq<Entry>, images: seq<seq<byte>>, s: seq<byte>)
    requires StartsImage(s) && Holds(mid, before, images) && Filed(log, mid, s)
    ensures Holds(log, before, images + [s])
  {
    hide StartsImage, Serves, Lookup;
    assert (images + [s])[..|images|] == images;
  }

  /** The images are the bytes of those picked. */
  ghost predicate AreBytes(rom: seq<byte>, imgs: seq<Img>, picks: seq<nat>, images: seq<seq<byte>>) {
    && |images| == |picks|
    && forall k :: 0 <= k < |picks| ==>
         picks[k] < |imgs| && ImgEnd(imgs[picks[k]]) <= |rom| && images[k] == Bytes(rom, imgs[picks[k]])
  }

  lemma BytesStay(rom: seq<byte>, imgs: seq<Img>, m: Img, picks: seq<nat>, images: seq<seq<byte>>)
    requires AreBytes(rom, imgs, picks, images)
    ensures AreBytes(rom, imgs + [m], picks, images)
  {
    hide Bytes;
  }

  lemma BytesOneMore(rom: seq<byte>, imgs: seq<Img>, picks: seq<nat>, images: seq<seq<byte>>, k: nat)
    requires AreBytes(rom, imgs, picks, images) && k < |imgs| && ImgEnd(imgs[k]) <= |rom|
    ensures AreBytes(rom, imgs, picks + [k], images + [Bytes(rom, imgs[k])])
  {
    hide Bytes;
  }

  /** An image of a chain can be cached: copied out of its ROM it is still an image. */
  lemma PickIsImage(rom: seq<byte>, m: Img)
    requires ImageAt(rom, m)
    ensures ImgEnd(m) <= |rom| && StartsImage(Bytes(rom, m)) && PcirOf(Bytes(rom, m)) == m.pcir
    ensures m.pcir.kind == TYPE_PCAT ==> CachedImage(Bytes(rom, m))
  {
    hide StartsImage, PcirOf;
    var s := rom[m.base..];
    ImageBounds(s);
    assert Bytes(rom, m) == s[..m.pcir.size];
    assert Bytes(rom, m)[..m.pcir.size] == s[..m.pcir.size];
    ImageRevalidates(s, Bytes(rom, m));
  }

  lemma ChainGrows(rom: seq<byte>, imgs: seq<Img>, m: Img)
    requires Chain(rom, imgs) && ImageAt(rom, m) && m.base == ChainEnd(imgs)
    ensures Chain(rom, imgs + [m]) && ChainEnd(imgs + [m]) == ImgEnd(m)
  {
    hide ImageAt;
    var imgs1 := imgs + [m];
    forall k | 0 <= k < |imgs1| ensures imgs1[k].base == ChainEnd(imgs1[..k]) {
      assert imgs1[..k] == if k <= |imgs| then imgs[..k] else imgs;
      assert imgs[..|imgs|] == imgs;
    }
  }

  /** What the loop has done after the images so far. */
  ghost predicate Walked(rom: seq<byte>, imgs: seq<Img>, images: seq<seq<byte>>, log: seq<Entry>, before: seq<Entry>) {
    Chain(rom, imgs) && AreBytes(rom, imgs, Picks(imgs, |imgs|), images) && Holds(log, before, images)
  }

  lemma WalkedOn(rom: seq<byte>, imgs: seq<Img>, images: seq<seq<byte>>, log: seq<Entry>, before: seq<Entry>, m: Img)
    requires Walked(rom, imgs, images, log, before) && ImageAt(rom, m) && m.base == ChainEnd(imgs)
    requires !m.pcir.last || Closing(imgs, m) == None
    ensures Walked(rom, imgs + [m], images, log, before)
  {
    hide Chain, ImageAt, AreBytes, Holds, Picks, Open, Replaces;
    ChainGrows(rom, imgs, m);
    PassOne(imgs, m);
    BytesStay(rom, imgs, m, Picks(imgs, |imgs|), images);
    assert Picks(imgs, |imgs|) + [] == Picks(imgs, |imgs|);
  }

  lemma WalkedClosing(rom: seq<byte>, imgs: seq<Img>, images: seq<seq<byte>>, log: seq<Entry>, mid: seq<Entry>,
                      before: seq<Entry>,
                      m: Img, k: nat, s: seq<byte>)
    requires Walked(rom, imgs, images, mid, before) && ImageAt(rom, m) && m.base == ChainEnd(imgs)
    requires m.pcir.last && Closing(imgs, m) == Some(k)
    requires k <= |imgs| && ImgEnd((imgs + [m])[k]) <= |rom| && s == Bytes(rom, (imgs + [m])[k])
    requires StartsImage(s) && Filed(log, mid, s)
    ensures Walked(rom, imgs + [m], images + [s], log, before)
  {
    hide Chain, ImageAt, AreBytes, Holds, Picks, Open, Replaces, StartsImage, Bytes, Filed;
    ChainGrows(rom, imgs, m);
    PassOne(imgs, m);
    BytesStay(rom, imgs, m, Picks(imgs, |imgs|), images);
    BytesOneMore(rom, imgs + [m], Picks(imgs, |imgs|), images, k);
    HoldsOneMore(log, mid, before, images, s);
  }

  function ImgOf(imgs: seq<Img>, o: Option<nat>): Option<Img> {
    if o.Some? && o.value < |imgs| then Some(imgs[o.value]) else None
  }

  /** The source's update of the image found, by its own test. */
  function Update(found: Option<Img>, m: Img): Option<Img> {
    if m.pcir.kind == TYPE_PCAT && (found.None? || (found.value.pcir.rev < 3 && m.pcir.rev >= 3)) then Some(m)
    else found
  }

  /** That update is right: what is found is the choice of the group. */
  lemma UpdateIsClosing(imgs: seq<Img>, m: Img)
    ensures var f := Update(ImgOf(imgs, Open(imgs)), m);
            && f == ImgOf(imgs + [m], Closing(imgs, m)) && (f.Some? <==> Closing(imgs, m).Some?)
            && ImgOf(imgs + [m], Open(imgs + [m])) == if m.pcir.last then None else f
  {
    hide Choice, GroupStart, Picks;
    PassOne(imgs, m);
  }

  /** fv_gather_rimgs_for_one_sxn: visits the whole chain of images at the start of the ROM, and
      caches the choice of each group that is closed. */
  method Gather(cache: Cache, rom: seq<byte>) returns (ghost imgs: seq<Img>, ghost images: seq<seq<byte>>)
    requires cache.Valid() && |rom| < TWO64
    modifies cache, cache.ht
    ensures cache.Valid() && Complete(rom, imgs)
    ensures AreBytes(rom, imgs, Picks(imgs, |imgs|), images) && Holds(cache.log, old(cache.log), images)
  {
    hide StartsImage, PcirOf, Picks, Open, Closing, Holds, Filed, AreBytes, Bytes, LogOk, Chain, CachedImage, Walked,
      InBucket;
    ghost var before := cache.log;
    imgs, images := [], [];
    var left: nat := 0;
    var found: Option<Img> := None;
    NothingWalked(rom, before);
    var pcir := FindPcir(rom[left..]);
    while pcir.Some?
      invariant left == ChainEnd(imgs) <= |rom| && pcir.Some? == StartsImage(rom[left..])
      invariant pcir.Some? ==> pcir.value == PcirOf(rom[left..])
      invariant cache.Valid() && Walked(rom, imgs, images, cache.log, before)
      invariant found == ImgOf(imgs, Open(imgs))
      decreases |rom| - left
    {
      var m := Img(left, pcir.value);
      ghost var c := Closing(imgs, m);
      UpdateIsClosing(imgs, m);
      ImageBounds(rom[left..]);
      if m.pcir.kind == TYPE_PCAT {
        if found.None? || (found.value.pcir.rev < 3 && m.pcir.rev >= 3) {
          found := Some(m);
        }
      }
      if m.pcir.last && found.Some? {
        ghost var mid := cache.log;
        FoundIsImage(rom, imgs, images, mid, before, m, c);
        cache.CacheRimg(Bytes(rom, found.value));
        WalkedClosing(rom, imgs, images, cache.log, mid, before, m, c.value, Bytes(rom, found.value));
        images := images + [Bytes(rom, found.value)];
        found := None;
      } else {
        WalkedOn(rom, imgs, images, cache.log, before, m);
      }
      imgs := imgs + [m];
      left := left + m.pcir.size;
      pcir := FindPcir(rom[left..]);
    }
    WalkIsOver(rom, imgs, images, cache.log, before);
  }

  lemma NothingWalked(rom: seq<byte>, log: seq<Entry>)
    ensures Walked(rom, [], [], log, log) && Open([]) == None
  {
  }

  lemma FoundIsImage(rom: seq<byte>, imgs: seq<Img>, images: seq<seq<byte>>, log: seq<Entry>, before: seq<Entry>,
                     m: Img, c: Option<nat>)
    requires Walked(rom, imgs, images, log, before) && ImageAt(rom, m)
    requires c == Closing(imgs, m) && c.Some?
    ensures c.value <= |imgs|
    ensures var f := (imgs + [m])[c.value];
            ImgEnd(f) <= |rom| && StartsImage(Bytes(rom, f)) && CachedImage(Bytes(rom, f))
  {
    hide StartsImage, Choice, GroupStart, Bytes;
    if c.value < |imgs| {
      PickIsImage(rom, imgs[c.value]);
    } else {
      PickIsImage(rom, m);
    }
  }

  lemma WalkIsOver(rom: seq<byte>, imgs: seq<Img>, images: seq<seq<byte>>, log: seq<Entry>, before: seq<Entry>)
    requires Walked(rom, imgs, images, log, before) && ChainEnd(imgs) <= |rom| && !StartsImage(rom[ChainEnd(imgs)..])
    ensures Complete(rom, imgs) && AreBytes(rom, imgs, Picks(imgs, |imgs|), images) && Holds(log, before, images)
  {
  }
}

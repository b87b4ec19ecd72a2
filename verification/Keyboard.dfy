/** The keyboard interrupt handler: modifier state, decoding, and the ring buffer of keys
    (stage2/16/kb.c:144-295). The decoding tables are parameters: nothing here depends on their
    entries. */
module Keyboard {

  const OVERRUN := 0xff
  const K_CTL := 0x1d
  const K_LSHFT := 0x2a
  const K_RSHFT := 0x36
  const K_ALT := 0x38
  const K_CAPLK := 0x3a
  const K_NUMLK := 0x45
  const K_SCLLK := 0x46
  const KEY_UP := 0x80

  const TWO16 := 0x1_0000

  type byte = x: int | 0 <= x < 256

  /** The key codes by scan code, for each state of the modifiers. */
  datatype Maps = Maps(plain: seq<nat>, shift: seq<nat>, ctl: seq<nat>, alt: seq<nat>)

  /** The two status bytes, bit by bit. No scan code changes the other bits. */
  datatype Stat1 = Stat1(rshft: bool, lshft: bool, ctl: bool, alt: bool,
                         scllk: bool, numlk: bool, caplk: bool, ins: bool)
  datatype Stat2 = Stat2(scllk: bool, numlk: bool, caplk: bool, others: nat)

  predicate IsLetter(code: byte) {
    0x10 <= code <= 0x19 || 0x1e <= code <= 0x26 || 0x2c <= code <= 0x32
  }

  predicate IsKeypad(code: byte) {
    0x47 <= code <= 0x53
  }

  predicate IsEither(code: byte, key: byte) {
    code == key || code == key + KEY_UP
  }

  predicate IsHeldKey(code: byte) {
    || code == OVERRUN || IsEither(code, K_LSHFT) || IsEither(code, K_RSHFT)
    || IsEither(code, K_CTL) || IsEither(code, K_ALT)
  }

  predicate IsLockKey(code: byte) {
    IsEither(code, K_CAPLK) || IsEither(code, K_NUMLK) || IsEither(code, K_SCLLK)
  }

  predicate IsModifier(code: byte) {
    IsHeldKey(code) || IsLockKey(code)
  }

  function Entry(m: seq<nat>, code: byte): nat {
    if code < |m| then m[code] else 0
  }

  /** Shift inverts what Caps Lock does to letters and Num Lock to the keypad. */
  predicate Shifted(s: Stat1, code: byte) {
    ((IsKeypad(code) && s.numlk) || (IsLetter(code) && s.caplk)) != (s.lshft || s.rshft)
  }

  /** The key code of a scan code; 0 for none. Alt goes before Ctrl, and Ctrl before Shift. */
  function KeyOf(maps: Maps, s: Stat1, code: byte): nat {
    if IsModifier(code) then 0
    else if s.alt then Entry(maps.alt, code) * 0x100 % TWO16
    else if s.ctl then Entry(maps.ctl, code)
    else Entry(if Shifted(s, code) then maps.shift else maps.plain, code)
  }

  /** What the modifiers do to a key. While Alt is down no other matters, and while Ctrl is down
      Shift and the locks do not; both Shift keys do the same, and one undoes the lock; Caps Lock
      matters to letters only and Num Lock to the keypad only. */
  lemma ModifiersMean(maps: Maps, s: Stat1, t: Stat1, code: byte)
    ensures s.alt && t.alt ==> KeyOf(maps, s, code) == KeyOf(maps, t, code)
    ensures s.ctl && t.ctl && !s.alt && !t.alt ==> KeyOf(maps, s, code) == KeyOf(maps, t, code)
    ensures KeyOf(maps, s.(lshft := true), code) == KeyOf(maps, s.(rshft := true), code)
    ensures !IsLetter(code) ==> KeyOf(maps, s.(caplk := true), code) == KeyOf(maps, s.(caplk := false), code)
    ensures !IsKeypad(code) ==> KeyOf(maps, s.(numlk := true), code) == KeyOf(maps, s.(numlk := false), code)
    ensures IsLetter(code) ==>
              KeyOf(maps, s.(lshft := true, caplk := true), code)
              == KeyOf(maps, s.(lshft := false, rshft := false, caplk := false), code)
    ensures IsKeypad(code) ==>
              KeyOf(maps, s.(lshft := true, numlk := true), code)
              == KeyOf(maps, s.(lshft := false, rshft := false, numlk := false), code)
  {
    ClassesApart(code);
  }

  /** Which table a key comes from: that of Alt, a byte to the left; else that of Ctrl; else that
      of Shift if either a Shift key or the lock that the key obeys is on, but not both; else the
      plain one. A key that its table does not reach gives nothing. */
  lemma TableOf(maps: Maps, s: Stat1, code: byte, m: seq<nat>)
    requires !IsModifier(code)
    requires m == if s.alt then maps.alt else if s.ctl then maps.ctl
                  else if Shifted(s, code) then maps.shift else maps.plain
    ensures code >= |m| ==> KeyOf(maps, s, code) == 0
    ensures code < |m| && s.alt ==> KeyOf(maps, s, code) == maps.alt[code] % 0x100 * 0x100
    ensures code < |m| && s.ctl && !s.alt ==> KeyOf(maps, s, code) == maps.ctl[code]
    ensures !s.ctl && !s.alt && (s.lshft || s.rshft) && !s.numlk && !s.caplk && code < |maps.shift| ==>
              KeyOf(maps, s, code) == maps.shift[code]
    ensures !s.ctl && !s.alt && !s.lshft && !s.rshft && code < |maps.plain| ==>
              (!s.numlk && !s.caplk ==> KeyOf(maps, s, code) == maps.plain[code])
    ensures !s.ctl && !s.alt && !s.lshft && !s.rshft && code < |maps.shift| ==>
              (IsLetter(code) && s.caplk ==> KeyOf(maps, s, code) == maps.shift[code])
              && (IsKeypad(code) && s.numlk ==> KeyOf(maps, s, code) == maps.shift[code])
  {
  }

  lemma ClassesApart(code: byte)
    ensures !(IsLetter(code) && IsKeypad(code))
    ensures IsLetter(code) || IsKeypad(code) ==> !IsModifier(code)
  {
  }

  /** Whether a key is down after a scan code. */
  predicate Held(before: bool, key: byte, code: byte) {
    code == key || (code != key + KEY_UP && before)
  }

  function Stat1After(s: Stat1, c: byte): Stat1 {
    Stat1(Held(s.rshft, K_RSHFT, c), Held(s.lshft, K_LSHFT, c), Held(s.ctl, K_CTL, c), Held(s.alt, K_ALT, c),
          s.scllk != (c == K_SCLLK), s.numlk != (c == K_NUMLK), s.caplk != (c == K_CAPLK), s.ins)
  }

  function Stat2After(s: Stat2, c: byte): Stat2 {
    Stat2(Held(s.scllk, K_SCLLK, c), Held(s.numlk, K_NUMLK, c), Held(s.caplk, K_CAPLK, c), s.others)
  }

  // ---------------------------------------------------------------------------------------
  // What the keyboard is: two status bytes and a bounded queue

  datatype Event = Code(code: byte) | Consume

  datatype Kb = Kb(stat1: Stat1, stat2: Stat2, queue: seq<nat>)

  function Put(q: seq<nat>, cap: nat, key: nat): seq<nat> {
    if key == 0 || |q| >= cap then q else q + [key]
  }

  function Step(maps: Maps, cap: nat, k: Kb, e: Event): Kb {
    match e
    case Code(c) => Kb(Stat1After(k.stat1, c), Stat2After(k.stat2, c), Put(k.queue, cap, KeyOf(maps, k.stat1, c)))
    case Consume => if k.queue == [] then k else k.(queue := k.queue[1..])
  }

  function Run(maps: Maps, cap: nat, k: Kb, es: seq<Event>): Kb {
    if es == [] then k else Step(maps, cap, Run(maps, cap, k, es[..|es| - 1]), es[|es| - 1])
  }

  /** The keys that were consumed. */
  function Consumed(maps: Maps, cap: nat, k: Kb, es: seq<Event>): seq<nat> {
    if es == [] then []
    else
      var before := Run(maps, cap, k, es[..|es| - 1]);
      Consumed(maps, cap, k, es[..|es| - 1])
      + if es[|es| - 1].Consume? && before.queue != [] then [before.queue[0]] else []
  }

  /** The keys that were decoded while there was room for them. */
  function Accepted(maps: Maps, cap: nat, k: Kb, es: seq<Event>): seq<nat> {
    if es == [] then []
    else
      var before := Run(maps, cap, k, es[..|es| - 1]);
      Accepted(maps, cap, k, es[..|es| - 1])
      + match es[|es| - 1]
        case Code(c) => (var key := KeyOf(maps, before.stat1, c);
                         if key != 0 && |before.queue| < cap then [key] else [])
        case Consume => []
  }

  /** First in, first out: what was there and what was accepted is what was consumed and what is
      there now; and there are never more keys than fit. */
  lemma {:induction false} RunIsFifo(maps: Maps, cap: nat, k: Kb, es: seq<Event>)
    requires |k.queue| <= cap
    ensures |Run(maps, cap, k, es).queue| <= cap
    ensures k.queue + Accepted(maps, cap, k, es) == Consumed(maps, cap, k, es) + Run(maps, cap, k, es).queue
  {
    if es != [] {
      hide Step;
      var n := |es| - 1;
      RunIsFifo(maps, cap, k, es[..n]);
      FifoStep(maps, cap, k.queue, Accepted(maps, cap, k, es[..n]), Consumed(maps, cap, k, es[..n]),
        Run(maps, cap, k, es[..n]), es[n]);
    }
  }

  lemma FifoStep(maps: Maps, cap: nat, q0: seq<nat>, a: seq<nat>, c: seq<nat>, k: Kb, e: Event)
    requires |k.queue| <= cap && q0 + a == c + k.queue
    ensures |Step(maps, cap, k, e).queue| <= cap
    ensures match e
            case Code(x) =>
              (var key := KeyOf(maps, k.stat1, x);
               q0 + (a + if key != 0 && |k.queue| < cap then [key] else []) == (c + []) + Step(maps, cap, k, e).queue)
            case Consume =>
              q0 + (a + []) == (c + if k.queue != [] then [k.queue[0]] else []) + Step(maps, cap, k, e).queue
  {
    hide KeyOf, Stat1After, Stat2After;
    match e
    case Code(x) =>
      Appended(q0, a, c, k.queue, [KeyOf(maps, k.stat1, x)]);
      Appended(q0, a, c, k.queue, []);
    case Consume =>
      Appended(q0, a, c, k.queue, []);
      assert k.queue != [] ==> k.queue == [k.queue[0]] + k.queue[1..];
  }

  lemma Appended(k: seq<nat>, a: seq<nat>, c: seq<nat>, q: seq<nat>, x: seq<nat>)
    requires k + a == c + q
    ensures k + (a + x) == (c + []) + (q + x)
  {
    assert k + (a + x) == k + a + x;
  }

  // ---------------------------------------------------------------------------------------
  // What the status bits mean

  /** Whether a key is down after the events, by its last make or break code. */
  predicate Down(es: seq<Event>, key: byte, before: bool)
    requires key < KEY_UP
  {
    if es == [] then before
    else if es[|es| - 1] == Code(key) then true
    else if es[|es| - 1] == Code(key + KEY_UP) then false
    else Down(es[..|es| - 1], key, before)
  }

  function Makes(es: seq<Event>, key: byte): nat {
    if es == [] then 0 else Makes(es[..|es| - 1], key) + if es[|es| - 1] == Code(key) then 1 else 0
  }

  predicate HeldBits(es: seq<Event>, s: Stat1, t: Stat1) {
    && t.lshft == Down(es, K_LSHFT, s.lshft) && t.rshft == Down(es, K_RSHFT, s.rshft)
    && t.ctl == Down(es, K_CTL, s.ctl) && t.alt == Down(es, K_ALT, s.alt)
  }

  predicate Odd(n: nat) {
    n % 2 == 1
  }

  predicate LockBits(es: seq<Event>, s: Stat1, t: Stat1) {
    && t.caplk == (s.caplk != Odd(Makes(es, K_CAPLK)))
    && t.numlk == (s.numlk != Odd(Makes(es, K_NUMLK)))
    && t.scllk == (s.scllk != Odd(Makes(es, K_SCLLK)))
  }

  predicate PressedBits(es: seq<Event>, s: Stat2, t: Stat2) {
    && t.caplk == Down(es, K_CAPLK, s.caplk)
    && t.numlk == Down(es, K_NUMLK, s.numlk)
    && t.scllk == Down(es, K_SCLLK, s.scllk)
  }

  lemma DownStep(es: seq<Event>, e: Event, key: byte, before: bool)
    requires key < KEY_UP
    ensures Down(es + [e], key, before)
            == if e.Code? then Held(Down(es, key, before), key, e.code) else Down(es, key, before)
  {
    assert (es + [e])[..|es|] == es;
  }

  lemma MakesStep(es: seq<Event>, e: Event, key: byte)
    ensures Odd(Makes(es + [e], key)) == (Odd(Makes(es, key)) != (e == Code(key)))
  {
    assert (es + [e])[..|es|] == es;
  }

  lemma HeldStep(es: seq<Event>, e: Event, s: Stat1, t: Stat1)
    requires HeldBits(es, s, t)
    ensures HeldBits(es + [e], s, if e.Code? then Stat1After(t, e.code) else t)
  {
    hide Down, Held;
    DownStep(es, e, K_LSHFT, s.lshft);
    DownStep(es, e, K_RSHFT, s.rshft);
    DownStep(es, e, K_CTL, s.ctl);
    DownStep(es, e, K_ALT, s.alt);
  }

  lemma LockStep(es: seq<Event>, e: Event, s: Stat1, t: Stat1)
    requires LockBits(es, s, t)
    ensures LockBits(es + [e], s, if e.Code? then Stat1After(t, e.code) else t)
  {
    hide Odd, Makes;
    MakesStep(es, e, K_CAPLK);
    MakesStep(es, e, K_NUMLK);
    MakesStep(es, e, K_SCLLK);
  }

  lemma PressedStep(es: seq<Event>, e: Event, s: Stat2, t: Stat2)
    requires PressedBits(es, s, t)
    ensures PressedBits(es + [e], s, if e.Code? then Stat2After(t, e.code) else t)
  {
    hide Down, Held;
    DownStep(es, e, K_CAPLK, s.caplk);
    DownStep(es, e, K_NUMLK, s.numlk);
    DownStep(es, e, K_SCLLK, s.scllk);
  }

  lemma OthersStay(maps: Maps, cap: nat, k: Kb, e: Event)
    ensures Step(maps, cap, k, e).stat1 == (if e.Code? then Stat1After(k.stat1, e.code) else k.stat1)
    ensures Step(maps, cap, k, e).stat2 == (if e.Code? then Stat2After(k.stat2, e.code) else k.stat2)
    ensures Step(maps, cap, k, e).stat1.ins == k.stat1.ins && Step(maps, cap, k, e).stat2.others == k.stat2.others
  {
  }

  /** Shift, Ctrl and Alt follow their last event; locks follow the parity of their make codes;
      and all other bits stay. */
  lemma {:induction false} BitsFollowEvents(maps: Maps, cap: nat, k: Kb, es: seq<Event>)
    ensures HeldBits(es, k.stat1, Run(maps, cap, k, es).stat1)
    ensures LockBits(es, k.stat1, Run(maps, cap, k, es).stat1)
    ensures PressedBits(es, k.stat2, Run(maps, cap, k, es).stat2)
    ensures Run(maps, cap, k, es).stat1.ins == k.stat1.ins && Run(maps, cap, k, es).stat2.others == k.stat2.others
  {
    if es != [] {
      hide HeldBits, LockBits, PressedBits, Step, Stat1After, Stat2After;
      var n := |es| - 1;
      BitsFollowEvents(maps, cap, k, es[..n]);
      var b := Run(maps, cap, k, es[..n]);
      assert es == es[..n] + [es[n]];
      OthersStay(maps, cap, b, es[n]);
      HeldStep(es[..n], es[n], k.stat1, b.stat1);
      LockStep(es[..n], es[n], k.stat1, b.stat1);
      PressedStep(es[..n], es[n], k.stat2, b.stat2);
    }
  }

  // ---------------------------------------------------------------------------------------
  // The ring buffer in the BIOS data area

  /** The slot after slot p of a ring of n slots. */
  function Next(p: nat, n: nat): nat {
    if p + 1 < n then p + 1 else 0
  }

  function Nth(h: nat, i: nat, n: nat): nat
    requires h < n && i < n
  {
    if h + i < n then h + i else h + i - n
  }

  /** Slots [h, t) of the ring hold the queue. */
  ghost predicate Ring(words: seq<nat>, h: nat, t: nat, q: seq<nat>) {
    && h < |words| && t < |words| && |q| < |words| && t == Nth(h, |q|, |words|)
    && forall i :: 0 <= i < |q| ==> words[Nth(h, i, |words|)] == q[i]
  }

  lemma RingPut(words: seq<nat>, h: nat, t: nat, q: seq<nat>, key: nat)
    requires Ring(words, h, t, q)
    ensures Next(t, |words|) == h <==> |q| == |words| - 1
    ensures |q| < |words| - 1 ==> Ring(words[t := key], h, Next(t, |words|), q + [key])
  {
  }

  lemma RingTake(words: seq<nat>, h: nat, t: nat, q: seq<nat>)
    requires Ring(words, h, t, q)
    ensures h == t <==> q == []
    ensures q != [] ==> words[h] == q[0] && Ring(words, Next(h, |words|), t, q[1..])
  {
    var n := |words|;
    if q != [] {
      forall i | 0 <= i < |q[1..]| ensures words[Nth(Next(h, n), i, n)] == q[1..][i] {
        assert Nth(Next(h, n), i, n) == Nth(h, i + 1, n);
      }
    }
  }

  /** The offset after that of a word, as computed in 16 bits. */
  lemma NextOffset(start: nat, end: nat, tail: nat)
    requires start + 2 <= end < TWO16 && start <= tail && (tail - start) % 2 == 0
    requires (tail - start) / 2 < (end - start) / 2
    ensures var next := (tail + 2) % TWO16;
            (if (end - next) % TWO16 < 2 then start else next)
              == start + 2 * Next((tail - start) / 2, (end - start) / 2)
  {
    var t := (tail - start) / 2;
    assert tail == start + 2 * t && tail + 2 <= end;
    assert (tail + 2) % TWO16 == tail + 2;
  }

  /** The keyboard fields of the BIOS data area. Offsets are 16-bit; the buffer's words are
      numbered from its start. */
  class Keyboard {
    const start: nat          // kb_buf_start
    const end: nat            // kb_buf_end
    const words: array<nat>
    const maps: Maps
    var head: nat             // kb_buf_head
    var tail: nat             // kb_buf_tail
    var stat1: Stat1          // kb_stat1
    var stat2: Stat2          // kb_stat2
    ghost var queue: seq<nat>

    ghost predicate Valid()
      reads this, words
    {
      && start + 2 <= end < TWO16 && words.Length == (end - start) / 2
      && start <= head && start <= tail && (head - start) % 2 == 0 && (tail - start) % 2 == 0
      && Ring(words[..], (head - start) / 2, (tail - start) / 2, queue)
    }

    ghost function View(): Kb
      reads this
    {
      Kb(stat1, stat2, queue)
    }

    ghost function Cap(): int
      reads words
    {
      words.Length - 1
    }

    /** As rm16.asm leaves them, with an empty buffer. */
    constructor (start: nat, end: nat, maps: Maps, stat1: Stat1, stat2: Stat2)
      requires start + 2 <= end < TWO16
      ensures Valid() && View() == Kb(stat1, stat2, []) && this.maps == maps && Cap() == (end - start) / 2 - 1
      ensures fresh(words)
    {
      this.start, this.end, this.maps := start, end, maps;
      this.head, this.tail := start, start;
      this.stat1, this.stat2 := stat1, stat2;
      this.queue := [];
      var n := (end - start) / 2;
      this.words := new nat[n](_ => 0);
    }

    /** Puts a key at the tail, unless the buffer is full. */
    method PutKey(key: nat)
      requires Valid()
      modifies this`tail, this`queue, words
      ensures Valid() && queue == if |old(queue)| >= Cap() then old(queue) else old(queue) + [key]
    {
      hide Ring;
      RingPut(words[..], (head - start) / 2, (tail - start) / 2, queue, key);
      RingBounds(words[..], (head - start) / 2, (tail - start) / 2, queue);
      var oldTail := tail;
      var newTail := (oldTail + 2) % TWO16;
      if (end - newTail) % TWO16 < 2 {
        newTail := start;
      }
      NextOffset(start, end, oldTail);
      assert newTail == start + 2 * Next((oldTail - start) / 2, words.Length);
      if newTail == head {
        return;
      }
      words[(oldTail - start) / 2] := key;
      assert words[..] == old(words[..])[(oldTail - start) / 2 := key];
      tail := newTail;
      queue := queue + [key];
    }

    /** What a reader of the buffer does, outside this source: takes the key at the head. */
    method TakeKey() returns (key: nat)
      requires Valid()
      modifies this`head, this`queue
      ensures Valid() && View() == Step(maps, Cap(), old(View()), Consume)
      ensures key == if old(queue) == [] then 0 else old(queue)[0]
    {
      hide Ring;
      RingTake(words[..], (head - start) / 2, (tail - start) / 2, queue);
      RingBounds(words[..], (head - start) / 2, (tail - start) / 2, queue);
      if head == tail {
        return 0;
      }
      key := words[(head - start) / 2];
      head := if end - (head + 2) < 2 then start else head + 2;
      queue := queue[1..];
    }

    /** The cases of handle_code for the keys that are held. */
    method Hold(code: byte) returns (done: bool)
      modifies this`stat1
      ensures done == IsHeldKey(code)
      ensures stat1 == if done then Stat1After(old(stat1), code) else old(stat1)
    {
      var s := stat1;
      done := true;
      if code == OVERRUN {
      } else if code == K_LSHFT {
        s := s.(lshft := true);
      } else if code == K_LSHFT + KEY_UP {
        s := s.(lshft := false);
      } else if code == K_RSHFT {
        s := s.(rshft := true);
      } else if code == K_RSHFT + KEY_UP {
        s := s.(rshft := false);
      } else if code == K_CTL {
        s := s.(ctl := true);
      } else if code == K_CTL + KEY_UP {
        s := s.(ctl := false);
      } else if code == K_ALT {
        s := s.(alt := true);
      } else if code == K_ALT + KEY_UP {
        s := s.(alt := false);
      } else {
        done := false;
      }
      stat1 := s;
    }

    /** Its cases for the lock keys. */
    method Lock(code: byte) returns (done: bool)
      modifies this`stat1, this`stat2
      ensures done == IsLockKey(code)
      ensures stat1 == if done then Stat1After(old(stat1), code) else old(stat1)
      ensures stat2 == Stat2After(old(stat2), code)
    {
      var s, t := stat1, stat2;
      done := true;
      if code == K_CAPLK {
        s, t := s.(caplk := !s.caplk), t.(caplk := true);
      } else if code == K_CAPLK + KEY_UP {
        t := t.(caplk := false);
      } else if code == K_NUMLK {
        s, t := s.(numlk := !s.numlk), t.(numlk := true);
      } else if code == K_NUMLK + KEY_UP {
        t := t.(numlk := false);
      } else if code == K_SCLLK {
        s, t := s.(scllk := !s.scllk), t.(scllk := true);
      } else if code == K_SCLLK + KEY_UP {
        t := t.(scllk := false);
      } else {
        done := false;
      }
      stat1, stat2 := s, t;
    }

    /** Its cases for all other keys. */
    method Decode(code: byte) returns (key: nat)
      requires !IsModifier(code)
      ensures key == KeyOf(maps, stat1, code)
    {
      hide IsModifier;
      var shifted := false;
      if IsKeypad(code) {
        if stat1.numlk {
          shifted := true;
        }
      } else if IsLetter(code) {
        if stat1.caplk {
          shifted := true;
        }
      }
      if stat1.alt {
        key := Entry(maps.alt, code) * 0x100 % TWO16;
      } else if stat1.ctl {
        key := Entry(maps.ctl, code);
      } else {
        if stat1.rshft || stat1.lshft {
          shifted := !shifted;
        }
        key := if shifted then Entry(maps.shift, code) else Entry(maps.plain, code);
      }
    }

    /** handle_code. */
    method HandleCode(code: byte)
      requires Valid()
      modifies this`tail, this`stat1, this`stat2, this`queue, words
      ensures Valid() && View() == Step(maps, Cap(), old(View()), Code(code))
    {
      hide Ring, Stat1After, Stat2After, IsHeldKey, IsLockKey, KeyOf;
      var done := Hold(code);
      if done {
        HeldKeysKeep(stat2, code);
        ModifiersGiveNone(maps, old(stat1), code);
        return;
      }
      done := Lock(code);
      if done {
        ModifiersGiveNone(maps, old(stat1), code);
        return;
      }
      PlainKeysKeep(old(stat1), old(stat2), code);
      var key := Decode(code);
      if key == 0 {
        return;
      }
      PutKey(key);
    }
  }

  lemma HeldKeysKeep(t: Stat2, code: byte)
    requires IsHeldKey(code)
    ensures Stat2After(t, code) == t
  {
  }

  lemma PlainKeysKeep(s: Stat1, t: Stat2, code: byte)
    requires !IsModifier(code)
    ensures Stat1After(s, code) == s && Stat2After(t, code) == t
  {
  }

  lemma ModifiersGiveNone(maps: Maps, s: Stat1, code: byte)
    requires IsModifier(code)
    ensures KeyOf(maps, s, code) == 0
  {
  }

  lemma RingBounds(words: seq<nat>, h: nat, t: nat, q: seq<nat>)
    requires Ring(words, h, t, q)
    ensures h < |words| && t < |words| && |q| < |words|
  {
  }
}

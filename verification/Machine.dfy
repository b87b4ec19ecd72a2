/** Machine words, address constants and the bit operations of the C source.
    Addresses are natural numbers; every operator that can wrap around or truncate in the
    source is written here with an explicit modulus. */
module Machine {

  const PARA_SIZE := 0x10
  const KIBYTE := 0x400
  const PAGE_SIZE := 0x1000
  const BMEM_MAX_ADDR := 0x10_0000
  const XM32_MAX_ADDR := 0x1_0000_0000
  const TWO64 := 0x1_0000_0000_0000_0000

  type uint32 = x: int | 0 <= x < XM32_MAX_ADDR
  type uint64 = x: int | 0 <= x < TWO64

  /** How a stage 2 routine ends: normally, in hlt() (the machine stops for good), or by
      reading outside one of its own arrays, where the C source gives no meaning. */
  datatype Outcome = Done | Halted | Undefined

  predicate IsPow2(a: nat)
    decreases a
  {
    a == 1 || (a > 1 && a % 2 == 0 && IsPow2(a / 2))
  }

  lemma OneIsPow2()
    ensures IsPow2(1)
  {
  }

  function Pow2(n: nat): (r: nat)
    ensures r > 0
  {
    if n == 0 then 1 else 2 * Pow2(n - 1)
  }

  function BitAnd(x: nat, y: nat): nat
    decreases x
  {
    if x == 0 || y == 0 then 0
    else 2 * BitAnd(x / 2, y / 2) + (if x % 2 == 1 && y % 2 == 1 then 1 else 0)
  }

  function BitOr(x: nat, y: nat): nat
    decreases x + y
  {
    if x == 0 then y
    else if y == 0 then x
    else 2 * BitOr(x / 2, y / 2) + (if x % 2 == 1 || y % 2 == 1 then 1 else 0)
  }

  /** `x & -a` for a power of two `a`: see MaskDownIsAnd. */
  function MaskDown(x: nat, a: nat): (r: nat)
    requires a > 0
    ensures r <= x
  {
    SubModIsMultiple(x, a);
    x - x % a
  }

  lemma MaskDownIsMultiple(x: nat, a: nat)
    requires a > 0
    ensures MaskDown(x, a) <= x < MaskDown(x, a) + a
    ensures MaskDown(x, a) % a == 0
  {
    SubModIsMultiple(x, a);
  }

  lemma SubModIsMultiple(x: nat, a: nat)
    requires a > 0
    ensures 0 <= x - x % a
    ensures (x - x % a) % a == 0
  {
    MultipleMod(x / a, a, 0);
    assert x - x % a == x / a * a;
  }

  /** To whole pages, up and down. */
  function RoundUp(x: nat): nat {
    (x + 0xfff) / 0x1000 * 0x1000
  }

  function RoundDown(x: nat): nat {
    x / 0x1000 * 0x1000
  }

  lemma Rounded(x: nat)
    ensures x <= RoundUp(x) < x + 0x1000 && RoundUp(x) % 0x1000 == 0
    ensures RoundDown(x) <= x < RoundDown(x) + 0x1000 && RoundDown(x) % 0x1000 == 0
  {
  }

  lemma MultipleMod(q: nat, a: nat, r: nat)
    requires r < a
    ensures (q * a + r) % a == r
    ensures (q * a + r) / a == q
  {
    var x := q * a + r;
    var d := x / a - q;
    assert d * a == x / a * a - q * a;
    SmallMultipleIsZero(d, a);
  }

  lemma SmallMultipleIsZero(d: int, a: int)
    requires -a < d * a < a
    ensures d == 0
  {
    assert d >= 1 ==> d * a >= a;
    assert d <= -1 ==> d * a <= -a;
  }

  /** Two multiples of `a` that are less than `a` apart are equal. */
  lemma MultiplesApart(x: nat, y: nat, a: nat)
    requires a > 0 && x % a == 0 && y % a == 0
    requires x < y
    ensures x + a <= y
  {
    assert x == x / a * a && y == y / a * a;
    assert x / a < y / a;
    MulMonotone(x / a + 1, y / a, a);
  }

  lemma MulMonotone(p: nat, q: nat, a: nat)
    requires p <= q
    ensures p * a <= q * a
  {
  }

  lemma ModDouble(x: nat, b: nat)
    requires b > 0
    ensures x % (2 * b) == 2 * (x / 2 % b) + x % 2
    ensures x / (2 * b) == x / 2 / b
  {
    var h := x / 2;
    assert h == h / b * b + h % b;
    assert x == h / b * (2 * b) + (2 * (h % b) + x % 2);
    MultipleMod(h / b, 2 * b, 2 * (h % b) + x % 2);
  }

  lemma {:induction false} AndAllOnes(x: nat, n: nat)
    requires x < Pow2(n)
    ensures BitAnd(x, Pow2(n) - 1) == x
  {
    if n > 0 && x > 0 {
      var y := Pow2(n - 1) - 1;
      AndAllOnes(x / 2, n - 1);
      assert Pow2(n) - 1 == 2 * y + 1;
      hide Pow2, BitAnd;
      AndOdd(x, y);
    }
  }

  lemma AndEven(x: nat, y: nat)
    ensures BitAnd(x, 2 * y) == 2 * BitAnd(x / 2, y)
  {
    assert 2 * y / 2 == y;
  }

  lemma AndOdd(x: nat, y: nat)
    ensures BitAnd(x, 2 * y + 1) == 2 * BitAnd(x / 2, y) + x % 2
  {
    assert (2 * y + 1) / 2 == y;
  }

  lemma AndZero(y: nat)
    ensures BitAnd(0, y) == 0
  {
  }

  lemma Pow2IsPositive(a: nat)
    requires IsPow2(a)
    ensures a > 0
  {
  }

  lemma HalfPow2(a: nat, n: nat)
    requires IsPow2(a) && a > 1 && a <= Pow2(n)
    ensures a == 2 * (a / 2) && IsPow2(a / 2)
    ensures n > 0 && Pow2(n) == 2 * Pow2(n - 1)
  {
  }

  /** The source's alignment idiom `x & -a`, read on n-bit words, is MaskDown. */
  lemma {:induction false} MaskDownIsAnd(x: nat, a: nat, n: nat)
    requires IsPow2(a) && a <= Pow2(n) && x < Pow2(n)
    ensures BitAnd(x, Pow2(n) - a) == MaskDown(x, a)
    decreases n
  {
    hide Pow2, BitAnd, MaskDown, IsPow2;
    Pow2IsPositive(a);
    if a == 1 {
      AndAllOnes(x, n);
      MaskDownIsMultiple(x, 1);
    } else if x == 0 {
      AndZero(Pow2(n) - a);
      MaskDownIsMultiple(0, a);
    } else {
      HalfPow2(a, n);
      var b := a / 2;
      var y := Pow2(n - 1) - b;
      MaskDownIsAnd(x / 2, b, n - 1);
      MaskDownTwice(x, b);
      AndEven(x, y);
    }
  }

  lemma MaskDownTwice(x: nat, b: nat)
    requires b > 0
    ensures MaskDown(x, 2 * b) == 2 * MaskDown(x / 2, b)
  {
    ModDouble(x, b);
  }

  /** `x | f` adds when f lies below the alignment of x. */
  lemma {:induction false} OrDisjointAdds(x: nat, f: nat, a: nat)
    requires IsPow2(a) && x % a == 0 && f < a
    ensures BitOr(x, f) == x + f
    decreases a
  {
    if a > 1 && x > 0 && f > 0 {
      ModDouble(x, a / 2);
      OrDisjointAdds(x / 2, f / 2, a / 2);
    }
  }

  /** Bits below the alignment of x do not mix with x. */
  lemma {:induction false} OrLow(x: nat, f: nat, g: nat, a: nat)
    requires IsPow2(a) && x % a == 0 && f < a && g < a
    ensures BitOr(x + f, g) == x + BitOr(f, g)
    decreases a
  {
    if a > 1 {
      ModDouble(x, a / 2);
      assert x == 2 * (x / 2);
      OrLow(x / 2, f / 2, g / 2, a / 2);
      assert (x + f) / 2 == x / 2 + f / 2 && (x + f) % 2 == f % 2;
      OrUnfold(x + f, g);
      OrUnfold(f, g);
    }
  }

  lemma OrUnfold(x: nat, y: nat)
    ensures BitOr(x, y) == 2 * BitOr(x / 2, y / 2) + (if x % 2 == 1 || y % 2 == 1 then 1 else 0)
  {
  }

  lemma {:induction false} OrCommutes(x: nat, y: nat)
    ensures BitOr(x, y) == BitOr(y, x)
    decreases x
  {
    if x > 0 && y > 0 {
      OrCommutes(x / 2, y / 2);
    }
  }

  lemma {:induction false} Pow2Sum(m: nat, n: nat)
    ensures Pow2(m + n) == Pow2(m) * Pow2(n)
  {
    if n > 0 {
      Pow2Sum(m, n - 1);
    }
  }

  lemma Pow2Words()
    ensures Pow2(64) == TWO64
  {
    assert Pow2(4) == 16;
    hide Pow2;
    Pow2Twice(4, 16);
    Pow2Twice(8, 0x100);
    Pow2Twice(16, 0x1_0000);
    Pow2Twice(32, 0x1_0000_0000);
  }

  lemma Pow2Twice(n: nat, x: nat)
    requires Pow2(n) == x
    ensures Pow2(2 * n) == x * x
  {
    hide Pow2;
    Pow2Sum(n, n);
  }

  /** `w & a` for a single bit `a`. */
  lemma {:induction false} AndSingleBit(w: nat, a: nat)
    requires IsPow2(a)
    ensures BitAnd(w, a) == if w / a % 2 == 1 then a else 0
    decreases a
  {
    if w == 0 {
    } else if a == 1 {
      assert BitAnd(w / 2, 0) == 0;
      assert w / a == w;
    } else {
      AndSingleBit(w / 2, a / 2);
      ModDouble(w, a / 2);
      assert a == 2 * (a / 2);
    }
  }

  lemma LowBitPow2(n: nat)
    ensures IsPow2(2) && (1 < Pow2(n) ==> n > 0 && 2 <= Pow2(n))
  {
  }

  /** `w & ~a` for a single bit `a` of an n-bit word. */
  lemma {:induction false} AndNotSingleBit(w: nat, a: nat, n: nat)
    requires IsPow2(a) && a < Pow2(n) && w < Pow2(n)
    ensures BitAnd(w, Pow2(n) - 1 - a) == w - BitAnd(w, a)
    decreases n
  {
    hide Pow2, BitAnd, IsPow2;
    if a == 1 {
      LowBitPow2(n);
      MaskDownIsAnd(w, 2, n);
      AndSingleBit(w, 1);
    } else if w == 0 {
      AndZero(Pow2(n) - 1 - a);
      AndZero(a);
    } else {
      Pow2IsPositive(a);
      HalfPow2(a, n);
      var b := a / 2;
      var y := Pow2(n - 1) - 1 - b;
      AndNotSingleBit(w / 2, b, n - 1);
      assert Pow2(n) - 1 - a == 2 * y + 1;
      AndOdd(w, y);
      AndEven(w, b);
    }
  }
}

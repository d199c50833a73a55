/** 64-bit machine words, kept as integers below 2^64 with the wrap-around written out. */
module Words {

  type Word = x: int | 0 <= x < 0x1_0000_0000_0000_0000

  type Int64 = x: int | -0x8000_0000_0000_0000 <= x < 0x8000_0000_0000_0000

  /** The result of 64-bit arithmetic whose exact integer value is x. */
  function Wrap(x: int): Word {
    x % 0x1_0000_0000_0000_0000
  }

  /** The signed reading of a word. */
  function Signed(w: Word): int {
    if w < 0x8000_0000_0000_0000 then w else w - 0x1_0000_0000_0000_0000
  }

  function Pow2(n: nat): (r: nat)
    ensures r >= 1
  {
    if n == 0 then 1 else 2 * Pow2(n - 1)
  }

  lemma WrapId(w: Word)
    ensures Wrap(w) == w
  {}

  function Plus(a: Word, b: Word): Word {
    if a + b < 0x1_0000_0000_0000_0000 then a + b else a + b - 0x1_0000_0000_0000_0000
  }

  lemma PlusWraps(a: Word, b: Word)
    ensures Plus(a, b) == Wrap(a + b)
  {}

  function Times(a: Word, b: Word): Word { Wrap(a * b) }

  // ----- Words are a commutative ring -----

  lemma PlusZero(a: Word)
    ensures Plus(a, 0) == a && Plus(0, a) == a
  {}

  lemma PlusCommutes(a: Word, b: Word)
    ensures Plus(a, b) == Plus(b, a)
  {}

  lemma PlusAssociates(a: Word, b: Word, c: Word)
    ensures Plus(Plus(a, b), c) == Plus(a, Plus(b, c)) == Plus(Plus(a, c), b)
  {}

  lemma TimesOne(a: Word)
    ensures Times(a, 1) == a && Times(1, a) == a && Times(a, 0) == 0 && Times(0, a) == 0
  {}

  lemma TimesCommutes(a: Word, b: Word)
    ensures Times(a, b) == Times(b, a)
  {
    assert a * b == b * a;
  }

  lemma WrapMul(a: int, b: int)
    ensures Wrap(Wrap(a) * b) == Wrap(a * b)
  {
    var q, r := a / 0x1_0000_0000_0000_0000, Wrap(a);
    assert a * b == r * b + (q * b) * 0x1_0000_0000_0000_0000 by {
      assert a == q * 0x1_0000_0000_0000_0000 + r;
    }
  }

  lemma TimesAssociates(a: Word, b: Word, c: Word)
    ensures Times(Times(a, b), c) == Times(a, Times(b, c)) == Times(Times(a, c), b)
  {
    hide Wrap;
    WrapMul(a * b, c);
    WrapMul(b * c, a);
    WrapMul(a * c, b);
    assert (b * c) * a == (a * b) * c == (a * c) * b;
    assert Times(a, Times(b, c)) == Times(Times(b, c), a) by { TimesCommutes(a, Times(b, c)); }
  }

  lemma TimesDistributes(a: Word, b: Word, m: Word)
    ensures Times(Plus(a, b), m) == Plus(Times(a, m), Times(b, m))
  {
    hide Wrap, Plus;
    PlusWraps(a, b);
    PlusWraps(Times(a, m), Times(b, m));
    WrapMul(a + b, m);
    WrapSum(a * m, b * m);
    assert (a + b) * m == a * m + b * m;
  }

  lemma WrapSum(a: int, b: int)
    ensures Wrap(Wrap(a) + Wrap(b)) == Wrap(a + b)
  {}

  /** Reducing modulo a divisor of 2^64 sees through the wrap-around. */
  lemma WrapMod(x: int, d: nat, e: nat)
    requires d > 0 && d * e == 0x1_0000_0000_0000_0000
    ensures Wrap(x) % d == x % d
  {
    var q := x / 0x1_0000_0000_0000_0000;
    assert x == Wrap(x) + (q * e) * d by { MulAssoc(q, e, d); }
    ModShift(Wrap(x), q * e, d);
  }

  lemma MulAssoc(a: int, b: int, c: int)
    ensures (a * b) * c == a * (c * b)
  {}

  lemma ModShift(x: int, k: int, d: nat)
    requires d > 0
    ensures (x + k * d) % d == x % d
  {
    var q := x / d;
    assert x + k * d == (q + k) * d + x % d;
    ModUnique(x + k * d, q + k, x % d, d);
  }

  lemma ModUnique(x: int, q: int, r: int, d: nat)
    requires 0 <= r < d && x == q * d + r
    ensures x % d == r && x / d == q
  {
    DivMod(x, d);
    GapAbsorbed(q - x / d, x % d - r, d);
  }

  lemma DivMod(x: int, d: nat)
    requires d > 0
    ensures x == (x / d) * d + x % d
  {}

  lemma ModBelow(x: nat, d: nat)
    requires d > 0
    ensures 0 <= x % d <= x
  {
    DivMod(x, d);
    assert (x / d) * d >= 0;
  }

  /** A multiple of d that is smaller than d in magnitude is zero. */
  lemma GapAbsorbed(k: int, gap: int, d: nat)
    requires gap < d && gap > 0 - d && k * d == gap
    ensures k == 0
  {
    if k >= 1 { MulAtLeast(k, d); }
    if k <= -1 { MulAtLeast(-k, d); }
  }

  lemma MulAtLeast(k: int, d: nat)
    requires k >= 1
    ensures k * d >= d && (-k) * d == -(k * d)
  {
    assert k * d == (k - 1) * d + d;
    assert (k - 1) * d >= 0;
  }

  lemma {:induction false} Pow2Split(a: nat, b: nat)
    ensures Pow2(a + b) == Pow2(a) * Pow2(b)
  {
    if a > 0 {
      Pow2Split(a - 1, b);
      assert Pow2(a) * Pow2(b) == 2 * (Pow2(a - 1) * Pow2(b));
    }
  }

  lemma Pow2Of64()
    ensures Pow2(64) == 0x1_0000_0000_0000_0000
    ensures Pow2(63) == 0x8000_0000_0000_0000
    ensures Pow2(32) == 0x1_0000_0000
    ensures Pow2(8) == 256
  {
    hide Pow2;
    Pow2Of8();
    Pow2Split(8, 8);
    Pow2Split(16, 16);
    Pow2Split(32, 32);
    Pow2Split(1, 63);
  }

  lemma Pow2Of8()
    ensures Pow2(8) == 256 && Pow2(1) == 2 && Pow2(2) == 4
  {
    assert Pow2(4) == 16;
  }

  lemma {:induction false} Pow2Monotone(a: nat, b: nat)
    requires a <= b
    ensures Pow2(a) <= Pow2(b)
    ensures a < b ==> 2 * Pow2(a) <= Pow2(b)
  {
    if a < b { Pow2Monotone(a, b - 1); }
  }
}

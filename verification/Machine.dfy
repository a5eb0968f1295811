/** Machine integers as natural numbers, with the bit operations the driver uses. */
module Machine {

  newtype u8 = x: int | 0 <= x < 0x100
  type u16 = x: int | 0 <= x < 0x1_0000
  type u32 = x: int | 0 <= x < 0x1_0000_0000

  /** The cast that keeps the low byte. */
  function Byte(x: nat): u8 {
    (x % 0x100) as u8
  }

  /** The cast that keeps the low 16 bits. */
  function Half(x: nat): u16 {
    x % 0x1_0000
  }

  /** The cast that keeps the low 32 bits. */
  function Word(x: nat): u32 {
    x % 0x1_0000_0000
  }

  /** The exclusive or of two words. */
  function Xor(a: nat, b: nat): nat {
    if a == 0 && b == 0 then 0 else 2 * Xor(a / 2, b / 2) + (if a % 2 == b % 2 then 0 else 1)
  }

  function Pow2(n: nat): (p: nat)
    ensures p > 0
  {
    if n == 0 then 1 else 2 * Pow2(n - 1)
  }

  /** The low n bits of x, least significant first. */
  function Bits(x: nat, n: nat): (bits: seq<bool>)
    ensures |bits| == n
  {
    if n == 0 then [] else [x % 2 == 1] + Bits(x / 2, n - 1)
  }

  lemma {:induction false} XorFits(a: nat, b: nat, n: nat)
    requires a < Pow2(n) && b < Pow2(n)
    ensures Xor(a, b) < Pow2(n)
  {
    if n > 0 && (a != 0 || b != 0) { XorFits(a / 2, b / 2, n - 1); }
  }

  lemma {:induction false} BitsOfXor(a: nat, b: nat, n: nat, i: nat)
    requires i < n
    ensures Bits(Xor(a, b), n)[i] == (Bits(a, n)[i] != Bits(b, n)[i])
  {
    var x := Xor(a, b);
    assert x / 2 == Xor(a / 2, b / 2);
    if i > 0 { BitsOfXor(a / 2, b / 2, n - 1, i - 1); }
  }

  /** A word of n bits is determined by them. */
  lemma {:induction false} BitsInjective(a: nat, b: nat, n: nat)
    requires a < Pow2(n) && b < Pow2(n) && Bits(a, n) == Bits(b, n)
    ensures a == b
  {
    if n > 0 {
      assert a % 2 == b % 2 by { assert Bits(a, n)[0] == Bits(b, n)[0]; }
      assert Bits(a, n)[1..] == Bits(b, n)[1..];
      BitsInjective(a / 2, b / 2, n - 1);
    }
  }

  /** Bits beyond the width of the word are zero. */
  lemma {:induction false} BitsBeyond(a: nat, w: nat, n: nat, i: nat)
    requires a < Pow2(w) && w <= i < n
    ensures !Bits(a, n)[i]
  {
    if w == 0 {
      if i > 0 { BitsBeyond(0, 0, n - 1, i - 1); }
    } else {
      BitsBeyond(a / 2, w - 1, n - 1, i - 1);
    }
  }

  /** The low bits do not depend on how many are asked for. */
  lemma {:induction false} BitsPrefix(a: nat, m: nat, n: nat, i: nat)
    requires i < m && i < n
    ensures Bits(a, m)[i] == Bits(a, n)[i]
  {
    if i > 0 { BitsPrefix(a / 2, m - 1, n - 1, i - 1); }
  }

  /** A word of full width has its top bit set. */
  lemma {:induction false} BitsTop(a: nat, n: nat)
    requires n > 0 && Pow2(n - 1) <= a < Pow2(n)
    ensures Bits(a, n)[n - 1]
  {
    if n > 1 { BitsTop(a / 2, n - 1); }
  }

  lemma {:induction false} XorAssoc(a: nat, b: nat, c: nat)
    ensures Xor(Xor(a, b), c) == Xor(a, Xor(b, c))
  {
    if a != 0 || b != 0 || c != 0 {
      XorAssoc(a / 2, b / 2, c / 2);
      XorHalf(a, b);
      XorHalf(b, c);
      XorHalf(Xor(a, b), c);
      XorHalf(a, Xor(b, c));
    }
  }

  lemma XorHalf(a: nat, b: nat)
    ensures Xor(a, b) / 2 == Xor(a / 2, b / 2)
    ensures Xor(a, b) % 2 == (if a % 2 == b % 2 then 0 else 1)
  {}

  lemma {:induction false} XorComm(a: nat, b: nat)
    ensures Xor(a, b) == Xor(b, a)
  {
    if a != 0 || b != 0 { XorComm(a / 2, b / 2); }
  }

  lemma {:induction false} XorSelf(a: nat)
    ensures Xor(a, a) == 0 && Xor(a, 0) == a
  {
    if a != 0 { XorSelf(a / 2); }
  }

  /** A word moved down by n bits, moved up by n bits, and its low n bits. */
  function Down(a: nat, n: nat): nat {
    if n == 0 then a else Down(a / 2, n - 1)
  }

  function Up(a: nat, n: nat): nat
    decreases n
  {
    if n == 0 then a else 2 * Up(a, n - 1)
  }

  function Low(a: nat, n: nat): nat {
    if n == 0 then 0 else 2 * Low(a / 2, n - 1) + a % 2
  }

  lemma {:induction false} XorSplit(a: nat, n: nat)
    ensures Xor(Up(Down(a, n), n), Low(a, n)) == a
  {
    if n == 0 {
      XorSelf(a);
    } else {
      XorSplit(a / 2, n - 1);
      XorDouble(Up(Down(a / 2, n - 1), n - 1), Low(a / 2, n - 1), a % 2);
    }
  }

  lemma XorDouble(a: nat, b: nat, e: nat)
    requires e < 2
    ensures Xor(2 * a, 2 * b + e) == 2 * Xor(a, b) + e
  {
    XorHalf(2 * a, 2 * b + e);
  }

  lemma {:induction false} DownXor(a: nat, b: nat, n: nat)
    ensures Down(Xor(a, b), n) == Xor(Down(a, n), Down(b, n))
  {
    if n > 0 {
      XorHalf(a, b);
      DownXor(a / 2, b / 2, n - 1);
    }
  }

  lemma OneByte(a: nat)
    ensures Down(a, 8) == a / 0x100 && Low(a, 8) == a % 0x100
  {
    PowerValues();
    DownIsDiv(a, 8);
  }

  lemma {:induction false} BitsWider(a: nat, n: nat)
    requires a < Pow2(n)
    ensures Bits(a, n + 1) == Bits(a, n) + [false]
  {
    if n > 0 { BitsWider(a / 2, n - 1); }
  }

  /** Halving a word moves its bits down by one. */
  lemma BitsHalf(a: nat, n: nat)
    requires n > 0 && a < Pow2(n)
    ensures Bits(a / 2, n) == Bits(a, n)[1..] + [false]
    ensures Bits(a, n)[0] == (a % 2 == 1)
  {
    BitsWider(a / 2, n - 1);
  }

  /** The inclusive or of two words. */
  function Or(a: nat, b: nat): nat {
    if a == 0 && b == 0 then 0 else 2 * Or(a / 2, b / 2) + (if a % 2 == 1 || b % 2 == 1 then 1 else 0)
  }

  lemma {:induction false} OrZero(b: nat)
    ensures Or(0, b) == b && Or(b, 0) == b
  {
    if b != 0 { OrZero(b / 2); }
  }

  /** A word whose low n bits are clear, or-ed with one of n bits, is their sum. */
  lemma {:induction false} OrDisjoint(a: nat, b: nat, n: nat)
    requires b < Pow2(n)
    ensures Or(Up(a, n), b) == Up(a, n) + b
  {
    if n == 0 {
      OrZero(a);
    } else if Up(a, n) != 0 || b != 0 {
      OrDisjoint(a, b / 2, n - 1);
    }
  }

  lemma {:induction false} LowBound(a: nat, n: nat)
    ensures Low(a, n) < Pow2(n)
    ensures a < Pow2(n) ==> Low(a, n) == a
    ensures a == Up(Down(a, n), n) + Low(a, n)
  {
    if n > 0 { LowBound(a / 2, n - 1); }
  }

  lemma {:induction false} DownBound(a: nat, m: nat, n: nat)
    requires a < Pow2(m + n)
    ensures Down(a, m) < Pow2(n)
  {
    if m > 0 { DownBound(a / 2, m - 1, n); }
  }

  /** Moving up inside a register of m + n bits keeps the low n bits. */
  lemma {:induction false} LowOfUp(a: nat, m: nat, n: nat)
    ensures Low(Up(a, m), m + n) == Up(Low(a, n), m)
  {
    if m > 0 { LowOfUp(a, m - 1, n); }
  }

  lemma {:induction false} UpTwice(a: nat, m: nat, n: nat)
    ensures Up(Up(a, m), n) == Up(a, m + n)
  {
    if n > 0 { UpTwice(a, m, n - 1); }
  }

  lemma {:induction false} UpBound(a: nat, m: nat, n: nat)
    requires a < Pow2(m)
    ensures Up(a, n) < Pow2(m + n)
  {
    if n > 0 { UpBound(a, m, n - 1); }
  }

  lemma PowerValues()
    ensures Pow2(3) == 8 && Pow2(5) == 32 && Pow2(7) == 0x80 && Pow2(8) == 0x100
    ensures Pow2(16) == 0x1_0000 && Pow2(24) == 0x100_0000 && Pow2(27) == 0x800_0000
    ensures Pow2(29) == 0x2000_0000 && Pow2(31) == 0x8000_0000 && Pow2(32) == 0x1_0000_0000
  {
    assert Pow2(5) == 32;
    assert Pow2(8) == 0x100;
    PowAdd(8, 8);
    PowAdd(16, 8);
    PowAdd(24, 3);
    PowAdd(24, 5);
    PowAdd(24, 7);
    PowAdd(24, 8);
  }

  lemma {:induction false} PowAdd(m: nat, n: nat)
    ensures Pow2(m + n) == Pow2(m) * Pow2(n)
  {
    if m > 0 { PowAdd(m - 1, n); }
  }

  lemma {:induction false} UpIsProduct(a: nat, n: nat)
    ensures Up(a, n) == a * Pow2(n)
  {
    if n > 0 { UpIsProduct(a, n - 1); }
  }

  lemma UpSum(a: nat, b: nat, n: nat)
    ensures Up(a + b, n) == Up(a, n) + Up(b, n)
  {
    UpIsProduct(a, n);
    UpIsProduct(b, n);
    UpIsProduct(a + b, n);
  }

  /** Moving a word down by n bits divides it, keeping its low n bits is the remainder. */
  lemma DownIsDiv(a: nat, n: nat)
    ensures a == Down(a, n) * Pow2(n) + Low(a, n)
    ensures Low(a, n) < Pow2(n)
  {
    LowBound(a, n);
    UpIsProduct(Down(a, n), n);
  }

  lemma DivIs(a: nat, q: nat, r: nat, d: nat)
    requires d > 0 && a == q * d + r && r < d
    ensures a / d == q
  {
    ProductsApart(a / d, q, d, a % d, r);
  }

  lemma ProductsApart(p: int, q: int, d: nat, s: nat, r: nat)
    requires p * d + s == q * d + r && s < d && r < d
    ensures p == q
  {
    if p > q { Multiple(p, q, d); }
    if p < q { Multiple(q, p, d); }
  }

  lemma Multiple(p: int, q: int, d: nat)
    requires p > q
    ensures p * d >= q * d + d
  {
    assert p * d == (q + 1) * d + (p - q - 1) * d;
  }

  lemma DownSeven(a: nat)
    ensures Down(a, 7) == a / 0x80
  {
    PowerValues();
    DownIsDiv(a, 7);
  }

  lemma DownThirtyOne(a: nat)
    ensures Down(a, 31) == a / 0x8000_0000
  {
    PowerValues();
    DownIsDiv(a, 31);
  }

  lemma DownTwentySeven(a: nat)
    ensures Down(a, 27) == a / 0x800_0000
  {
    PowerValues();
    DownIsDiv(a, 27);
  }

  lemma LowHalf(a: nat)
    ensures Low(a, 16) == Half(a)
  {
    PowerValues();
    DownIsDiv(a, 16);
  }

  lemma LowWord(a: nat)
    ensures Low(a, 32) == Word(a)
  {
    PowerValues();
    DownIsDiv(a, 32);
  }

  lemma {:induction false} OrComm(a: nat, b: nat)
    ensures Or(a, b) == Or(b, a)
  {
    if a != 0 || b != 0 { OrComm(a / 2, b / 2); }
  }

  /** A word of m bits moved up by n leaves room for n more. */
  lemma {:induction false} UpRoom(a: nat, m: nat, n: nat)
    requires a < Pow2(m)
    ensures Up(a, n) + Pow2(n) <= Pow2(m + n)
  {
    if n > 0 { UpRoom(a, m, n - 1); }
  }

  /** A low byte or-ed with a word above it is their sum. */
  lemma OrBytes(high: nat, low: nat)
    requires low < 0x100
    ensures Or(high * 0x100, low) == Or(low, high * 0x100) == high * 0x100 + low
  {
    PowerValues();
    UpIsProduct(high, 8);
    OrDisjoint(high, low, 8);
    OrComm(low, high * 0x100);
  }

  lemma {:induction false} LowLow(a: nat, m: nat, n: nat)
    requires n <= m
    ensures Low(Low(a, m), n) == Low(a, n)
  {
    if n > 0 { LowLow(a / 2, m - 1, n - 1); }
  }

  lemma LowDouble(u: nat, n: nat)
    requires n > 0
    ensures Low(2 * u, n) == 2 * Low(u, n - 1)
  {
    assert 2 * u / 2 == u;
  }

  /** Truncating before doubling changes nothing once the result is truncated. */
  lemma LowShift(u: nat, n: nat)
    requires n > 0
    ensures Low(2 * Low(u, n), n) == Low(2 * u, n)
  {
    LowDouble(u, n);
    LowDouble(Low(u, n), n);
    LowLow(u, n, n - 1);
  }

  // ------------------------------------------------------------------ plain arithmetic

  lemma ByteOfHalf(x: nat)
    ensures Half(x) % 0x100 == x % 0x100
  {}

  lemma ByteOfSum(h: nat, l: nat)
    ensures (h * 0x100 + l) % 0x100 == l % 0x100
  {}

  lemma HalfOfSum(h: nat, r: nat)
    requires r < 0x1_0000
    ensures Half(h * 0x1_0000 + r) == r
  {}

  lemma HighOfHalf(r: nat)
    ensures Half(r * 0x100) / 0x100 == r % 0x100
  {
    assert r * 0x100 == r / 0x100 * 0x1_0000 + r % 0x100 * 0x100;
  }
}

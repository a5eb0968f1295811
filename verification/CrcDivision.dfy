/** The CRCs of utils/fwinfo.c as division of polynomials over the field with two elements: a
    polynomial is given by its coefficients, and sums are exclusive or. */
module CrcDivision {
  import opened Machine
  import opened Crc

  /** The exponents in the generators: that of the CRC-32 of section 8 of RFC 1952, and
      x^16 + x^15 + x^2 + 1. */
  function Generator(c: Code): set<nat> {
    match c
    case Crc32 => {0, 1, 2, 4, 5, 7, 8, 10, 11, 12, 16, 22, 23, 26, 32}
    case Crc16 => {0, 2, 15, 16}
  }

  /** The coefficient of x^e in the polynomial a register stands for: its least significant bit belongs
      to the highest power. */
  predicate RegAt(r: Register, e: int) {
    0 <= e < |r| && r[|r| - 1 - e]
  }

  /** ... in a message, the first bit of which belongs to the highest power. */
  predicate MsgAt(bits: seq<bool>, e: int) {
    0 <= e < |bits| && bits[|bits| - 1 - e]
  }

  /** ... in the product of g and the polynomial with coefficients q, highest power first. */
  predicate ProductAt(g: set<nat>, q: seq<bool>, e: int)
    decreases |q|
  {
    q != [] && ProductAt(g, q[..|q| - 1], e - 1) != (q[|q| - 1] && e in g)
  }

  predicate TapsOf(taps: Register, g: set<nat>) {
    && |taps| in g && (forall e | e in g :: e <= |taps|)
    && forall i | 0 <= i < |taps| :: taps[i] <==> (|taps| - 1 - i) as nat in g
  }

  /** One more bit: times x, the bit added at the width, and the generator subtracted if the highest
      power is there then. */
  lemma StepDivides(taps: Register, g: set<nat>, r: Register, b: bool, e: int)
    requires |r| == |taps| > 0 && TapsOf(taps, g)
    ensures RegAt(Step(taps, r, b), e) == ((RegAt(r, e - 1) != (b && e == |taps|)) != ((r[0] != b) && e in g))
  {}

  lemma MsgLonger(bits: seq<bool>, b: bool, e: int)
    ensures MsgAt(bits + [b], e) == (MsgAt(bits, e - 1) != (b && e == 0))
  {}

  lemma ProductLonger(g: set<nat>, q: seq<bool>, b: bool, e: int)
    ensures ProductAt(g, q + [b], e) == (ProductAt(g, q, e - 1) != (b && e in g))
  {
    assert (q + [b])[..|q|] == q;
  }

  ghost predicate Divided(g: set<nat>, r: Register, bits: seq<bool>, end: Register, q: seq<bool>) {
    forall e: int :: DividedAt(g, r, bits, end, q, e)
  }

  /** x^n * r + x^w * bits = g * q + end, at x^e, for n bits and registers of w. */
  predicate DividedAt(g: set<nat>, r: Register, bits: seq<bool>, end: Register, q: seq<bool>, e: int) {
    RegAt(end, e) == ((RegAt(r, e - |bits|) != MsgAt(bits, e - |r|)) != ProductAt(g, q, e))
  }

  lemma {:induction false} FeedDivides(taps: Register, g: set<nat>, r: Register, bits: seq<bool>) returns (q: seq<bool>)
    requires |r| == |taps| > 0 && TapsOf(taps, g)
    ensures |q| == |bits| && Divided(g, r, bits, Feed(taps, r, bits), q)
    decreases |bits|
  {
    if bits == [] {
      q := [];
      assert forall e: int :: DividedAt(g, r, bits, r, q, e);
    } else {
      var init, b := bits[..|bits| - 1], bits[|bits| - 1];
      assert bits == init + [b];
      var q' := FeedDivides(taps, g, r, init);
      var r' := Feed(taps, r, init);
      q := q' + [r'[0] != b];
      FeedConcat(taps, r, init, [b]);
      assert Feed(taps, r, bits) == Step(taps, r', b);
      forall e: int ensures DividedAt(g, r, bits, Step(taps, r', b), q, e) {
        assert DividedAt(g, r, init, r', q', e - 1);
        StepDivides(taps, g, r', b, e);
        MsgLonger(init, b, e - |r|);
        ProductLonger(g, q', r'[0] != b, e);
      }
    }
  }

  // ------------------------------------------------------------------ the two polynomials

  lemma {:induction false} SpeltConcat(a: seq<bool>, b: seq<bool>)
    ensures Spelt(a + b) == Spelt(a) + Pow2(|a|) * Spelt(b)
  {
    if a == [] {
      assert a + b == b;
    } else {
      assert (a + b)[1..] == a[1..] + b;
      SpeltConcat(a[1..], b);
      Doubled(Pow2(|a| - 1), Spelt(a[1..]), Spelt(b));
    }
  }

  lemma Doubled(p: nat, x: nat, y: nat)
    ensures 2 * (x + p * y) == 2 * x + (2 * p) * y
  {}

  lemma SpeltOne(a: bool, rest: seq<bool>)
    ensures Spelt([a] + rest) == (if a then 1 else 0) + 2 * Spelt(rest)
  {
    assert ([a] + rest)[1..] == rest;
  }

  lemma SpeltFour(a: bool, b: bool, c: bool, d: bool)
    ensures Spelt([a, b, c, d]) == (if a then 1 else 0) + (if b then 2 else 0) + (if c then 4 else 0) + (if d then 8 else 0)
  {
    SpeltOne(d, []);
    SpeltOne(c, [d]);
    SpeltOne(b, [c, d]);
    SpeltOne(a, [b, c, d]);
    assert [a, b, c, d] == [a] + [b, c, d] && [b, c, d] == [b] + [c, d] && [c, d] == [c] + [d] && [d] == [d] + [];
  }

  lemma SpeltByte(a: seq<bool>, b: seq<bool>)
    requires |a| == |b| == 4
    ensures Spelt(a + b) == Spelt(a) + 16 * Spelt(b)
  {
    SpeltConcat(a, b);
    assert Pow2(4) == 16;
  }

  lemma SpeltBytes(a: seq<bool>, b: seq<bool>)
    requires |a| == 8
    ensures Spelt(a + b) == Spelt(a) + 0x100 * Spelt(b)
  {
    SpeltConcat(a, b);
    PowerValues();
  }

  const F: bool := false
  const T: bool := true

  /** Eight taps of a generator, the first of them that of x^top. */
  predicate TapsFrom(b: seq<bool>, top: nat, g: set<nat>) {
    |b| == 8 && top >= 7 && forall i | 0 <= i < 8 :: b[i] <==> (top - i) as nat in g
  }

  lemma PolyTaps16()
    ensures TapsOf(Taps(Crc16), Generator(Crc16))
  {
    var lo, hi := [T, F, F, F, F, F, F, F], [F, F, F, F, F, T, F, T];
    TapBytes16(lo, hi);
    Poly16(lo, hi);
    TapsSpelt(Crc16, lo + hi);
    TwoBytesOfTaps(lo, hi, Generator(Crc16));
  }

  lemma TapBytes16(lo: seq<bool>, hi: seq<bool>)
    requires lo == [T, F, F, F, F, F, F, F] && hi == [F, F, F, F, F, T, F, T]
    ensures TapsFrom(lo, 15, Generator(Crc16)) && TapsFrom(hi, 7, Generator(Crc16))
  {}

  lemma Poly16(lo: seq<bool>, hi: seq<bool>)
    requires lo == [T, F, F, F, F, F, F, F] && hi == [F, F, F, F, F, T, F, T]
    ensures Spelt(lo + hi) == 0xA001
  {
    SpeltEight(lo);
    SpeltEight(hi);
    SpeltBytes(lo, hi);
  }

  lemma TwoBytesOfTaps(lo: seq<bool>, hi: seq<bool>, g: set<nat>)
    requires TapsFrom(lo, 15, g) && TapsFrom(hi, 7, g) && 16 in g && forall e | e in g :: e <= 16
    ensures TapsOf(lo + hi, g)
  {
    forall i | 0 <= i < 16 ensures (lo + hi)[i] <==> (15 - i) as nat in g {
      if i < 8 { assert (lo + hi)[i] == lo[i]; } else { assert (lo + hi)[i] == hi[i - 8]; }
    }
  }

  lemma SpeltEight(b: seq<bool>)
    requires |b| == 8
    ensures Spelt(b) == (if b[0] then 1 else 0) + (if b[1] then 2 else 0) + (if b[2] then 4 else 0) + (if b[3] then 8 else 0)
                      + (if b[4] then 16 else 0) + (if b[5] then 32 else 0) + (if b[6] then 64 else 0) + (if b[7] then 128 else 0)
  {
    Nibbles(b);
    SpeltFour(b[0], b[1], b[2], b[3]);
    SpeltFour(b[4], b[5], b[6], b[7]);
    SpeltByte([b[0], b[1], b[2], b[3]], [b[4], b[5], b[6], b[7]]);
  }

  lemma Nibbles(b: seq<bool>)
    requires |b| == 8
    ensures b == [b[0], b[1], b[2], b[3]] + [b[4], b[5], b[6], b[7]]
  {}

  lemma TapsSpelt(c: Code, bits: seq<bool>)
    requires Spelt(bits) == Poly(c) && |bits| == Width(c)
    ensures Taps(c) == bits
  {
    BitsSpelt(bits);
  }

  lemma Poly32(b0: seq<bool>, b1: seq<bool>, b2: seq<bool>, b3: seq<bool>)
    requires b0 == [F, F, F, F, F, T, F, F] && b1 == [T, T, F, F, F, F, F, T]
    requires b2 == [F, F, F, T, T, T, F, T] && b3 == [T, F, T, T, F, T, T, T]
    ensures Spelt(b0 + (b1 + (b2 + b3))) == 0xEDB88320
  {
    SpeltEight(b0);
    SpeltEight(b1);
    SpeltEight(b2);
    SpeltEight(b3);
    SpeltBytes(b2, b3);
    SpeltBytes(b1, b2 + b3);
    SpeltBytes(b0, b1 + (b2 + b3));
  }

  lemma PolyTaps32()
    ensures TapsOf(Taps(Crc32), Generator(Crc32))
  {
    var b0, b1 := [F, F, F, F, F, T, F, F], [T, T, F, F, F, F, F, T];
    var b2, b3 := [F, F, F, T, T, T, F, T], [T, F, T, T, F, T, T, T];
    TapBytes32(b0, b1, b2, b3);
    Poly32(b0, b1, b2, b3);
    TapsSpelt(Crc32, b0 + (b1 + (b2 + b3)));
    FourBytesOfTaps(b0, b1, b2, b3, Generator(Crc32));
  }

  lemma TapBytes32(b0: seq<bool>, b1: seq<bool>, b2: seq<bool>, b3: seq<bool>)
    requires b0 == [F, F, F, F, F, T, F, F] && b1 == [T, T, F, F, F, F, F, T]
    requires b2 == [F, F, F, T, T, T, F, T] && b3 == [T, F, T, T, F, T, T, T]
    ensures TapsFrom(b0, 31, Generator(Crc32)) && TapsFrom(b1, 23, Generator(Crc32))
    ensures TapsFrom(b2, 15, Generator(Crc32)) && TapsFrom(b3, 7, Generator(Crc32))
  {}

  lemma FourBytesOfTaps(b0: seq<bool>, b1: seq<bool>, b2: seq<bool>, b3: seq<bool>, g: set<nat>)
    requires TapsFrom(b0, 31, g) && TapsFrom(b1, 23, g) && TapsFrom(b2, 15, g) && TapsFrom(b3, 7, g)
    requires 32 in g && forall e | e in g :: e <= 32
    ensures TapsOf(b0 + (b1 + (b2 + b3)), g)
  {
    var all := b0 + (b1 + (b2 + b3));
    forall i | 0 <= i < 32 ensures all[i] <==> (31 - i) as nat in g {
      if i < 8 { assert all[i] == b0[i]; }
      else if i < 16 { assert all[i] == b1[i - 8]; }
      else if i < 24 { assert all[i] == b2[i - 16]; }
      else { assert all[i] == b3[i - 24]; }
    }
  }

  lemma GeneratorTaps(c: Code)
    ensures TapsOf(Taps(c), Generator(c))
  {
    match c
    case Crc16 => PolyTaps16();
    case Crc32 => PolyTaps32();
  }

  // ------------------------------------------------------------------ the value

  lemma {:induction false} ComplementBits(s: nat, n: nat, i: nat)
    requires s < Pow2(n) && i < n
    ensures Bits(Pow2(n) - 1 - s, n)[i] != Bits(s, n)[i]
    decreases n
  {
    ComplementHalf(Pow2(n - 1), s);
    if i > 0 { ComplementBits(s / 2, n - 1, i - 1); }
  }

  lemma ComplementHalf(p: nat, s: nat)
    requires s < 2 * p
    ensures (2 * p - 1 - s) / 2 == p - 1 - s / 2 && ((2 * p - 1 - s) % 2 == 1) != (s % 2 == 1)
  {}

  lemma AllOnesBits(c: Code, i: nat)
    requires i < Width(c)
    ensures Reg(c, Size(c) - 1)[i]
  {
    SizeIsPow2(c);
    ComplementBits(0, Width(c), i);
    NoBits(Width(c), i);
  }

  lemma {:induction false} NoBits(n: nat, i: nat)
    requires i < n
    ensures !Bits(0, n)[i]
    decreases n
  {
    if i > 0 { NoBits(n - 1, i - 1); }
  }

  /** The coefficient of x^e in the value of a CRC, of which a CRC-32 is the complement. */
  predicate ValueAt(c: Code, v: nat, e: int) {
    0 <= e < Width(c) && (RegAt(Reg(c, v), e) != c.Crc32?)
  }

  /** The CRC of a message is its remainder: behind w ones in front of it, and times x^w, it is a
      multiple of the generator and the CRC, which is of a degree below the generator's. */
  lemma CrcIsRemainder(c: Code, data: seq<u8>) returns (q: seq<bool>)
    ensures 0 <= Value(c, data) < Size(c) && |q| == 8 * |data|
    ensures forall e: int ::
              ValueAt(c, Value(c, data), e)
              == (((0 <= e - 8 * |data| < Width(c)) != MsgAt(Stream(data), e - Width(c))) != ProductAt(Generator(c), q, e))
  {
    var ones := Reg(c, Size(c) - 1);
    var s := Bytes(c, Size(c) - 1, data);
    GeneratorTaps(c);
    BytesAreFeed(c, Size(c) - 1, data);
    q := FeedDivides(Taps(c), Generator(c), ones, Stream(data));
    forall e: int
      ensures ValueAt(c, Value(c, data), e)
           == (((0 <= e - 8 * |data| < Width(c)) != MsgAt(Stream(data), e - Width(c))) != ProductAt(Generator(c), q, e))
    {
      assert DividedAt(Generator(c), ones, Stream(data), Reg(c, s), q, e);
      OnesAt(c, e - 8 * |data|);
      ValueIsRegister(c, data, s, e);
    }
  }

  lemma OnesAt(c: Code, e: int)
    ensures RegAt(Reg(c, Size(c) - 1), e) == (0 <= e < Width(c))
  {
    if 0 <= e < Width(c) { AllOnesBits(c, Width(c) - 1 - e); }
  }

  lemma ValueIsRegister(c: Code, data: seq<u8>, s: nat, e: int)
    requires s == Bytes(c, Size(c) - 1, data) && s < Size(c)
    ensures 0 <= Value(c, data) < Size(c) && ValueAt(c, Value(c, data), e) == RegAt(Reg(c, s), e)
  {
    SizeIsPow2(c);
    if c.Crc32? && 0 <= e < 32 { Complement32(s, 31 - e); }
  }

  lemma Complement32(s: nat, i: nat)
    requires s < Size(Crc32) && i < 32
    ensures Reg(Crc32, Size(Crc32) - 1 - s)[i] != Reg(Crc32, s)[i]
  {
    SizeIsPow2(Crc32);
    ComplementBits(s, 32, i);
  }
}

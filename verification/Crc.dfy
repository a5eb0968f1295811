/** The two bitwise CRCs over a firmware image (utils/fwinfo.c). The proofs see a register as
    its sequence of bits, least significant first, and a message as one bit stream, least
    significant bit of each byte first. */
module Crc {
  import opened Machine

  datatype Code = Crc16 | Crc32

  function Poly(c: Code): nat {
    match c
    case Crc16 => 0xA001
    case Crc32 => 0xEDB88320
  }

  function Width(c: Code): nat {
    match c
    case Crc16 => 16
    case Crc32 => 32
  }

  function Size(c: Code): nat {
    match c
    case Crc16 => 0x1_0000
    case Crc32 => 0x1_0000_0000
  }

  /** One turn of the inner loop. */
  function Shift(c: Code, s: nat): nat {
    if s % 2 == 1 then Xor(s / 2, Poly(c)) else s / 2
  }

  function Shifts(c: Code, s: nat, n: nat): nat
    decreases n
  {
    if n == 0 then s else Shifts(c, Shift(c, s), n - 1)
  }

  /** The register after the bytes of data entered it one by one. */
  function Bytes(c: Code, s: nat, data: seq<u8>): nat
    decreases |data|
  {
    if data == [] then s else Bytes(c, Shifts(c, Xor(s, data[0] as nat), 8), data[1..])
  }

  /** The value hgic_crc16 or hgic_crc32 returns: CRC-32 complements its register. */
  function Value(c: Code, data: seq<u8>): int {
    var s := Bytes(c, Size(c) - 1, data);
    if c.Crc32? then Size(c) - 1 - s else s
  }

  // ------------------------------------------------------------------ the two loops

  method Crc16Of(data: seq<u8>) returns (crc: u16)
    ensures crc == Value(Crc16, data)
  {
    crc := 0xFFFF;
    var k := 0;
    while k < |data|
      invariant 0 <= k <= |data|
      invariant Value(Crc16, data) == Bytes(Crc16, crc, data[k..])
    {
      ByteStepFits(Crc16, crc, data[k]);
      ghost var s := Xor(crc, data[k] as nat);
      crc := Xor(crc, data[k] as nat);
      var i := 0;
      while i < 8
        invariant 0 <= i <= 8
        invariant Shifts(Crc16, s, 8) == Shifts(Crc16, crc, 8 - i)
      {
        ShiftFits(Crc16, crc);
        if crc % 2 == 1 { crc := Xor(crc / 2, 0xA001); } else { crc := crc / 2; }
        i := i + 1;
      }
      assert data[k..][1..] == data[k + 1..];
      k := k + 1;
    }
  }

  method Crc32Of(data: seq<u8>) returns (crc: u32)
    ensures crc == Value(Crc32, data)
  {
    crc := 0xFFFF_FFFF;
    var k := 0;
    while k < |data|
      invariant 0 <= k <= |data|
      invariant Bytes(Crc32, 0xFFFF_FFFF, data) == Bytes(Crc32, crc, data[k..])
    {
      ByteStepFits(Crc32, crc, data[k]);
      ghost var s := Xor(crc, data[k] as nat);
      crc := Xor(crc, data[k] as nat);
      var i := 0;
      while i < 8
        invariant 0 <= i <= 8
        invariant Shifts(Crc32, s, 8) == Shifts(Crc32, crc, 8 - i)
      {
        ShiftFits(Crc32, crc);
        if crc % 2 == 1 { crc := Xor(crc / 2, 0xEDB88320); } else { crc := crc / 2; }
        i := i + 1;
      }
      assert data[k..][1..] == data[k + 1..];
      k := k + 1;
    }
    crc := 0xFFFF_FFFF - crc;
  }

  lemma SizeIsPow2(c: Code)
    ensures Size(c) == Pow2(Width(c))
    ensures Pow2(8) == 256
  {
    PowerValues();
  }

  lemma XorStays(c: Code, a: nat, b: nat)
    requires a < Size(c) && b < Size(c)
    ensures Xor(a, b) < Size(c)
  {
    SizeIsPow2(c);
    XorFits(a, b, Width(c));
  }

  lemma ShiftFits(c: Code, s: nat)
    requires s < Size(c)
    ensures Shift(c, s) < Size(c)
  {
    XorStays(c, s / 2, Poly(c));
  }

  lemma ByteStepFits(c: Code, s: nat, b: u8)
    requires s < Size(c)
    ensures Xor(s, b as nat) < Size(c)
  {
    XorStays(c, s, b as nat);
  }

  lemma {:induction false} ShiftsFit(c: Code, s: nat, n: nat)
    requires s < Size(c)
    ensures Shifts(c, s, n) < Size(c)
    decreases n
  {
    if n > 0 {
      ShiftFits(c, s);
      ShiftsFit(c, Shift(c, s), n - 1);
    }
  }

  // ------------------------------------------------------------------ registers as bits

  type Register = seq<bool>

  /** The bits of the register, and of its feedback polynomial. */
  function Reg(c: Code, s: nat): Register {
    Bits(s, Width(c))
  }

  function Taps(c: Code): Register {
    Reg(c, Poly(c))
  }

  /** The register after one more input bit. */
  function Step(taps: Register, r: Register, e: bool): (r': Register)
    requires |r| == |taps|
    ensures |r'| == |r|
  {
    seq(|r|, i requires 0 <= i < |r| =>
      (i + 1 < |r| && r[i + 1]) != ((r[0] != e) && taps[i]))
  }

  /** The register after a stream of bits. */
  function Feed(taps: Register, r: Register, bits: seq<bool>): (r': Register)
    requires |r| == |taps|
    ensures |r'| == |r|
    decreases |bits|
  {
    if bits == [] then r else Feed(taps, Step(taps, r, bits[0]), bits[1..])
  }

  function ByteBits(b: u8): (bits: seq<bool>)
    ensures |bits| == 8
  {
    Bits(b as nat, 8)
  }

  function Stream(data: seq<u8>): (bits: seq<bool>)
    ensures |bits| == 8 * |data|
  {
    if data == [] then [] else ByteBits(data[0]) + Stream(data[1..])
  }

  /** r with bits added, exclusive or, at its low end: what entering a whole byte does. */
  function Enter(r: Register, bits: seq<bool>): (r': Register)
    requires |bits| <= |r|
    ensures |r'| == |r|
  {
    seq(|r|, i requires 0 <= i < |r| => r[i] != (i < |bits| && bits[i]))
  }

  lemma ShiftIsStep(c: Code, s: nat)
    requires s < Size(c)
    ensures Reg(c, Shift(c, s)) == Step(Taps(c), Reg(c, s), false)
  {
    var w, p := Width(c), Poly(c);
    SizeIsPow2(c);
    BitsHalf(s, w);
    forall i | 0 <= i < w
      ensures Bits(Shift(c, s), w)[i] == Step(Bits(p, w), Bits(s, w), false)[i]
    {
      BitsOfXor(s / 2, p, w, i);
    }
  }

  lemma ByteEnters(c: Code, s: nat, b: u8)
    requires s < Size(c)
    ensures Reg(c, Xor(s, b as nat)) == Enter(Reg(c, s), ByteBits(b))
  {
    var w := Width(c);
    SizeIsPow2(c);
    forall i | 0 <= i < w
      ensures Reg(c, Xor(s, b as nat))[i] == Enter(Reg(c, s), ByteBits(b))[i]
    {
      BitsOfXor(s, b as nat, w, i);
      if i < 8 { BitsPrefix(b as nat, w, 8, i); } else { BitsBeyond(b as nat, 8, w, i); }
    }
  }

  lemma EnterStep(taps: Register, r: Register, bits: seq<bool>)
    requires |r| == |taps| && 0 < |bits| <= |r|
    ensures Step(taps, Enter(r, bits), false) == Enter(Step(taps, r, bits[0]), bits[1..])
  {}

  /** Entering a byte whole and shifting eight times is feeding its bits one at a time. */
  lemma {:induction false} ShiftsAreFeed(c: Code, s: nat, r: Register, bits: seq<bool>)
    requires s < Size(c) && |r| == Width(c) && |bits| <= |r|
    requires Reg(c, s) == Enter(r, bits)
    ensures Reg(c, Shifts(c, s, |bits|)) == Feed(Taps(c), r, bits)
    decreases |bits|
  {
    if bits == [] {
      assert Enter(r, bits) == r;
    } else {
      ShiftEnters(c, s, r, bits);
      ShiftsAreFeed(c, Shift(c, s), Step(Taps(c), r, bits[0]), bits[1..]);
    }
  }

  lemma ShiftEnters(c: Code, s: nat, r: Register, bits: seq<bool>)
    requires s < Size(c) && |r| == Width(c) && 0 < |bits| <= |r|
    requires Reg(c, s) == Enter(r, bits)
    ensures Shift(c, s) < Size(c)
    ensures Reg(c, Shift(c, s)) == Enter(Step(Taps(c), r, bits[0]), bits[1..])
  {
    ShiftIsStep(c, s);
    ShiftFits(c, s);
    EnterStep(Taps(c), r, bits);
  }

  lemma {:induction false} FeedConcat(taps: Register, r: Register, a: seq<bool>, b: seq<bool>)
    requires |r| == |taps|
    ensures Feed(taps, r, a + b) == Feed(taps, Feed(taps, r, a), b)
    decreases |a|
  {
    if a == [] {
      assert a + b == b;
    } else {
      assert (a + b)[1..] == a[1..] + b;
      FeedConcat(taps, Step(taps, r, a[0]), a[1..], b);
    }
  }

  /** The byte loop is the bit-serial CRC over the message's bit stream. */
  lemma {:induction false} BytesAreFeed(c: Code, s: nat, data: seq<u8>)
    requires s < Size(c)
    ensures Bytes(c, s, data) < Size(c)
    ensures Reg(c, Bytes(c, s, data)) == Feed(Taps(c), Reg(c, s), Stream(data))
    decreases |data|
  {
    if data != [] {
      var x := Xor(s, data[0] as nat);
      ByteStepFits(c, s, data[0]);
      ShiftsFit(c, x, 8);
      ByteEnters(c, s, data[0]);
      ShiftsAreFeed(c, x, Reg(c, s), ByteBits(data[0]));
      BytesAreFeed(c, Shifts(c, x, 8), data[1..]);
      FeedConcat(Taps(c), Reg(c, s), ByteBits(data[0]), Stream(data[1..]));
    }
  }

  // ------------------------------------------------------------------ burst errors

  /** The registers agree at position n and above. */
  predicate AgreeAbove(r: Register, q: Register, n: nat) {
    |r| == |q| && forall i | n <= i < |r| :: r[i] == q[i]
  }

  lemma TapsTop(c: Code)
    ensures Taps(c)[Width(c) - 1]
  {
    SizeIsPow2(c);
    BitsTop(Poly(c), Width(c));
  }

  /** Registers that agree above position n after one bit saw the same feedback, so they agreed
      above position n + 1 before it. */
  lemma StepBack(taps: Register, r: Register, q: Register, e: bool, f: bool, n: nat)
    requires |r| == |q| == |taps| > n && taps[|taps| - 1]
    requires AgreeAbove(Step(taps, r, e), Step(taps, q, f), n)
    ensures AgreeAbove(r, q, n + 1)
    ensures (r[0] != e) == (q[0] != f)
  {
    var w := |taps|;
    assert Step(taps, r, e)[w - 1] == Step(taps, q, f)[w - 1];
    forall i | n + 1 <= i < w
      ensures r[i] == q[i]
    {
      assert Step(taps, r, e)[i - 1] == Step(taps, q, f)[i - 1];
    }
  }

  /** Registers that agree after n equally many bits, n within the width, differed only in
      their low n positions before; if they were equal, so were the bits. */
  lemma {:induction false} Window(taps: Register, r: Register, q: Register, a: seq<bool>, b: seq<bool>)
    requires |r| == |q| == |taps| > 0 && taps[|taps| - 1]
    requires |a| == |b| <= |taps| && Feed(taps, r, a) == Feed(taps, q, b)
    ensures AgreeAbove(r, q, |a|)
    ensures r == q ==> a == b
    decreases |a|
  {
    if a != [] {
      Window(taps, Step(taps, r, a[0]), Step(taps, q, b[0]), a[1..], b[1..]);
      StepBack(taps, r, q, a[0], b[0], |a| - 1);
      assert a == [a[0]] + a[1..] && b == [b[0]] + b[1..];
    }
  }

  /** The same further bits never bring two different registers together. */
  lemma {:induction false} FeedInjective(taps: Register, r: Register, q: Register, bits: seq<bool>)
    requires |r| == |q| == |taps| > 0 && taps[|taps| - 1]
    requires Feed(taps, r, bits) == Feed(taps, q, bits)
    ensures r == q
    decreases |bits|
  {
    if bits != [] {
      FeedInjective(taps, Step(taps, r, bits[0]), Step(taps, q, bits[0]), bits[1..]);
      StepBack(taps, r, q, bits[0], bits[0], 0);
      assert r[0] == q[0];
    }
  }

  /** Two messages of one length whose bit streams differ, and differ only inside a window no
      wider than the register, never have the same CRC: every burst of up to 32 bits (16 for
      CRC-16), at any bit position, is detected. */
  lemma BurstDetected(c: Code, x: seq<u8>, y: seq<u8>,
                      before: seq<bool>, a: seq<bool>, b: seq<bool>, after: seq<bool>)
    requires Stream(x) == before + a + after && Stream(y) == before + b + after
    requires |a| == |b| <= Width(c) && a != b
    ensures Value(c, x) != Value(c, y)
  {
    BurstFrom(c, Size(c) - 1, x, y, before, a, b, after);
    if Value(c, x) == Value(c, y) { SameRegister(c, x, y); }
  }

  /** Whatever the register begins with. */
  lemma BurstFrom(c: Code, s: nat, x: seq<u8>, y: seq<u8>,
                  before: seq<bool>, a: seq<bool>, b: seq<bool>, after: seq<bool>)
    requires s < Size(c)
    requires Stream(x) == before + a + after && Stream(y) == before + b + after
    requires |a| == |b| <= Width(c) && a != b
    ensures Bytes(c, s, x) != Bytes(c, s, y)
  {
    BytesAreFeed(c, s, x);
    BytesAreFeed(c, s, y);
    TapsTop(c);
    BurstInRegister(Taps(c), Reg(c, s), before, a, b, after);
  }

  lemma SameRegister(c: Code, x: seq<u8>, y: seq<u8>)
    requires Value(c, x) == Value(c, y)
    ensures Bytes(c, Size(c) - 1, x) == Bytes(c, Size(c) - 1, y)
  {}

  lemma BurstInRegister(taps: Register, start: Register, before: seq<bool>,
                        a: seq<bool>, b: seq<bool>, after: seq<bool>)
    requires |start| == |taps| > 0 && taps[|taps| - 1]
    requires |a| == |b| <= |taps| && a != b
    ensures Feed(taps, start, before + a + after) != Feed(taps, start, before + b + after)
  {
    var r := Feed(taps, start, before);
    FeedConcat(taps, start, before + a, after);
    FeedConcat(taps, start, before + b, after);
    FeedConcat(taps, start, before, a);
    FeedConcat(taps, start, before, b);
    if Feed(taps, Feed(taps, r, a), after) == Feed(taps, Feed(taps, r, b), after) {
      FeedInjective(taps, Feed(taps, r, a), Feed(taps, r, b), after);
      Window(taps, r, r, a, b);
      assert false;
    }
  }

  lemma {:induction false} StreamConcat(x: seq<u8>, y: seq<u8>)
    ensures Stream(x + y) == Stream(x) + Stream(y)
  {
    if x == [] {
      assert x + y == y;
    } else {
      assert (x + y)[1..] == x[1..] + y;
      StreamConcat(x[1..], y);
    }
  }

  lemma {:induction false} StreamInjective(x: seq<u8>, y: seq<u8>)
    requires |x| == |y| && Stream(x) == Stream(y)
    ensures x == y
  {
    if x != [] {
      assert ByteBits(x[0]) == Stream(x)[..8] == Stream(y)[..8] == ByteBits(y[0]);
      SizeIsPow2(Crc16);
      BitsInjective(x[0] as nat, y[0] as nat, 8);
      assert Stream(x[1..]) == Stream(x)[8..] == Stream(y)[8..] == Stream(y[1..]);
      StreamInjective(x[1..], y[1..]);
    }
  }

  /** The same for whole bytes: at most four (two) consecutive bytes changed. */
  lemma ByteBurstDetected(c: Code, before: seq<u8>, a: seq<u8>, b: seq<u8>, after: seq<u8>)
    requires |a| == |b| && 8 * |a| <= Width(c) && a != b
    ensures Value(c, before + a + after) != Value(c, before + b + after)
  {
    StreamConcat(before + a, after);
    StreamConcat(before + b, after);
    StreamConcat(before, a);
    StreamConcat(before, b);
    if Stream(a) == Stream(b) { StreamInjective(a, b); }
    BurstDetected(c, before + a + after, before + b + after,
                  Stream(before), Stream(a), Stream(b), Stream(after));
  }

  // ------------------------------------------------------------------ every value is reached

  /** The register before the bit e that led to t: its feedback was the top bit of t. */
  function Undo(taps: Register, t: Register, e: bool): (p: Register)
    requires |t| == |taps| > 0
    ensures |p| == |t|
  {
    var fed := t[|t| - 1];
    seq(|t|, i requires 0 <= i < |t| => if i == 0 then fed != e else t[i - 1] != (fed && taps[i - 1]))
  }

  lemma StepOfUndo(taps: Register, t: Register, e: bool)
    requires |t| == |taps| > 0 && taps[|taps| - 1]
    ensures Step(taps, Undo(taps, t, e), e) == t
  {
    var p := Undo(taps, t, e);
    forall i | 0 <= i < |t|
      ensures Step(taps, p, e)[i] == t[i]
    {
      if i + 1 < |t| { assert p[i + 1] == (t[i] != (t[|t| - 1] && taps[i])); }
    }
  }

  lemma FeedEnd(taps: Register, r: Register, bits: seq<bool>, e: bool)
    requires |r| == |taps|
    ensures Feed(taps, r, bits + [e]) == Step(taps, Feed(taps, r, bits), e)
  {
    FeedConcat(taps, r, bits, [e]);
    assert [e][1..] == [];
    assert Feed(taps, Feed(taps, r, bits), [e]) == Feed(taps, Step(taps, Feed(taps, r, bits), e), []);
  }

  /** Before any bits there is a register that they lead to t. */
  lemma {:induction false} FeedBack(taps: Register, t: Register, bits: seq<bool>) returns (p: Register)
    requires |t| == |taps| > 0 && taps[|taps| - 1]
    ensures |p| == |t| && Feed(taps, p, bits) == t
    decreases |bits|
  {
    if bits == [] {
      p := t;
    } else {
      var front, last := bits[..|bits| - 1], bits[|bits| - 1];
      p := FeedBack(taps, Undo(taps, t, last), front);
      StepOfUndo(taps, t, last);
      FeedEnd(taps, p, front, last);
      assert bits == front + [last];
    }
  }

  /** From any register, n bits can be found that set its top n positions as in t. */
  lemma {:induction false} TopReached(taps: Register, r: Register, t: Register, n: nat) returns (a: seq<bool>)
    requires |r| == |t| == |taps| > 0 && taps[|taps| - 1] && n <= |taps|
    ensures |a| == n && AgreeAbove(Feed(taps, r, a), t, |taps| - n)
    decreases n
  {
    if n == 0 {
      a := [];
    } else {
      var w := |taps|;
      var front := TopReached(taps, r, Undo(taps, t, false), n - 1);
      var q := Feed(taps, r, front);
      var e := q[0] != t[w - 1];
      a := front + [e];
      FeedEnd(taps, r, front, e);
      forall i | w - n <= i < w
        ensures Step(taps, q, e)[i] == t[i]
      {
        if i + 1 < w { assert q[i + 1] == Undo(taps, t, false)[i + 1]; }
      }
    }
  }

  /** So as many bits as the register is wide lead from any register to any other. */
  lemma WindowReaches(taps: Register, r: Register, t: Register) returns (a: seq<bool>)
    requires |r| == |t| == |taps| > 0 && taps[|taps| - 1]
    ensures |a| == |taps| && Feed(taps, r, a) == t
  {
    a := TopReached(taps, r, t, |taps|);
    assert forall i | 0 <= i < |t| :: Feed(taps, r, a)[i] == t[i];
  }

  /** The number with these bits, least significant first. */
  function Spelt(bits: seq<bool>): nat {
    if bits == [] then 0 else (if bits[0] then 1 else 0) + 2 * Spelt(bits[1..])
  }

  lemma {:induction false} BitsSpelt(bits: seq<bool>)
    ensures Bits(Spelt(bits), |bits|) == bits && Spelt(bits) < Pow2(|bits|)
  {
    if bits != [] {
      BitsSpelt(bits[1..]);
      assert Spelt(bits) / 2 == Spelt(bits[1..]);
    }
  }

  lemma {:induction false} StreamOfBits(bits: seq<bool>) returns (y: seq<u8>)
    requires |bits| % 8 == 0
    ensures Stream(y) == bits
    decreases |bits|
  {
    if bits == [] {
      y := [];
    } else {
      var more := StreamOfBits(bits[8..]);
      var b := OneByteOfBits(bits[..8]);
      y := [b] + more;
      assert bits == bits[..8] + bits[8..];
    }
  }

  lemma OneByteOfBits(bits: seq<bool>) returns (b: u8)
    requires |bits| == 8
    ensures ByteBits(b) == bits
  {
    BitsSpelt(bits);
    PowerValues();
    b := Spelt(bits) as u8;
  }

  lemma ValueFits(c: Code, data: seq<u8>)
    ensures 0 <= Value(c, data) < Size(c)
  {
    BytesAreFeed(c, Size(c) - 1, data);
  }

  /** Before and behind any window as wide as the register, exactly one content of the window gives a
      message a chosen value. */
  lemma AnyValueReached(c: Code, x: seq<u8>, before: seq<bool>, a: seq<bool>, after: seq<bool>, v: nat)
      returns (y: seq<u8>, b: seq<bool>)
    requires Stream(x) == before + a + after && |a| == Width(c) && v < Size(c)
    ensures |b| == |a| && |y| == |x| && Stream(y) == before + b + after && Value(c, y) == v
    ensures forall z: seq<u8>, d: seq<bool> | |d| == |a| && Stream(z) == before + d + after && Value(c, z) == v :: d == b
  {
    var s: nat := if c.Crc32? then Size(c) - 1 - v else v;
    b := RegisterReached(c, before, after, s);
    y := StreamOfBits(before + b + after);
    SameLength(x, y, before, a, b, after);
    RegisterIsValue(c, y, s, v);
    forall z: seq<u8>, d: seq<bool> | |d| == |a| && Stream(z) == before + d + after && Value(c, z) == v
      ensures d == b
    {
      if d != b { BurstDetected(c, z, y, before, d, b, after); }
    }
  }

  lemma RegisterReached(c: Code, before: seq<bool>, after: seq<bool>, s: nat) returns (b: seq<bool>)
    requires s < Size(c)
    ensures |b| == Width(c) && Feed(Taps(c), Reg(c, Size(c) - 1), before + b + after) == Reg(c, s)
  {
    var taps, start := Taps(c), Reg(c, Size(c) - 1);
    TapsTop(c);
    var r := Feed(taps, start, before);
    var t := FeedBack(taps, Reg(c, s), after);
    b := WindowReaches(taps, r, t);
    FeedConcat(taps, start, before, b);
    FeedConcat(taps, start, before + b, after);
  }

  lemma SameLength(x: seq<u8>, y: seq<u8>, before: seq<bool>, a: seq<bool>, b: seq<bool>, after: seq<bool>)
    requires Stream(x) == before + a + after && Stream(y) == before + b + after && |a| == |b|
    ensures |x| == |y|
  {
    assert 8 * |x| == 8 * |y|;
  }

  lemma RegisterIsValue(c: Code, y: seq<u8>, s: nat, v: nat)
    requires s < Size(c) && v < Size(c) && s == (if c.Crc32? then Size(c) - 1 - v else v)
    requires Feed(Taps(c), Reg(c, Size(c) - 1), Stream(y)) == Reg(c, s)
    ensures Value(c, y) == v
  {
    BytesAreFeed(c, Size(c) - 1, y);
    SizeIsPow2(c);
    BitsInjective(Bytes(c, Size(c) - 1, y), s, Width(c));
  }

  // ------------------------------------------------------------------ the table-driven form

  /** One step of the CRC of section 8 of RFC 1952: look the low byte up in a table whose entry n
      is n shifted eight times, and move the register down by a byte. */
  function TableStep(c: Code, s: nat, b: u8): nat {
    var x := Xor(s, b as nat);
    Xor(Shifts(c, x % 256, 8), s / 256)
  }

  function TableBytes(c: Code, s: nat, data: seq<u8>): nat
    decreases |data|
  {
    if data == [] then s else TableBytes(c, TableStep(c, s, data[0]), data[1..])
  }

  lemma ShiftLinear(c: Code, a: nat, b: nat)
    ensures Shift(c, Xor(a, b)) == Xor(Shift(c, a), Shift(c, b))
  {
    var p, x, y := Poly(c), a / 2, b / 2;
    XorHalf(a, b);
    XorAssoc(x, y, p);
    XorAssoc(x, p, y);
    XorComm(p, y);
    XorAssoc(x, p, Xor(y, p));
    XorAssoc(p, p, y);
    XorAssoc(p, y, p);
    XorComm(y, 0);
    XorSelf(p);
    XorSelf(y);
    XorAssoc(p, Xor(y, p), 0);
  }

  lemma {:induction false} ShiftsLinear(c: Code, a: nat, b: nat, n: nat)
    ensures Shifts(c, Xor(a, b), n) == Xor(Shifts(c, a, n), Shifts(c, b, n))
    decreases n
  {
    if n > 0 {
      ShiftLinear(c, a, b);
      ShiftsLinear(c, Shift(c, a), Shift(c, b), n - 1);
    }
  }

  lemma {:induction false} ShiftsOfUp(c: Code, a: nat, n: nat)
    ensures Shifts(c, Up(a, n), n) == a
    decreases n
  {
    if n > 0 { ShiftsOfUp(c, a, n - 1); }
  }

  lemma TableStepIsByteStep(c: Code, s: nat, b: u8)
    ensures Shifts(c, Xor(s, b as nat), 8) == TableStep(c, s, b)
  {
    var x := Xor(s, b as nat);
    OneByte(x);
    XorSplit(x, 8);
    ShiftsLinear(c, Up(x / 256, 8), x % 256, 8);
    ShiftsOfUp(c, x / 256, 8);
    XorComm(x / 256, Shifts(c, x % 256, 8));
    DownXor(s, b as nat, 8);
    OneByte(s);
    OneByte(b as nat);
    XorSelf(s / 256);
  }

  /** hgic_crc32 is the CRC-32 of RFC 1952: bit by bit or through the table, the same value. */
  lemma {:induction false} BitwiseIsTableDriven(c: Code, s: nat, data: seq<u8>)
    ensures Bytes(c, s, data) == TableBytes(c, s, data)
    decreases |data|
  {
    if data != [] {
      TableStepIsByteStep(c, s, data[0]);
      BitwiseIsTableDriven(c, TableStep(c, s, data[0]), data[1..]);
    }
  }
}

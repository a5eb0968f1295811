/** Decoding command responses and write responses bit by bit (mmc_spi_response_get and
    mmc_spi_writeblock, utils/mmc_spi.c), after sections 7.3.2 and 7.3.3.1 of the SD Physical
    Layer Simplified Specification 2.00. */
module SpiResponse {
  import opened Basics
  import opened Machine
  import opened Serial
  import opened SpiRead

  datatype Kind = R1 | R2 | R3 | Other

  /** The number spelt by n bits of the stream from position z. */
  function Field(bits: seq<bool>, z: nat, n: nat): nat
    requires z + n <= |bits|
  {
    Number(bits[z..z + n])
  }

  /** The error a status byte reports: the bits are those of the R1 status byte. */
  function StatusError(r1: nat): int {
    if r1 / 0x20 % 2 == 1 || r1 / 0x40 % 2 == 1 then -EFAULT        // address, parameter
    else if r1 / 4 % 2 == 1 then -ENOSYS                            // illegal command
    else if r1 / 8 % 2 == 1 then -EILSEQ                            // CRC
    else if r1 / 2 % 2 == 1 || r1 / 0x10 % 2 == 1 then -EIO         // erase reset, erase sequence
    else 0
  }

  // ------------------------------------------------------------------ command responses

  function FirstNotOnes(rx: seq<u8>): (f: nat)
    ensures f <= |rx| && (forall i | 0 <= i < f :: rx[i] == 0xFF) && (f < |rx| ==> rx[f] != 0xFF)
  {
    if rx == [] || rx[0] != 0xFF then 0 else 1 + FirstNotOnes(rx[1..])
  }

  /** A byte that is not all ones comes in the buffer or within fourteen further reads. */
  predicate Found(buf: seq<u8>, more: seq<u8>) {
    var f := FirstNotOnes(buf + more);
    f < |buf + more| && f < |buf| + 14
  }

  function Extra(kind: Kind): nat {
    match kind
    case R2 => 1
    case R3 => 4
    case _ => 0
  }

  /** The number of bytes read when the response starts at bit z. */
  function BytesUsed(z: nat, kind: Kind): nat {
    (z + 15) / 8 + Extra(kind)
  }

  /** What a response starting at bit z of the stream decodes to. */
  predicate Decodes(bits: seq<bool>, z: nat, kind: Kind, resp0: nat, resp1: nat)
    requires z + 8 + 8 * Extra(kind) <= |bits|
  {
    match kind
    case R2 => resp0 == Field(bits, z, 8) + 0x100 * Field(bits, z + 8, 8)
    case R3 => resp0 == Field(bits, z, 8) && resp1 == Field(bits, z + 8, 32)
    case _ => resp0 == Field(bits, z, 8)
  }

  lemma FirstZeroInByte(rx: seq<u8>, f: nat)
    requires f < |rx| && rx[f] != 0xFF && forall i | 0 <= i < f :: rx[i] == 0xFF
    ensures FirstZero(Wire(rx[f] as nat, 8)) < 8
    ensures FirstZero(WireBytes(rx)) == 8 * f + FirstZero(Wire(rx[f] as nat, 8))
  {
    TokenHasZero(rx[f]);
    var b := Wire(rx[f] as nat, 8);
    var rest := WireAround(rx, f, b);
    OnesOnWire(rx[..f]);
    ZeroBehindOnes(WireBytes(rx[..f]), b, rest);
  }

  lemma WireAround(rx: seq<u8>, f: nat, b: seq<bool>) returns (rest: seq<bool>)
    requires f < |rx| && b == Wire(rx[f] as nat, 8)
    ensures WireBytes(rx) == WireBytes(rx[..f]) + b + rest
  {
    rest := WireBytes(rx[f + 1..]);
    assert rx == rx[..f + 1] + rx[f + 1..] && rx[..f + 1] == rx[..f] + [rx[f]];
    WireBytesEnd(rx[..f], rx[f]);
    WireBytesJoin(rx[..f + 1], rx[f + 1..]);
  }

  lemma ZeroBehindOnes(p: seq<bool>, b: seq<bool>, rest: seq<bool>)
    requires (forall i | 0 <= i < |p| :: p[i]) && FirstZero(b) < |b|
    ensures FirstZero(p + b + rest) == |p| + FirstZero(b)
  {
    FirstZeroIs(p + b + rest, |p| + FirstZero(b));
  }

  lemma {:induction false} OnesOnWire(x: seq<u8>)
    requires forall i | 0 <= i < |x| :: x[i] == 0xFF
    ensures forall i | 0 <= i < 8 * |x| :: WireBytes(x)[i]
    decreases |x|
  {
    if x != [] {
      var n := |x| - 1;
      OnesOnWire(x[..n]);
      assert WireBytes(x) == WireBytes(x[..n]) + Wire(x[n] as nat, 8);
      assert forall r: nat | r < 8 :: Wire(255, 8)[r] by {
        forall r: nat | r < 8 ensures Wire(255, 8)[r] { AllOnes(r); }
      }
    }
  }

  lemma AllOnes(r: nat)
    requires r < 8
    ensures Wire(255, 8)[r]
  {
    WireBit(255, 8, r);
    DownOnes(255, 8, 7 - r);
  }

  lemma {:induction false} DownOnes(a: nat, n: nat, m: nat)
    requires m < n && a == Pow2(n) - 1
    ensures Down(a, m) % 2 == 1
  {
    if m > 0 { DownOnes(a / 2, n - 1, m - 1); }
  }
  /** The first two bytes as they are shifted left until the top bit is zero. */
  method Unrotate(b0: u8, b1: u8) returns (bitshift: nat, rotator: u16)
    requires b0 != 0xFF
    ensures bitshift == FirstZero(Wire(b0 as nat, 8)) < 8
    ensures rotator == Half(Up(b0 as nat * 0x100 + b1 as nat, bitshift))
  {
    var w := b0 as nat * 0x100 + b1 as nat;
    ghost var bits := Wire(b0 as nat, 8);
    TokenHasZero(b0);
    rotator := w;
    bitshift := 0;
    TopOfPair(b0, b1, 0);
    while TopSet16(rotator)
      invariant bitshift <= FirstZero(bits) && rotator == Half(Up(w, bitshift))
      invariant TopSet16(rotator) <==> bits[bitshift]
      decreases 8 - bitshift
    {
      ShiftOut16(Up(w, bitshift));
      rotator := Half(rotator * 2);
      bitshift := bitshift + 1;
      TopOfPair(b0, b1, bitshift);
    }
  }

  predicate TopSet16(rotator: nat) {
    rotator / 0x8000 == 1
  }

  lemma ShiftOut16(u: nat)
    ensures Half(Half(u) * 2) == Half(2 * u)
  {
    LowShift(u, 16);
    LowHalf(u);
    LowHalf(2 * u);
    LowHalf(2 * Low(u, 16));
  }

  lemma TopOfPair(b0: u8, b1: u8, i: nat)
    requires i < 8
    ensures TopSet16(Half(Up(b0 as nat * 0x100 + b1 as nat, i))) <==> Wire(b0 as nat, 8)[i]
  {
    var w := b0 as nat * 0x100 + b1 as nat;
    LowHalf(Up(w, i));
    ShiftedTop(w, 16, i);
    PairOnWire(b0, b1);
    TopIsFirst16(Half(Up(w, i)));
  }

  lemma TopIsFirst16(x: u16)
    ensures TopSet16(x) <==> Wire(x, 16)[0]
  {
    WireBit(x, 16, 0);
    DownFifteen(x);
  }

  lemma DownFifteen(a: nat)
    ensures Down(a, 15) == a / 0x8000
  {
    PowerValues();
    PowAdd(8, 7);
    DownIsDiv(a, 15);
  }

  /** What the shifted pair holds: in its high byte the eight bits from the first zero bit on ... */
  lemma PairHigh(b0: u8, b1: u8, j: nat)
    requires j < 8
    ensures Half(Up(b0 as nat * 0x100 + b1 as nat, j)) / 0x100
         == Number((Wire(b0 as nat, 8) + Wire(b1 as nat, 8))[j..j + 8])
  {
    var w := b0 as nat * 0x100 + b1 as nat;
    var r := Half(Up(w, j));
    PairOnWire(b0, b1);
    LowHalf(Up(w, j));
    ShiftedBits(w, 16, j);
    HighByte(r);
    assert Wire(w, 16)[j..j + 8] == Wire(r, 16)[..8];
  }

  lemma PairOnWire(b0: u8, b1: u8)
    ensures Wire(b0 as nat * 0x100 + b1 as nat, 16) == Wire(b0 as nat, 8) + Wire(b1 as nat, 8)
  {
    PowerValues();
    UpByte(b0 as nat);
    WireJoin(b0 as nat, b1 as nat, 8, 8);
  }

  lemma HighByte(r: u16)
    ensures Number(Wire(r, 16)[..8]) == r / 0x100
  {
    SplitWire(r, 16, 8);
    assert Wire(r, 16)[..8] == Wire(Down(r, 8), 8);
    OneByte(r);
    ByteNumber((r / 0x100) as u8);
  }

  /** ... and in its low byte the rest of the second byte, moved up. */
  lemma PairLow(b0: u8, b1: u8, j: nat)
    requires j < 8
    ensures Half(Up(b0 as nat * 0x100 + b1 as nat, j)) % 0x100 == Up(Low(b1 as nat, 8 - j), j)
  {
    UpSum(b0 as nat * 0x100, b1 as nat, j);
    UpOfProduct(b0 as nat, 0x100, j);
    CarriedByte(b1 as nat, 8 - j);
    ByteOfHalf(Up(b0 as nat * 0x100 + b1 as nat, j));
    ByteOfSum(Up(b0 as nat, j), Up(b1 as nat, j));
  }

  lemma SliceJoin(bits: seq<bool>, a: nat, j: nat, u: seq<bool>, v: seq<bool>)
    requires a + 16 <= |bits| && j <= 8 && |u| == |v| == 8
    requires bits[a..a + 8] == u && bits[a + 8..a + 16] == v
    ensures bits[a + j..a + j + 8] == (u + v)[j..j + 8]
  {
    var s, t := bits[a + j..a + j + 8], (u + v)[j..j + 8];
    forall k | 0 <= k < 8
      ensures s[k] == t[k]
    {
      if j + k < 8 {
        assert bits[a..a + 8][j + k] == u[j + k];
      } else {
        assert bits[a + 8..a + 16][j + k - 8] == v[j + k - 8];
      }
    }
  }

  lemma TwoBytes(rx: seq<u8>, q: nat, j: nat)
    requires q + 1 < |rx| && j <= 8
    ensures WireBytes(rx)[8 * q + j..8 * q + j + 8]
         == (Wire(rx[q] as nat, 8) + Wire(rx[q + 1] as nat, 8))[j..j + 8]
  {
    PairAt(rx, q);
    var w, base := WireBytes(rx), 8 * q;
    assert base + 16 <= |w|;
    TwoSlices(w, base, j);
  }

  lemma PairAt(rx: seq<u8>, q: nat)
    requires q + 1 < |rx|
    ensures WireBytes(rx)[8 * q..8 * q + 8] == Wire(rx[q] as nat, 8)
    ensures WireBytes(rx)[8 * q + 8..8 * q + 16] == Wire(rx[q + 1] as nat, 8)
  {
    WireBytesAt(rx, q);
    WireBytesAt(rx, q + 1);
  }

  lemma TwoSlices(w: seq<bool>, base: nat, j: nat)
    requires base + 16 <= |w| && j <= 8
    ensures w[base + j..base + j + 8] == (w[base..base + 8] + w[base + 8..base + 16])[j..j + 8]
  {
    SliceJoin(w, base, j, w[base..base + 8], w[base + 8..base + 16]);
  }

  lemma AlignedByte(rx: seq<u8>, p: nat)
    requires p < |rx|
    ensures Field(WireBytes(rx), 8 * p, 8) == rx[p] as nat
  {
    WireBytesAt(rx, p);
    ByteNumber(rx[p]);
  }

  /** A pair of bytes moved up by j: what leaves the word, what stays of the first byte, and the
      second byte. */
  lemma PairUp(prev: nat, c: nat, j: nat)
    requires j < 8 && prev < 0x100
    ensures Up(prev * 0x100 + c, j)
         == Down(prev, 8 - j) * 0x1_0000 + Up(Low(prev, 8 - j), j) * 0x100 + Up(c, j)
  {
    ByteUp(prev, j);
    UpSum(prev * 0x100, c, j);
    UpOfProduct(prev, 0x100, j);
  }

  lemma ByteUp(b: nat, j: nat)
    requires j < 8 && b < 0x100
    ensures Up(b, j) == Down(b, 8 - j) * 0x100 + Up(Low(b, 8 - j), j)
  {
    LowBound(b, 8 - j);
    ByteUpParts(Down(b, 8 - j), Low(b, 8 - j), j);
  }

  lemma ByteUpParts(h: nat, l: nat, j: nat)
    requires j < 8
    ensures Up(Up(h, 8 - j) + l, j) == h * 0x100 + Up(l, j)
  {
    UpSum(Up(h, 8 - j), l, j);
    UpTwice(h, 8 - j, j);
    UpByte(h);
  }

  lemma UpByte(h: nat)
    ensures Up(h, 8) == h * 0x100
  {
    PowerValues();
    UpIsProduct(h, 8);
  }

  lemma UpOfProduct(a: nat, m: nat, n: nat)
    ensures Up(a * m, n) == Up(a, n) * m
  {
    UpIsProduct(a * m, n);
    UpIsProduct(a, n);
    assert a * m * Pow2(n) == a * Pow2(n) * m;
  }

  /** The bits left over from one byte, or-ed with the next byte, are that pair shifted. */
  lemma OrIsPair(prev: u8, c: u8, j: nat)
    requires j < 8
    ensures Or(Up(Low(prev as nat, 8 - j), j) * 0x100, Up(c as nat, j))
         == Half(Up(prev as nat * 0x100 + c as nat, j))
  {
    var l := Low(prev as nat, 8 - j);
    LowBound(prev as nat, 8 - j);
    OrFits(l, c as nat, j);
    PairUp(prev as nat, c as nat, j);
    HalfOfSum(Down(prev as nat, 8 - j), Up(l, j) * 0x100 + Up(c as nat, j));
  }

  lemma OrFits(l: nat, c: nat, j: nat)
    requires j < 8 && l < Pow2(8 - j) && c < 0x100
    ensures Or(Up(l, j) * 0x100, Up(c, j)) == Up(l, j) * 0x100 + Up(c, j) < 0x1_0000
  {
    PowerValues();
    PowAdd(8, j);
    UpTwice(l, j, 8);
    UpIsProduct(Up(l, j), 8);
    UpBound(c, 8, j);
    OrDisjoint(l, Up(c, j), j + 8);
    UpRoom(l, 8 - j, j);
    UpRoom(c, 8, j);
  }

  /** The value of the byte after position z: either aligned at p, or straddling p - 1 and p. */
  method NextByte(rx: seq<u8>, p: nat, bitshift: nat, leftover: nat) returns (value: nat, left: nat)
    requires p < |rx| && bitshift < 8
    requires bitshift > 0 ==> p > 0 && leftover == Up(Low(rx[p - 1] as nat, 8 - bitshift), bitshift)
    ensures value == Field(WireBytes(rx), if bitshift > 0 then 8 * (p - 1) + bitshift else 8 * p, 8)
    ensures bitshift > 0 ==> left == Up(Low(rx[p] as nat, 8 - bitshift), bitshift)
  {
    left := 0;
    if bitshift > 0 {
      var rotator := Or(leftover * 0x100, Up(rx[p] as nat, bitshift));
      value := rotator / 0x100;
      left := Half(rotator * 0x100) / 0x100;
      HighOfHalf(rotator);
      Straddling(rx, p, bitshift, rotator);
    } else {
      value := rx[p] as nat;
      AlignedByte(rx, p);
    }
  }

  lemma Straddling(rx: seq<u8>, p: nat, j: nat, rotator: nat)
    requires 0 < p < |rx| && j < 8
    requires rotator == Or(Up(Low(rx[p - 1] as nat, 8 - j), j) * 0x100, Up(rx[p] as nat, j))
    ensures rotator / 0x100 == Field(WireBytes(rx), 8 * (p - 1) + j, 8)
    ensures rotator % 0x100 == Up(Low(rx[p] as nat, 8 - j), j)
  {
    var prev, here := rx[p - 1], rx[p];
    OrIsPair(prev, here, j);
    PairLow(prev, here, j);
    PairHigh(prev, here, j);
    TwoBytes(rx, p - 1, j);
  }

  /** The four bytes after the status byte, most significant first. */
  method FourBytesFrom(rx: seq<u8>, p0: nat, bitshift: nat, leftover0: nat, ghost z: nat)
    returns (resp1: nat)
    requires bitshift < 8 && p0 + 4 <= |rx|
    requires bitshift > 0 ==> p0 > 0 && leftover0 == Up(Low(rx[p0 - 1] as nat, 8 - bitshift), bitshift)
    requires z == if bitshift > 0 then 8 * (p0 - 1) + bitshift else 8 * p0
    ensures resp1 == Field(WireBytes(rx), z, 32)
  {
    var p, leftover := p0, leftover0;
    resp1 := 0;
    for i := 0 to 4
      invariant p == p0 + i
      invariant bitshift > 0 ==> leftover == Up(Low(rx[p - 1] as nat, 8 - bitshift), bitshift)
      invariant resp1 == Field(WireBytes(rx), z, 8 * i)
    {
      var value;
      value, leftover := NextByte(rx, p, bitshift, leftover);
      FieldJoin(WireBytes(rx), z, 8 * i);
      ByteField(WireBytes(rx), z + 8 * i);
      OrBytes(resp1, value);
      resp1 := Or(resp1 * 0x100, value);
      p := p + 1;
    }
  }

  lemma FieldJoin(bits: seq<bool>, z: nat, n: nat)
    requires z + n + 8 <= |bits|
    ensures Field(bits, z, n + 8) == Field(bits, z, n) * 0x100 + Field(bits, z + n, 8)
  {
    assert bits[z..z + n + 8] == bits[z..z + n] + bits[z + n..z + n + 8];
    NumberJoin(bits[z..z + n], bits[z + n..z + n + 8]);
    UpByte(Number(bits[z..z + n]));
  }

  lemma ByteField(bits: seq<bool>, z: nat)
    requires z + 8 <= |bits|
    ensures Field(bits, z, 8) < 0x100
  {
    PowerValues();
    NumberBound(bits[z..z + 8]);
  }

  /** What the response value is: the R1 error, unless a later byte had to be read separately,
      because that read's own success overwrites it. */
  function ResponseValue(r1: nat, kind: Kind, refetched: bool): int {
    var value := if Extra(kind) > 0 && refetched then 0 else StatusError(r1);
    if kind == Other && value >= 0 then -EINVAL else value
  }

  /** The status byte on the wire: behind its zero bit come parameter, address, erase sequence, CRC,
      illegal command, erase reset and idle, in this order (section 7.3.2.1). The worst decides. */
  lemma ValueOnWire(bits: seq<bool>, z: nat, kind: Kind, refetched: bool)
    requires z + 8 <= |bits|
    ensures kind == R1 || (kind != Other && !refetched) ==>
              ResponseValue(Field(bits, z, 8), kind, refetched) ==
                if bits[z + 1] || bits[z + 2] then -14
                else if bits[z + 5] then -38
                else if bits[z + 4] then -84
                else if bits[z + 3] || bits[z + 6] then -5
                else 0
    ensures (kind == R2 || kind == R3) && refetched ==> ResponseValue(Field(bits, z, 8), kind, refetched) == 0
    ensures kind == Other ==>
              ResponseValue(Field(bits, z, 8), kind, refetched) ==
                if bits[z + 1] || bits[z + 2] then -14
                else if bits[z + 5] then -38
                else if bits[z + 4] then -84
                else if bits[z + 3] || bits[z + 6] then -5
                else -22
  {
    var byte := bits[z..z + 8];
    StatusBits(byte);
    assert forall i | 0 <= i < 8 :: byte[i] == bits[z + i];
  }

  lemma StatusBits(b: seq<bool>)
    requires |b| == 8
    ensures var r := Number(b);
            && (r / 0x40 % 2 == 1 <==> b[1]) && (r / 0x20 % 2 == 1 <==> b[2]) && (r / 0x10 % 2 == 1 <==> b[3])
            && (r / 8 % 2 == 1 <==> b[4]) && (r / 4 % 2 == 1 <==> b[5]) && (r / 2 % 2 == 1 <==> b[6])
  {
    var r := Number(b);
    SmallPowers();
    StatusBit(b, 1);
    StatusBit(b, 2);
    StatusBit(b, 3);
    StatusBit(b, 4);
    StatusBit(b, 5);
    StatusBit(b, 6);
  }

  lemma SmallPowers()
    ensures Pow2(1) == 2 && Pow2(2) == 4 && Pow2(3) == 8 && Pow2(4) == 16 && Pow2(5) == 32 && Pow2(6) == 64
  {
    assert Pow2(3) == 8;
  }

  lemma StatusBit(b: seq<bool>, k: nat)
    requires k < |b|
    ensures Number(b) / Pow2(k) % 2 == 1 <==> b[|b| - 1 - k]
  {
    DownNumber(b, k);
    DownIsDiv(Number(b), k);
    DivIs(Number(b), Down(Number(b), k), Low(Number(b), k), Pow2(k));
  }

  lemma {:induction false} DownNumber(b: seq<bool>, k: nat)
    requires k < |b|
    ensures Down(Number(b), k) == Number(b[..|b| - k])
    decreases k
  {
    if k == 0 {
      assert b[..|b|] == b;
    } else {
      var c := b[..|b| - 1];
      DownNumber(c, k - 1);
      assert c[..|c| - (k - 1)] == b[..|b| - k];
    }
  }

  /** Skips the all-ones bytes: those received, then up to fourteen read one at a time. */
  method FindStart(buf: seq<u8>, more: seq<u8>, readError: int) returns (error: int, p: nat)
    requires readError < 0
    ensures error == if Found(buf, more) then 0 else if |more| < 14 then readError else -ETIMEDOUT
    ensures error == 0 ==> p == FirstNotOnes(buf + more)
  {
    var rx := buf + more;
    p, error := 0, 0;
    while p < |buf| && rx[p] == 0xFF
      invariant p <= |buf| && p <= FirstNotOnes(rx)
    {
      p := p + 1;
    }
    if p == |buf| {
      var i := 2;
      while i < 16
        invariant 2 <= i <= 16 && p == |buf| + i - 2 && p <= |rx| && p <= FirstNotOnes(rx)
      {
        if p == |rx| { return readError, p; }
        if rx[p] != 0xFF { break; }
        p := p + 1;
        i := i + 1;
      }
      if i == 16 { return -ETIMEDOUT, p; }
    }
  }

  /** The status byte, which starts at the first zero bit, bit j of byte f; p is then the next
      byte to read. */
  method StatusByte(rx: seq<u8>, f: nat, ghost j: nat)
    returns (ok: bool, p: nat, bitshift: nat, leftover: nat, r1: nat)
    requires f < |rx| && rx[f] != 0xFF && j == FirstZero(Wire(rx[f] as nat, 8)) < 8
    ensures ok <==> j == 0 || f + 1 < |rx|
    ensures ok ==> bitshift == j && p == f + (if j == 0 then 1 else 2)
    ensures ok ==> r1 == Field(WireBytes(rx), 8 * f + j, 8)
    ensures ok && j > 0 ==> leftover == Up(Low(rx[p - 1] as nat, 8 - j), j)
  {
    ok, bitshift, leftover, r1 := true, 0, 0, 0;
    FirstBit(rx[f]);
    if TopSet8(rx[f]) {
      p := f + 2;
      if f + 1 == |rx| {
        ok := false;
      } else {
        bitshift, leftover, r1 := ShiftedStatus(rx, f);
      }
    } else {
      p := f + 1;
      AlignedByte(rx, f);
      r1 := rx[f] as nat;
    }
  }

  lemma FirstBit(b: u8)
    ensures TopSet8(b) <==> FirstZero(Wire(b as nat, 8)) > 0
  {
    TopOfByte(b);
  }

  predicate TopSet8(b: u8) {
    b as nat / 0x80 == 1
  }

  lemma UsedFrom(f: nat, j: nat)
    requires j < 8
    ensures BytesUsed(8 * f + j, R1) == f + (if j == 0 then 1 else 2)
  {}

  method ShiftedStatus(rx: seq<u8>, f: nat) returns (bitshift: nat, leftover: nat, r1: nat)
    requires f + 1 < |rx| && rx[f] != 0xFF
    ensures bitshift == FirstZero(Wire(rx[f] as nat, 8)) < 8
    ensures r1 == Field(WireBytes(rx), 8 * f + bitshift, 8)
    ensures leftover == Up(Low(rx[f + 1] as nat, 8 - bitshift), bitshift)
  {
    var rotator;
    bitshift, rotator := Unrotate(rx[f], rx[f + 1]);
    PairHigh(rx[f], rx[f + 1], bitshift);
    PairLow(rx[f], rx[f + 1], bitshift);
    TwoBytes(rx, f, bitshift);
    r1 := rotator / 0x100;
    leftover := rotator % 0x100;
  }

  /** The second byte of an R2 response, put above the status byte. */
  method SecondByte(rx: seq<u8>, p: nat, bitshift: nat, leftover: nat, r1: nat, ghost z: nat)
    returns (resp0: nat)
    requires bitshift < 8 && p < |rx| && r1 < 0x100
    requires bitshift > 0 ==> p > 0 && leftover == Up(Low(rx[p - 1] as nat, 8 - bitshift), bitshift)
    requires z == if bitshift > 0 then 8 * (p - 1) + bitshift else 8 * p
    ensures resp0 == r1 + 0x100 * Field(WireBytes(rx), z, 8)
  {
    var second, _ := NextByte(rx, p, bitshift, leftover);
    OrBytes(second, r1);
    resp0 := Or(r1, second * 0x100);
  }

  /** Decodes a response. buf is what the command transfer received from its second byte on; more
      is what further single-byte reads will return, until they fail with readError. */
  method ResponseGet(buf: seq<u8>, more: seq<u8>, readError: int, kind: Kind)
    returns (value: int, resp0: nat, resp1: nat)
    requires readError < 0
    ensures (forall i | 0 <= i < |buf + more| && i < |buf| + 14 :: (buf + more)[i] == 0xFF) ==>
              value == if |more| < 14 then readError else -110
    ensures (exists i :: 0 <= i < |buf + more| && i < |buf| + 14 && (buf + more)[i] != 0xFF) ==>
              var bits := WireBytes(buf + more);
              var z := FirstZero(bits);
              var used := (z + 15) / 8 + (if kind == R2 then 1 else if kind == R3 then 4 else 0);
              if used > |buf + more| then
                value == readError
              else
                && (kind == R2 ==> resp0 == Number(bits[z..z + 8]) + 0x100 * Number(bits[z + 8..z + 16]))
                && (kind == R3 ==> resp0 == Number(bits[z..z + 8]) && resp1 == Number(bits[z + 8..z + 40]))
                && (kind == R1 || kind == Other ==> resp0 == Number(bits[z..z + 8]))
                && value == (if (kind == R2 || kind == R3) && used > |buf| then 0
                             else if bits[z + 1] || bits[z + 2] then -14
                             else if bits[z + 5] then -38
                             else if bits[z + 4] then -84
                             else if bits[z + 3] || bits[z + 6] then -5
                             else if kind == Other then -22 else 0)
  {
    var rx := buf + more;
    resp0, resp1 := 0, 0;
    var f;
    value, f := FindStart(buf, more, readError);
    if value < 0 { return; }
    value, resp0, resp1 := DecodeAt(rx, |buf|, f, readError, kind);
    ghost var z := FirstZero(WireBytes(rx));
    if BytesUsed(z, kind) <= |rx| { ValueOnWire(WireBytes(rx), z, kind, BytesUsed(z, kind) > |buf|); }
  }

  method DecodeAt(rx: seq<u8>, buffered: nat, f: nat, readError: int, kind: Kind)
    returns (value: int, resp0: nat, resp1: nat)
    requires readError < 0 && f == FirstNotOnes(rx) < |rx| && buffered <= |rx|
    ensures var bits := WireBytes(rx);
            var z := FirstZero(bits);
            if BytesUsed(z, kind) > |rx| then
              value == readError
            else
              && z + 8 + 8 * Extra(kind) <= |bits|
              && Decodes(bits, z, kind, resp0, resp1)
              && value == ResponseValue(Field(bits, z, 8), kind, BytesUsed(z, kind) > buffered)
  {
    resp0, resp1 := 0, 0;
    ghost var z := FirstZero(WireBytes(rx));
    ghost var j := FirstZero(Wire(rx[f] as nat, 8));
    FirstZeroInByte(rx, f);
    UsedFrom(f, j);
    var ok, p, bitshift, leftover, r1 := StatusByte(rx, f, j);
    if !ok { return readError, resp0, resp1; }
    value, resp0, resp1 := ExtraBytes(rx, buffered, p, bitshift, leftover, r1, readError, kind, z);
  }

  /** What follows the status byte r1, which was the eight bits at z, up to byte p. */
  method ExtraBytes(rx: seq<u8>, buffered: nat, p: nat, bitshift: nat, leftover: nat, r1: nat,
                    readError: int, kind: Kind, ghost z: nat)
    returns (value: int, resp0: nat, resp1: nat)
    requires readError < 0 && buffered <= |rx| && bitshift < 8 && 0 < p <= |rx|
    requires bitshift > 0 ==> leftover == Up(Low(rx[p - 1] as nat, 8 - bitshift), bitshift)
    requires z + 8 == if bitshift > 0 then 8 * (p - 1) + bitshift else 8 * p
    requires r1 == Field(WireBytes(rx), z, 8)
    ensures if p + Extra(kind) > |rx| then
              value == readError
            else
              && Decodes(WireBytes(rx), z, kind, resp0, resp1)
              && value == ResponseValue(r1, kind, p + Extra(kind) > buffered)
  {
    resp0, resp1 := r1, 0;
    value := StatusError(resp0);
    match kind
    case R2 =>
      if p >= buffered {
        if p == |rx| { return readError, resp0, resp1; }
        value := 0;
      }
      ByteField(WireBytes(rx), z);
      resp0 := SecondByte(rx, p, bitshift, leftover, r1, z + 8);
    case R3 =>
      if p + 4 > buffered {
        if p + 4 > |rx| { return readError, resp0, resp1; }
        value := 0;
      }
      resp1 := FourBytesFrom(rx, p, bitshift, leftover, z + 8);
    case R1 =>
    case Other =>
      if value >= 0 { value := -EINVAL; }
  }

  lemma TopOfByte(b: u8)
    ensures TopSet8(b) <==> Wire(b as nat, 8)[0]
  {
    WireBit(b as nat, 8, 0);
    DownSeven(b as nat);
  }

  /** The first n bits of onTime come k bits late, after ones only. */
  predicate Late(onTime: seq<bool>, late: seq<bool>, k: nat, n: nat) {
    && n <= |onTime| && k + n <= |late|
    && (forall i | 0 <= i < k :: late[i])
    && (forall i | 0 <= i < n :: onTime[i] == late[k + i])
  }

  lemma LateZero(onTime: seq<bool>, late: seq<bool>, k: nat, n: nat)
    requires Late(onTime, late, k, n) && FirstZero(onTime) < n
    ensures FirstZero(late) == k + FirstZero(onTime)
  {
    var z := FirstZero(onTime);
    forall i | 0 <= i < k + z
      ensures late[i]
    {
      if k <= i { assert onTime[i - k]; }
    }
    FirstZeroIs(late, k + z);
  }

  lemma LateField(onTime: seq<bool>, late: seq<bool>, k: nat, n: nat, z: nat, m: nat)
    requires Late(onTime, late, k, n) && z + m <= n
    ensures Field(late, k + z, m) == Field(onTime, z, m)
  {
    var s, t := late[k + z..k + z + m], onTime[z..z + m];
    forall i | 0 <= i < m
      ensures s[i] == t[i]
    {
      assert onTime[z + i] == late[k + (z + i)];
    }
    assert s == t;
  }

  /** A response that comes k bits late decodes to the same values as the one on time. */
  lemma DelayedResponse(onTime: seq<bool>, late: seq<bool>, k: nat, kind: Kind, resp0: nat, resp1: nat)
    requires Late(onTime, late, k, FirstZero(onTime) + 8 + 8 * Extra(kind))
    ensures FirstZero(late) == k + FirstZero(onTime)
    ensures Decodes(onTime, FirstZero(onTime), kind, resp0, resp1)
       <==> Decodes(late, FirstZero(late), kind, resp0, resp1)
  {
    var z := FirstZero(onTime);
    LateZero(onTime, late, k, z + 8 + 8 * Extra(kind));
    LateDecodes(onTime, late, k, z, kind, resp0, resp1);
  }

  lemma LateDecodes(onTime: seq<bool>, late: seq<bool>, k: nat, z: nat, kind: Kind, resp0: nat, resp1: nat)
    requires Late(onTime, late, k, z + 8 + 8 * Extra(kind))
    ensures Decodes(onTime, z, kind, resp0, resp1) <==> Decodes(late, k + z, kind, resp0, resp1)
  {
    var n := z + 8 + 8 * Extra(kind);
    LateField(onTime, late, k, n, z, 8);
    if kind == R2 { LateField(onTime, late, k, n, z + 8, 8); }
    if kind == R3 { LateField(onTime, late, k, n, z + 8, 32); }
  }

  // ------------------------------------------------------------------ the write response

  /** The pattern the loop works on: the first three bits count as ones. */
  function Pattern(status: seq<u8>): seq<bool>
    requires |status| == 4
  {
    [true, true, true] + WireBytes(status)[3..]
  }

  function Zeros(n: nat): (z: seq<bool>)
    ensures |z| == n
  {
    seq(n, _ => false)
  }

  /** The five bits from the first zero bit on, with zeros beyond the four bytes. */
  function ResponseCode(pattern: seq<bool>): nat {
    Field(pattern + Zeros(5), FirstZero(pattern), 5)
  }

  function Verdict(code: nat): int {
    if code == 5 then 0 else if code == 11 then -EILSEQ else if code == 13 then -EIO else -EPROTO
  }

  method WriteResponse(status: seq<u8>) returns (code: nat, result: int)
    requires |status| == 4
    ensures code == ResponseCode(Pattern(status)) && result == Verdict(code)
  {
    var pattern := status[0] as nat * 0x100_0000 + status[1] as nat * 0x1_0000
                 + status[2] as nat * 0x100 + status[3] as nat;
    ForcedOnes(status, pattern);
    pattern := Or(pattern, 0xE000_0000);
    code := CodeOf(pattern);
    result := if code == 5 then 0 else if code == 11 then -EILSEQ
              else if code == 13 then -EIO else -EPROTO;
  }

  predicate TopSet(pattern: nat) {
    pattern / 0x8000_0000 == 1
  }

  /** Shifts the first zero bit to the top, and takes the five top bits. */
  method CodeOf(pattern0: nat) returns (code: nat)
    requires pattern0 < Pow2(32)
    ensures code == ResponseCode(Wire(pattern0, 32))
  {
    var pattern := pattern0;
    ghost var bits := Wire(pattern0, 32);
    ghost var i: nat := 0;
    WordOf(pattern0);
    TopBit(pattern0, 0);
    while TopSet(pattern)
      invariant i <= FirstZero(bits) && pattern == Word(Up(pattern0, i))
      invariant TopSet(pattern) <==> (i < 32 && bits[i])
      decreases 32 - i
    {
      NotYet(bits, i);
      ShiftOut(Up(pattern0, i));
      pattern := Word(pattern * 2);
      i := i + 1;
      TopBit(pattern0, i);
    }
    code := pattern / 0x800_0000;
    StoppedAt(bits, i);
    CodeBits(pattern0, i);
  }

  lemma NotYet(bits: seq<bool>, i: nat)
    requires i <= FirstZero(bits) && i < |bits| && bits[i]
    ensures i < FirstZero(bits)
  {}

  lemma StoppedAt(bits: seq<bool>, i: nat)
    requires i <= FirstZero(bits) && !(i < |bits| && bits[i])
    ensures i == FirstZero(bits)
  {}

  lemma WordOf(x: nat)
    requires x < Pow2(32)
    ensures Word(x) == x
  {
    PowerValues();
  }

  lemma ShiftOut(u: nat)
    ensures Word(Word(u) * 2) == Word(2 * u)
  {
    LowShift(u, 32);
    LowWord(u);
    LowWord(2 * u);
    LowWord(2 * Low(u, 32));
  }

  /** After i shifts the top bit of the word is bit i of the pattern; after 32 it is zero. */
  lemma TopBit(p: nat, i: nat)
    requires p < Pow2(32) && i <= 32
    ensures TopSet(Word(Up(p, i))) <==> (i < 32 && Wire(p, 32)[i])
  {
    LowWord(Up(p, i));
    ShiftedTop(p, 32, i);
    TopIsFirst(Word(Up(p, i)));
  }

  lemma TopIsFirst(x: u32)
    ensures TopSet(x) <==> Wire(x, 32)[0]
  {
    WireBit(x, 32, 0);
    DownThirtyOne(x);
  }

  /** A register of n bits after i shifts, as bits. */
  lemma ShiftedBits(p: nat, n: nat, i: nat)
    requires i <= n
    ensures Wire(Low(Up(p, i), n), n) == Wire(p, n)[i..] + Zeros(i)
  {
    LowOfUp(p, i, n - i);
    PowPositive(i);
    WireJoin(Low(p, n - i), 0, n - i, i);
    WireLow(p, n - i);
    TailOfWire(p, n, n - i);
    WireZero(i);
  }

  lemma ShiftedTop(p: nat, n: nat, i: nat)
    requires 0 < n && i <= n
    ensures Wire(Low(Up(p, i), n), n)[0] == (i < n && Wire(p, n)[i])
  {
    ShiftedBits(p, n, i);
  }

  lemma PowPositive(n: nat)
    ensures Pow2(n) > 0
  {}

  /** Its top five bits, as a number. */
  lemma TopFive(x: nat)
    requires x < Pow2(32)
    ensures x / 0x800_0000 == Number(Wire(x, 32)[..5])
  {
    PowerValues();
    DownTwentySeven(x);
    SplitWire(x, 32, 27);
    DownBound(x, 27, 5);
    LowBound(Down(x, 27), 5);
    NumberOfWire(Down(x, 27), 5);
    assert Wire(x, 32)[..5] == Wire(Down(x, 27), 5);
  }

  lemma CodeBits(p: nat, i: nat)
    requires p < Pow2(32) && i <= 32
    ensures Word(Up(p, i)) / 0x800_0000 == Number((Wire(p, 32) + Zeros(5))[i..i + 5])
  {
    var x := Word(Up(p, i));
    PowerValues();
    LowWord(Up(p, i));
    ShiftedBits(p, 32, i);
    TopFive(x);
    SameFive(Wire(p, 32), i, Wire(x, 32), Wire(x, 32)[..5]);
  }

  lemma SameFive(bits: seq<bool>, i: nat, shifted: seq<bool>, five: seq<bool>)
    requires |bits| == 32 && i <= 32 && shifted == bits[i..] + Zeros(i)
    requires |five| == 5 && five <= shifted
    ensures (bits + Zeros(5))[i..i + 5] == five
  {
    assert five == shifted[..5];
  }

  lemma {:induction false} WireZero(n: nat)
    ensures Wire(0, n) == Zeros(n)
  {
    if n > 0 { WireZero(n - 1); }
  }

  lemma OrTopThree(h: nat, x: nat, n: nat)
    requires h < 8 && x < Pow2(n)
    ensures Or(Up(h, n) + x, Up(7, n)) == Up(7, n) + x
    decreases n
  {
    if n == 0 {
      OrSeven(h);
    } else {
      OrTopThree(h, x / 2, n - 1);
      assert (Up(h, n) + x) / 2 == Up(h, n - 1) + x / 2;
      assert Up(7, n) == 2 * Up(7, n - 1) && Up(7, n) > 0 by { UpIsProduct(7, n); }
    }
  }

  lemma OrSeven(h: nat)
    requires h < 8
    ensures Or(h, 7) == 7
  {
    assert Or(h / 2 / 2, 1) == 1;
    assert Or(h / 2, 3) == 3;
  }

  /** The four status bytes as one word, with its top three bits forced to ones. */
  lemma ForcedOnes(status: seq<u8>, raw: nat)
    requires |status| == 4
    requires raw == status[0] as nat * 0x100_0000 + status[1] as nat * 0x1_0000
                  + status[2] as nat * 0x100 + status[3] as nat
    ensures Or(raw, 0xE000_0000) < Pow2(32)
    ensures Wire(Or(raw, 0xE000_0000), 32) == Pattern(status)
  {
    BigEndianOnWire(status);
    FourBytes(status);
    PowerValues();
    UpIsProduct(7, 29);
    TopForced(raw, 29);
  }

  lemma TopForced(raw: nat, n: nat)
    requires raw < Pow2(n + 3)
    ensures Or(raw, Up(7, n)) < Pow2(n + 3)
    ensures Wire(Or(raw, Up(7, n)), n + 3) == [true, true, true] + Wire(raw, n + 3)[3..]
  {
    var x := Low(raw, n);
    TopOred(raw, n);
    UpRoom(7, 3, n);
    WireJoin(7, x, 3, n);
    WireSeven();
    WireJoin(Down(raw, n), x, 3, n);
    OtherTop(Wire(Or(raw, Up(7, n)), n + 3), [true, true, true], Wire(raw, n + 3), Wire(Down(raw, n), 3), Wire(x, n));
  }

  lemma OtherTop(w: seq<bool>, top: seq<bool>, v: seq<bool>, was: seq<bool>, rest: seq<bool>)
    requires w == top + rest && v == was + rest && |was| == 3
    ensures w == top + v[3..]
  {}

  lemma TopOred(raw: nat, n: nat)
    requires raw < Pow2(n + 3)
    ensures Or(raw, Up(7, n)) == Up(7, n) + Low(raw, n)
    ensures raw == Up(Down(raw, n), n) + Low(raw, n) && Low(raw, n) < Pow2(n) && 7 < Pow2(3)
  {
    LowBound(raw, n);
    DownBound(raw, n, 3);
    PowThree();
    OrTopThree(Down(raw, n), Low(raw, n), n);
  }

  lemma PowThree()
    ensures Pow2(3) == 8
  {}

  lemma WireSeven()
    ensures Wire(7, 3) == [true, true, true]
  {
    assert Wire(3, 2) == [true, true];
  }

  /** A response that is up to 24 bits late is decoded exactly: whatever the first three bits
      are, after late ones the code is the five bits that follow. */
  lemma LateResponse(status: seq<u8>, late: nat, token: seq<bool>)
    requires |status| == 4 && late <= 24 && |token| == 5 && !token[0]
    requires forall i | 3 <= i < 3 + late :: WireBytes(status)[i]
    requires WireBytes(status)[3 + late..8 + late] == token
    ensures ResponseCode(Pattern(status)) == Number(token)
  {
    var p := Pattern(status);
    assert p[3 + late] == token[0];
    FirstZeroIs(p, 3 + late);
    assert (p + Zeros(5))[3 + late..8 + late] == token;
  }

  lemma NumberOfFive(b: seq<bool>)
    requires |b| == 5
    ensures Number(b) == 16 * Bit(b[0]) + 8 * Bit(b[1]) + 4 * Bit(b[2]) + 2 * Bit(b[3]) + Bit(b[4])
  {
    assert b[..4][..3] == b[..3] && b[..3][..2] == b[..2] && b[..2][..1] == b[..1];
    assert Number(b[..1]) == Bit(b[0]);
    assert Number(b[..2]) == 2 * Number(b[..1]) + Bit(b[1]);
    assert Number(b[..3]) == 2 * Number(b[..2]) + Bit(b[2]);
    assert Number(b[..4]) == 2 * Number(b[..3]) + Bit(b[3]);
  }

  function Bit(b: bool): nat { if b then 1 else 0 }

  /** A block counts as accepted exactly when a whole data response token 0 010 1 arrives at some
      lateness of 0 to 24 bits, after ones only, as hit by a CRC error exactly with 0 101 1, and as not
      written exactly with 0 110 1; a token cut off by the end of the four bytes is never taken for an
      answer, and what is no answer is a protocol error. */
  lemma AcceptedExactly(status: seq<u8>)
    requires |status| == 4
    ensures var result := Verdict(ResponseCode(Pattern(status)));
            && (result == 0 <==> exists late: nat :: late <= 24 && TokenAt(status, late, [false, false, true, false, true]))
            && (result == -84 <==> exists late: nat :: late <= 24 && TokenAt(status, late, [false, true, false, true, true]))
            && (result == -5 <==> exists late: nat :: late <= 24 && TokenAt(status, late, [false, true, true, false, true]))
            && result in {0, -84, -5, -71}
  {
    CodeExactly(status, [false, false, true, false, true]);
    CodeExactly(status, [false, true, false, true, true]);
    CodeExactly(status, [false, true, true, false, true]);
    NumberOfFive([false, false, true, false, true]);
    NumberOfFive([false, true, false, true, true]);
    NumberOfFive([false, true, true, false, true]);
  }

  /** A token that ends with a one is found exactly if it arrives whole. */
  lemma CodeExactly(status: seq<u8>, token: seq<bool>)
    requires |status| == 4 && |token| == 5 && !token[0] && token[4]
    ensures ResponseCode(Pattern(status)) == Number(token)
       <==> exists late: nat :: late <= 24 && TokenAt(status, late, token)
  {
    if exists late: nat :: late <= 24 && TokenAt(status, late, token) {
      var late: nat :| late <= 24 && TokenAt(status, late, token);
      LateResponse(status, late, token);
    }
    if ResponseCode(Pattern(status)) == Number(token) {
      var late := CodeArrived(status, token);
    }
  }

  lemma CodeArrived(status: seq<u8>, token: seq<bool>) returns (late: nat)
    requires |status| == 4 && |token| == 5 && token[4] && ResponseCode(Pattern(status)) == Number(token)
    ensures late <= 24 && TokenAt(status, late, token)
  {
    var p := Pattern(status);
    var z := FirstZero(p);
    SameFiveBits((p + Zeros(5))[z..z + 5], token);
    assert token[4] == (p + Zeros(5))[z + 4];
    late := z - 3;
    assert token == p[z..z + 5] == WireBytes(status)[z..z + 5];
    forall i | 3 <= i < z
      ensures WireBytes(status)[i]
    {
      assert p[i];
    }
  }

  lemma SameFiveBits(a: seq<bool>, b: seq<bool>)
    requires |a| == |b| == 5 && Number(a) == Number(b)
    ensures a == b
  {
    NumberOfFive(a);
    NumberOfFive(b);
  }

  predicate TokenAt(status: seq<u8>, late: nat, token: seq<bool>)
    requires |status| == 4 && late <= 24
  {
    (forall i | 3 <= i < 3 + late :: WireBytes(status)[i]) && WireBytes(status)[3 + late..8 + late] == token
  }
}

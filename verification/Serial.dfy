/** Bits on a serial line, most significant bit of each byte first. */
module Serial {
  import opened Machine

  /** The low n bits of x as they go over a serial line: most significant first. */
  function Wire(x: nat, n: nat): (bits: seq<bool>)
    ensures |bits| == n
  {
    if n == 0 then [] else Wire(x / 2, n - 1) + [x % 2 == 1]
  }

  /** The number a run of bits spells, most significant first. */
  function Number(bits: seq<bool>): nat {
    if bits == [] then 0
    else 2 * Number(bits[..|bits| - 1]) + (if bits[|bits| - 1] then 1 else 0)
  }

  function WireBytes(data: seq<u8>): (bits: seq<bool>)
    ensures |bits| == 8 * |data|
  {
    if data == [] then [] else WireBytes(data[..|data| - 1]) + Wire(data[|data| - 1] as nat, 8)
  }

  lemma {:induction false} WireJoin(a: nat, b: nat, m: nat, n: nat)
    requires b < Pow2(n)
    ensures Wire(Up(a, n) + b, m + n) == Wire(a, m) + Wire(b, n)
  {
    if n > 0 {
      WireJoin(a, b / 2, m, n - 1);
      assert (Up(a, n) + b) / 2 == Up(a, n - 1) + b / 2;
    }
  }

  lemma {:induction false} WireLow(a: nat, n: nat)
    ensures Wire(Low(a, n), n) == Wire(a, n)
  {
    if n > 0 { WireLow(a / 2, n - 1); }
  }

  lemma {:induction false} NumberOfWire(a: nat, n: nat)
    ensures Number(Wire(a, n)) == Low(a, n)
  {
    if n > 0 {
      NumberOfWire(a / 2, n - 1);
      assert Wire(a, n)[..n - 1] == Wire(a / 2, n - 1);
    }
  }

  lemma {:induction false} WireBytesJoin(x: seq<u8>, y: seq<u8>)
    ensures WireBytes(x + y) == WireBytes(x) + WireBytes(y)
    decreases |y|
  {
    if y == [] {
      assert x + y == x;
    } else {
      assert (x + y)[..|x + y| - 1] == x + y[..|y| - 1];
      WireBytesJoin(x, y[..|y| - 1]);
    }
  }

  lemma WireInjective(a: nat, b: nat, n: nat)
    requires a < Pow2(n) && b < Pow2(n) && Wire(a, n) == Wire(b, n)
    ensures a == b
  {
    NumberOfWire(a, n);
    NumberOfWire(b, n);
    LowBound(a, n);
    LowBound(b, n);
  }

  lemma WireByteInjective(a: u8, b: u8)
    requires Wire(a as nat, 8) == Wire(b as nat, 8)
    ensures a == b
  {
    PowerValues();
    WireInjective(a as nat, b as nat, 8);
  }

  lemma {:induction false} WireBytesInjective(x: seq<u8>, y: seq<u8>)
    requires |x| == |y| && WireBytes(x) == WireBytes(y)
    ensures x == y
    decreases |x|
  {
    if x != [] {
      var n := |x| - 1;
      var p, q := WireBytes(x[..n]), WireBytes(y[..n]);
      var a, b := Wire(x[n] as nat, 8), Wire(y[n] as nat, 8);
      assert p == (p + a)[..8 * n] == (q + b)[..8 * n] == q;
      assert a == (p + a)[8 * n..] == (q + b)[8 * n..] == b;
      WireByteInjective(x[n], y[n]);
      WireBytesInjective(x[..n], y[..n]);
    }
  }

  /** Byte k of the data is the group of eight bits at 8k. */
  lemma {:induction false} WireBytesAt(x: seq<u8>, k: nat)
    requires k < |x|
    ensures WireBytes(x)[8 * k..8 * k + 8] == Wire(x[k] as nat, 8)
    decreases |x|
  {
    var n := |x| - 1;
    var front, last := WireBytes(x[..n]), Wire(x[n] as nat, 8);
    assert WireBytes(x) == front + last;
    if k < n {
      WireBytesAt(x[..n], k);
      assert (front + last)[8 * k..8 * k + 8] == front[8 * k..8 * k + 8];
    } else {
      assert (front + last)[8 * n..8 * n + 8] == last;
    }
  }

  /** A big-endian word. */
  function BigEndian(data: seq<u8>): nat {
    if data == [] then 0 else BigEndian(data[..|data| - 1]) * 0x100 + data[|data| - 1] as nat
  }

  lemma {:induction false} BigEndianOnWire(data: seq<u8>)
    ensures WireBytes(data) == Wire(BigEndian(data), 8 * |data|)
  {
    if data != [] {
      var front, last := data[..|data| - 1], data[|data| - 1];
      BigEndianOnWire(front);
      ByteBehind(BigEndian(front), last, 8 * |front|);
    }
  }

  lemma ByteBehind(a: nat, b: u8, m: nat)
    ensures Wire(a * 0x100 + b as nat, m + 8) == Wire(a, m) + Wire(b as nat, 8)
  {
    PowerValues();
    UpIsProduct(a, 8);
    WireJoin(a, b as nat, m, 8);
  }

  lemma FourBytes(b: seq<u8>)
    requires |b| == 4
    ensures BigEndian(b) == b[0] as nat * 0x100_0000 + b[1] as nat * 0x1_0000
                          + b[2] as nat * 0x100 + b[3] as nat
  {
    var b3, b2, b1 := b[..3], b[..3][..2], b[..3][..2][..1];
    assert BigEndian(b1) == b[0] as nat by { assert b1[..0] == []; }
    assert BigEndian(b2) == BigEndian(b1) * 0x100 + b[1] as nat;
    assert BigEndian(b3) == BigEndian(b2) * 0x100 + b[2] as nat;
  }

  lemma ByteNumber(b: u8)
    ensures Number(Wire(b as nat, 8)) == b as nat
  {
    NumberOfWire(b as nat, 8);
    OneByte(b as nat);
  }

  lemma NumberSnoc(a: seq<bool>, e: bool)
    ensures Number(a + [e]) == 2 * Number(a) + (if e then 1 else 0)
  {
    assert (a + [e])[..|a|] == a;
  }

  lemma {:induction false} NumberJoin(a: seq<bool>, b: seq<bool>)
    ensures Number(a + b) == Up(Number(a), |b|) + Number(b)
    decreases |b|
  {
    if b == [] {
      assert a + b == a;
    } else {
      var n := |b| - 1;
      var front, e := b[..n], b[n];
      assert b == front + [e];
      assert a + b == (a + front) + [e];
      NumberJoin(a, front);
      NumberSnoc(a + front, e);
      NumberSnoc(front, e);
    }
  }

  lemma {:induction false} NumberBound(a: seq<bool>)
    ensures Number(a) < Pow2(|a|)
  {
    if a != [] { NumberBound(a[..|a| - 1]); }
  }
}

/** Reading one block from a card whose data is not aligned to byte boundaries
    (mmc_spi_readblock, utils/mmc_spi.c), after section 7.3.3.2 of the SD Physical Layer
    Simplified Specification 2.00. */
module SpiRead {
  import opened Basics
  import opened Machine
  import opened Serial

  /** The position of the first zero bit. */
  function FirstZero(bits: seq<bool>): (z: nat)
    ensures z <= |bits| && (forall i | 0 <= i < z :: bits[i]) && (z < |bits| ==> !bits[z])
  {
    if bits == [] || !bits[0] then 0 else 1 + FirstZero(bits[1..])
  }

  lemma FirstZeroIs(bits: seq<bool>, z: nat)
    requires z < |bits| && !bits[z] && forall i | 0 <= i < z :: bits[i]
    ensures FirstZero(bits) == z
  {}

  /** The data bits a token carries: those after its first zero bit. */
  function TokenData(token: u8): seq<bool>
    requires token != 0xFF
  {
    var bits := Wire(token as nat, 8);
    TokenHasZero(token);
    bits[FirstZero(bits) + 1..]
  }

  lemma TokenHasZero(token: u8)
    requires token != 0xFF
    ensures FirstZero(Wire(token as nat, 8)) < 8
  {
    if FirstZero(Wire(token as nat, 8)) == 8 {
      assert Wire(token as nat, 8) == Wire(255, 8);
      WireByteInjective(token, 255);
    }
  }

  /** The decoded block: data and CRC are the consecutive 8-bit groups of the bit stream that
      follows the token's first zero bit. */
  predicate Realigned(token: u8, wire: seq<u8>, decoded: seq<u8>)
    requires token != 0xFF
  {
    |decoded| == |wire|
    && WireBytes(decoded) == (TokenData(token) + WireBytes(wire))[..8 * |wire|]
  }

  /** There is only one such block. */
  lemma RealignedUnique(token: u8, wire: seq<u8>, x: seq<u8>, y: seq<u8>)
    requires token != 0xFF && Realigned(token, wire, x) && Realigned(token, wire, y)
    ensures x == y
  {
    WireBytesInjective(x, y);
  }

  /** Whatever a card sends after the zero bit of its token, at any of the eight bit positions,
      is what the block decodes to. */
  lemma BlockRecovered(token: u8, wire: seq<u8>, sent: seq<u8>, decoded: seq<u8>)
    requires token != 0xFF && |sent| == |wire|
    requires WireBytes(sent) <= TokenData(token) + WireBytes(wire)
    requires Realigned(token, wire, decoded)
    ensures decoded == sent
  {
    WireBytesInjective(decoded, sent);
  }

  /** One turn of the loop stores the k carried bits l and the high bits of temp, where k is the
      number of data bits in the token. */
  lemma MergedByte(l: nat, temp: nat, k: nat)
    requires k <= 8 && l < Pow2(k) && temp < 256
    ensures Or(Up(l, 8 - k), Down(temp, k)) == Up(l, 8 - k) + Down(temp, k) < 256
    ensures Wire(Up(l, 8 - k) + Down(temp, k), 8) == Wire(l, k) + Wire(Down(temp, k), 8 - k)
  {
    PowEight();
    DownBound(temp, k, 8 - k);
    OrDisjoint(l, Down(temp, k), 8 - k);
    WireJoin(l, Down(temp, k), k, 8 - k);
    SumFits(l, Down(temp, k), k);
  }

  /** It carries the low k bits of temp. */
  lemma CarriedByte(temp: nat, k: nat)
    requires k <= 8
    ensures Byte(Up(temp, 8 - k)) as nat == Up(Low(temp, k), 8 - k)
  {
    OneByte(Up(temp, 8 - k));
    LowOfUp(temp, 8 - k, k);
  }

  lemma SplitWire(t: nat, n: nat, k: nat)
    requires k <= n
    ensures Wire(t, n) == Wire(Down(t, k), n - k) + Wire(Low(t, k), k)
    ensures Low(t, k) < Pow2(k)
  {
    LowBound(t, k);
    WireJoin(Down(t, k), Low(t, k), n - k, k);
  }

  lemma StoredByte(l: nat, leftover: u8, temp: u8, k: nat)
    requires k <= 8 && l < Pow2(k) && leftover as nat == Up(l, 8 - k)
    ensures Byte(Or(leftover as nat, Down(temp as nat, k))) as nat == Up(l, 8 - k) + Down(temp as nat, k)
  {
    MergedByte(l, temp as nat, k);
    ByteSmall(Or(Up(l, 8 - k), Down(temp as nat, k)));
  }

  lemma ByteSmall(x: nat)
    requires x < 256
    ensures Byte(x) as nat == x
  {}

  /** The stored byte and the bits carried on are the bits carried in and the byte read. */
  lemma MergeStep(l: nat, t: nat, k: nat)
    requires k <= 8 && l < Pow2(k) && t < 256
    ensures Wire(Up(l, 8 - k) + Down(t, k), 8) + Wire(Low(t, k), k) == Wire(l, k) + Wire(t, 8)
  {
    MergedByte(l, t, k);
    SplitWire(t, 8, k);
    Reassociate(Wire(l, k), Wire(Down(t, k), 8 - k), Wire(Low(t, k), k),
                Wire(Up(l, 8 - k) + Down(t, k), 8), Wire(t, 8));
  }

  lemma Reassociate(a: seq<bool>, b: seq<bool>, c: seq<bool>, ab: seq<bool>, bc: seq<bool>)
    requires ab == a + b && bc == b + c
    ensures ab + c == a + bc
  {}

  lemma PowEight()
    ensures Pow2(8) == 256
  {}

  lemma {:induction false} SumFits(l: nat, h: nat, k: nat)
    requires k <= 8 && l < Pow2(k) && h < Pow2(8 - k)
    ensures Up(l, 8 - k) + h < 256
  {
    PowEight();
    UpRoom(l, k, 8 - k);
  }

  /** The token's first zero bit is found by shifting it left; what is left over, moved past that
      bit, are the data bits it carries, at the top of a byte. */
  method SplitToken(token: u8) returns (bitshift: nat, leftover: u8)
    requires token != 0xFF
    ensures bitshift <= 7 && bitshift == |TokenData(token)|
    ensures leftover as nat == Up(Low(token as nat, bitshift), 8 - bitshift)
    ensures TokenData(token) == Wire(Low(token as nat, bitshift), bitshift)
  {
    ghost var bits := Wire(token as nat, 8);
    ghost var z := FirstZero(bits);
    TokenHasZero(token);
    bitshift := 7;
    var status := token as nat;
    TopOfUp(token as nat, 0);
    while status / 0x80 % 2 == 1
      invariant 7 - z <= bitshift <= 7 && status == Up(token as nat, 7 - bitshift)
      invariant (status / 0x80 % 2 == 1) == bits[7 - bitshift]
      decreases bitshift
    {
      status := status * 2;
      bitshift := bitshift - 1;
      TopOfUp(token as nat, 7 - bitshift);
    }
    assert z == 7 - bitshift;
    leftover := Byte(status * 2);
    TokenTail(token as nat, bitshift);
  }

  lemma TokenTail(token: nat, k: nat)
    requires k <= 7
    ensures Byte(Up(token, 7 - k) * 2) as nat == Up(Low(token, k), 8 - k)
    ensures Wire(token, 8)[8 - k..] == Wire(Low(token, k), k)
  {
    UpOnce(token, 7 - k);
    CarriedByte(token, k);
    LowOnWire(token, 8, k);
  }

  lemma UpOnce(a: nat, n: nat)
    ensures Up(a, n) * 2 == Up(a, n + 1)
  {}

  lemma LowOnWire(a: nat, n: nat, k: nat)
    requires k <= n
    ensures Wire(a, n)[n - k..] == Wire(Low(a, k), k)
  {
    TailOfWire(a, n, k);
    WireLow(a, k);
  }

  /** Bit 7 of a word moved up by j is bit 7 - j of the word. */
  lemma TopOfUp(a: nat, j: nat)
    requires j <= 7
    ensures (Up(a, j) / 0x80 % 2 == 1) == Wire(a, 8)[j]
  {
    WireBit(a, 8, j);
    DownSeven(Up(a, j));
    DownUp(a, j, 7 - j);
  }

  lemma {:induction false} WireBit(a: nat, n: nat, j: nat)
    requires j < n
    ensures Wire(a, n)[j] == (Down(a, n - 1 - j) % 2 == 1)
  {
    if j < n - 1 { WireBit(a / 2, n - 1, j); }
  }

  lemma {:induction false} DownUp(a: nat, m: nat, n: nat)
    ensures Down(Up(a, m), m + n) == Down(a, n)
  {
    if m > 0 { DownUp(a, m - 1, n); }
  }

  /** The last k bits on the wire are the low k bits. */
  lemma {:induction false} TailOfWire(a: nat, n: nat, k: nat)
    requires k <= n
    ensures Wire(a, n)[n - k..] == Wire(a, k)
  {
    if k > 0 { TailOfWire(a / 2, n - 1, k - 1); }
  }

  /** The loop over the data, in place; l and l' are the bits carried in and out. */
  method RealignData(rx: array<u8>, bitshift: nat, leftover0: u8, ghost data: seq<bool>, ghost l0: nat)
    returns (leftover: u8, ghost l: nat)
    requires bitshift <= 7 && l0 < Pow2(bitshift) && leftover0 as nat == Up(l0, 8 - bitshift)
    requires data == Wire(l0, bitshift)
    modifies rx
    ensures l < Pow2(bitshift) && leftover as nat == Up(l, 8 - bitshift)
    ensures WireBytes(rx[..]) + Wire(l, bitshift) == data + WireBytes(old(rx[..]))
  {
    ghost var wire := rx[..];
    leftover, l := leftover0, l0;
    var i := 0;
    while i < rx.Length
      invariant 0 <= i <= rx.Length && rx[i..] == wire[i..]
      invariant l < Pow2(bitshift) && leftover as nat == Up(l, 8 - bitshift)
      invariant WireBytes(rx[..i]) + Wire(l, bitshift) == data + WireBytes(wire[..i])
    {
      var temp := rx[i];
      rx[i] := Byte(Or(leftover as nat, Down(temp as nat, bitshift)));
      l := Merged(data, wire[..i], rx[..i], l, leftover, temp, bitshift);
      leftover := Byte(Up(temp as nat, 8 - bitshift));
      OneFurther(rx[..], i);
      OneFurther(wire, i);
      i := i + 1;
    }
    assert rx[..] == rx[..i] && wire == wire[..i];
  }

  /** The two CRC bytes; after them the carried bits are dropped. */
  method RealignCrc(crc: array<u8>, bitshift: nat, leftover0: u8,
                    ghost data: seq<bool>, ghost wire: seq<u8>, ghost out: seq<u8>, ghost l0: nat)
    requires crc.Length == 2
    requires bitshift <= 7 && l0 < Pow2(bitshift) && leftover0 as nat == Up(l0, 8 - bitshift)
    requires WireBytes(out) + Wire(l0, bitshift) == data + WireBytes(wire)
    modifies crc
    ensures |wire| == |out| ==>
              WireBytes(out + crc[..]) == (data + WireBytes(wire + old(crc[..])))[..8 * (|wire| + 2)]
  {
    ghost var c := crc[..];
    var temp := crc[0];
    crc[0] := Byte(Or(leftover0 as nat, Down(temp as nat, bitshift)));
    ghost var l := Merged(data, wire, out, l0, leftover0, temp, bitshift);
    var leftover := Byte(Up(temp as nat, 8 - bitshift));
    temp := crc[1];
    crc[1] := Byte(Or(leftover as nat, Down(temp as nat, bitshift)));
    l := Merged(data, wire + [c[0]], out + [crc[0]], l, leftover, temp, bitshift);
    if |wire| == |out| { TwoMore(data, wire, c, out, crc[..], Wire(l, bitshift)); }
  }

  lemma TwoMore(data: seq<bool>, wire: seq<u8>, c: seq<u8>, out: seq<u8>, r: seq<u8>, rest: seq<bool>)
    requires |c| == |r| == 2 && |wire| == |out|
    requires WireBytes(out + [r[0]] + [r[1]]) + rest == data + WireBytes(wire + [c[0]] + [c[1]])
    ensures WireBytes(out + r) == (data + WireBytes(wire + c))[..8 * (|wire| + 2)]
  {
    OneByOne(out, r);
    OneByOne(wire, c);
    Chop(WireBytes(out + r), rest, data, WireBytes(wire + c));
  }

  /** Reads one block into rx and crc. first is the first byte read, or a negative error;
      searched is what the search for a token that is not all ones found, or a negative error. */
  method ReadBlock(first: int, searched: int, rx: array<u8>, crc: array<u8>,
                   useCrc: bool, crcItu: seq<u8> -> u16) returns (status: int)
    requires first <= 0xFF && searched < 0xFF
    requires crc.Length == 2 && rx != crc
    modifies rx, crc
    ensures var token := if first == 0xFF || first == 0 then searched else first;
            if token < 0 then
              status == token && rx[..] == old(rx[..]) && crc[..] == old(crc[..])
            else
              && Realigned(token as u8, old(rx[..] + crc[..]), rx[..] + crc[..])
              && (status == 0 || status == -EILSEQ)
              && (status == 0 <==> (useCrc ==> crc[0] as int * 0x100 + crc[1] as int == crcItu(rx[..])))
  {
    status := first;
    if status == 0xFF || status == 0 { status := searched; }
    if status < 0 { return; }
    ghost var data := TokenData(status as u8);
    ghost var wire, wireCrc := rx[..], crc[..];
    var bitshift, leftover := SplitToken(status as u8);
    if bitshift > 0 {
      ghost var l := Low(status, bitshift);
      LowBound(status, bitshift);
      leftover, l := RealignData(rx, bitshift, leftover, data, l);
      RealignCrc(crc, bitshift, leftover, data, wire, rx[..], l);
    } else {
      Chop(WireBytes(rx[..] + crc[..]), [], data, WireBytes(wire + wireCrc));
    }
    status := 0;
    if useCrc && crc[0] as int * 0x100 + crc[1] as int != crcItu(rx[..]) {
      status := -EILSEQ;
    }
  }

  lemma Merged(data: seq<bool>, wire: seq<u8>, out: seq<u8>, l: nat, leftover: u8, temp: u8, k: nat)
    returns (l': nat)
    requires k <= 8 && l < Pow2(k) && leftover as nat == Up(l, 8 - k)
    requires WireBytes(out) + Wire(l, k) == data + WireBytes(wire)
    ensures l' < Pow2(k) && Byte(Up(temp as nat, 8 - k)) as nat == Up(l', 8 - k)
    ensures var b := Byte(Or(leftover as nat, Down(temp as nat, k)));
            WireBytes(out + [b]) + Wire(l', k) == data + WireBytes(wire + [temp])
  {
    l' := Low(temp as nat, k);
    var b := Byte(Or(leftover as nat, Down(temp as nat, k)));
    StoredByte(l, leftover, temp, k);
    MergeStep(l, temp as nat, k);
    CarriedByte(temp as nat, k);
    LowBound(temp as nat, k);
    Extend(data, wire, out, Wire(l, k), Wire(l', k), temp, b);
  }

  lemma Extend(data: seq<bool>, wire: seq<u8>, out: seq<u8>,
               carried: seq<bool>, carry: seq<bool>, temp: u8, b: u8)
    requires WireBytes(out) + carried == data + WireBytes(wire)
    requires Wire(b as nat, 8) + carry == carried + Wire(temp as nat, 8)
    ensures WireBytes(out + [b]) + carry == data + WireBytes(wire + [temp])
  {
    WireBytesEnd(out, b);
    WireBytesEnd(wire, temp);
    Regroup(WireBytes(out), Wire(b as nat, 8), carry, carried, Wire(temp as nat, 8), data, WireBytes(wire));
  }

  lemma WireBytesEnd(data: seq<u8>, b: u8)
    ensures WireBytes(data + [b]) == WireBytes(data) + Wire(b as nat, 8)
  {
    assert (data + [b])[..|data|] == data;
  }

  lemma Regroup(o: seq<bool>, x: seq<bool>, carry: seq<bool>, carried: seq<bool>, t: seq<bool>, data: seq<bool>, w: seq<bool>)
    requires o + carried == data + w && x + carry == carried + t
    ensures (o + x) + carry == data + (w + t)
  {
    assert (o + x) + carry == o + (x + carry);
    assert o + (carried + t) == (o + carried) + t;
    assert (data + w) + t == data + (w + t);
  }

  lemma OneFurther(a: seq<u8>, i: nat)
    requires i < |a|
    ensures a[..i + 1] == a[..i] + [a[i]]
  {}

  lemma OneByOne(a: seq<u8>, r: seq<u8>)
    requires |r| == 2
    ensures a + r == a + [r[0]] + [r[1]]
  {}

  lemma Chop(a: seq<bool>, rest: seq<bool>, data: seq<bool>, w: seq<bool>)
    requires |a| == |w| && a + rest == data + w
    ensures a == (data + w)[..|w|]
  {
    assert a == (a + rest)[..|a|];
  }
}

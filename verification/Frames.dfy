/** The headers of frames on the bus, and how an aggregate of frames is laid out (hgic.h,
    hgic_fmac/core.c). */
module Frames {
  import opened Machine

  const TX_MAGIC := 0x1A2B
  const RX_MAGIC := 0x2B1A
  const FRM2 := 9
  const AGGFRM := 18
  const HEADER := 8

  datatype Hdr = Hdr(magic: u16, kind: nat, ifidx: nat, flags: nat, length: u16, cookie: u16)

  predicate ValidHdr(h: Hdr) {
    h.kind < 0x100 && h.ifidx < 16 && h.flags < 16
  }

  /** Numbers as bytes, one after the other. */
  function Octets(ns: seq<nat>): (b: seq<u8>)
    requires forall i | 0 <= i < |ns| :: ns[i] < 0x100
    ensures |b| == |ns|
  {
    if ns == [] then [] else [ns[0] as u8] + Octets(ns[1..])
  }

  lemma {:induction false} OctetsAt(ns: seq<nat>, i: nat)
    requires (forall j | 0 <= j < |ns| :: ns[j] < 0x100) && i < |ns|
    ensures Octets(ns)[i] as nat == ns[i]
  {
    if i > 0 { OctetsAt(ns[1..], i - 1); }
  }

  function Le16(x: u16): (b: seq<u8>)
    ensures |b| == 2
  {
    Octets([x % 0x100, x / 0x100])
  }

  function GetLe16(lo: u8, hi: u8): u16 {
    lo as int + hi as int * 0x100
  }

  lemma Le16RoundTrip(x: u16)
    ensures GetLe16(Le16(x)[0], Le16(x)[1]) == x
    ensures Le16(x) == [Byte(x), Byte(x / 0x100)]
  {
    OctetsAt([x % 0x100, x / 0x100], 0);
    OctetsAt([x % 0x100, x / 0x100], 1);
  }

  function Nibbles(lo: nat, hi: nat): (b: seq<u8>)
    requires lo < 16 && hi < 16
    ensures |b| == 1
  {
    Octets([lo + 16 * hi])
  }

  lemma NibblesRoundTrip(lo: nat, hi: nat)
    requires lo < 16 && hi < 16
    ensures Nibbles(lo, hi)[0] as nat % 16 == lo && Nibbles(lo, hi)[0] as nat / 16 == hi
  {
    OctetsAt([lo + 16 * hi], 0);
  }

  /** The eight bytes of a header. */
  function Encode(h: Hdr): (b: seq<u8>)
    requires ValidHdr(h)
    ensures |b| == HEADER
  {
    Le16(h.magic) + Octets([h.kind]) + Nibbles(h.ifidx, h.flags) + Le16(h.length) + Le16(h.cookie)
  }

  function Decode(b: seq<u8>): (h: Hdr)
    requires |b| >= HEADER
    ensures ValidHdr(h)
  {
    Hdr(GetLe16(b[0], b[1]), b[2] as nat, b[3] as nat % 16, b[3] as nat / 16, GetLe16(b[4], b[5]), GetLe16(b[6], b[7]))
  }

  lemma DecodeEncode(h: Hdr, b: seq<u8>)
    requires ValidHdr(h) && |b| >= HEADER && b[..HEADER] == Encode(h)
    ensures Decode(b) == h
  {
    var e := Encode(h);
    assert forall i | 0 <= i < HEADER :: b[i] == e[i];
    Le16RoundTrip(h.magic);
    Le16RoundTrip(h.length);
    Le16RoundTrip(h.cookie);
    OctetsAt([h.kind], 0);
    NibblesRoundTrip(h.ifidx, h.flags);
  }

  /** A data frame as the network hands it down, numbered by its arrival. */
  datatype Frame = Frame(id: nat, ifidx: nat, payload: seq<u8>)

  predicate ValidFrame(f: Frame) {
    f.ifidx < 16 && HEADER + |f.payload| <= 0xFFFF
  }

  predicate ValidFrames(fs: seq<Frame>) {
    forall i | 0 <= i < |fs| :: ValidFrame(fs[i])
  }

  function Length(f: Frame): nat {
    HEADER + |f.payload|
  }

  function Align4(n: nat): (a: nat)
    ensures n <= a < n + 4 && a % 4 == 0
  {
    (n + 3) / 4 * 4
  }

  function Next(cookie: u16): u16 {
    Half(cookie + 1)
  }

  /** The header of a frame sent on its own, and of one inside an aggregate. */
  function FrameHdr(f: Frame, magic: u16, length: u16, cookie: u16): Hdr {
    Hdr(magic, FRM2, f.ifidx, 0, length, cookie)
  }

  function SingleBytes(f: Frame, magic: u16, cookie: u16): seq<u8>
    requires ValidFrame(f)
  {
    Encode(FrameHdr(f, magic, Length(f), cookie)) + f.payload
  }

  /** One frame of an aggregate: a header with the aligned length, the payload, up to three bytes
      of any value. */
  predicate IsSub(bytes: seq<u8>, f: Frame, magic: u16, cookie: u16) {
    && ValidFrame(f) && |bytes| == Align4(Length(f)) <= 0xFFFF
    && bytes[..HEADER] == Encode(FrameHdr(f, magic, |bytes|, cookie))
    && bytes[HEADER..Length(f)] == f.payload
  }

  /** Frames one after the other, numbered upwards. */
  predicate IsSubs(bytes: seq<u8>, fs: seq<Frame>, magic: u16, cookie: u16)
    decreases |fs|
  {
    if fs == [] then bytes == []
    else
      var n := Align4(Length(fs[0]));
      n <= |bytes| && IsSub(bytes[..n], fs[0], magic, cookie) && IsSubs(bytes[n..], fs[1..], magic, Next(cookie))
  }

  function AggHdr(magic: u16, length: u16, cookie: u16): Hdr {
    Hdr(magic, AGGFRM, 0, 0, length, cookie)
  }

  /** An aggregate: its header with the length of it all, then the frames. */
  predicate IsAggregate(bytes: seq<u8>, fs: seq<Frame>, magic: u16, cookie: u16) {
    && HEADER <= |bytes| <= 0xFFFF && bytes[..HEADER] == Encode(AggHdr(magic, |bytes|, cookie))
    && IsSubs(bytes[HEADER..], fs, magic, Next(cookie))
  }

  /** The cookie n numbers after this one. */
  function Later(cookie: u16, n: nat): u16
    decreases n
  {
    if n == 0 then cookie else Later(Next(cookie), n - 1)
  }

  lemma {:induction false} LaterNext(cookie: u16, n: nat)
    ensures Next(Later(cookie, n)) == Later(cookie, n + 1)
    decreases n
  {
    if n > 0 { LaterNext(Next(cookie), n - 1); }
  }

  lemma {:induction false} LaterIsSum(cookie: u16, n: nat)
    ensures Later(cookie, n) == Half(cookie + n)
    decreases n
  {
    if n > 0 {
      LaterIsSum(Next(cookie), n - 1);
      HalfWraps(cookie, n);
    }
  }

  lemma HalfWraps(cookie: u16, n: nat)
    requires n > 0
    ensures Half(Half(cookie + 1) + (n - 1)) == Half(cookie + n)
  {
    assert cookie + 1 < 0x1_0000 || Half(cookie + 1) == cookie + 1 - 0x1_0000;
  }

  /** A frame added at the end. */
  lemma {:induction false} SubsEnd(bytes: seq<u8>, fs: seq<Frame>, magic: u16, cookie: u16, more: seq<u8>, f: Frame)
    requires IsSubs(bytes, fs, magic, cookie) && IsSub(more, f, magic, Later(cookie, |fs|))
    ensures IsSubs(bytes + more, fs + [f], magic, cookie)
    decreases |fs|
  {
    if fs == [] {
      assert bytes + more == more && more[..|more|] == more && more[|more|..] == [];
      assert [f][1..] == [];
    } else {
      var n := Align4(Length(fs[0]));
      assert (bytes + more)[..n] == bytes[..n] && (bytes + more)[n..] == bytes[n..] + more;
      assert (fs + [f])[1..] == fs[1..] + [f];
      SubsEnd(bytes[n..], fs[1..], magic, Next(cookie), more, f);
    }
  }
}

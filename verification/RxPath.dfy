/** How received data is taken apart (hgic_fmac/core.c, utils/utils.c), and that this undoes what
    the transmit side puts together. */
module RxPath {
  import opened Machine
  import opened Frames

  const BOOTDL := 7
  const SOFTFC := 11
  const CONTROL := {3, 4, 7, 12, 13, 14}

  /** How a call ends: it finishes; it goes round for ever on a frame of length 0; or the flags of
      a frame take away more than its payload. */
  datatype Outcome = Finished | Spins | Overruns

  /** What receiving changes: the cookie last seen, frames handed to the network, mismatched
      aggregate cookies reported, packets handed to the control path, the credit granted. */
  datatype Rx = Rx(cookie: u16, delivered: seq<seq<u8>>, gaps: nat, control: seq<seq<u8>>, txwnd: int)

  datatype Result = Result(rx: Rx, outcome: Outcome)

  // ------------------------------------------------------------------ what receiving comes to

  /** The number of bytes 0xFF in front, counting three at most. */
  function Padding(data: seq<u8>): (i: nat)
    requires |data| >= 3
    ensures i <= 3
  {
    if data[0] != 0xFF then 0 else if data[1] != 0xFF then 1 else if data[2] != 0xFF then 2 else 3
  }

  /** One frame of len bytes at the beginning of data. */
  function Single(rx: Rx, data: seq<u8>, len: nat): Result
    requires HEADER <= |data| && len <= |data|
  {
    var h := Decode(data);
    if len <= HEADER then Result(rx, Finished)
    else
      var rx' := rx.(cookie := h.cookie);
      if len < HEADER + h.flags then Result(rx', Overruns)
      else Result(rx'.(delivered := rx.delivered + [data[HEADER..len - h.flags]]), Finished)
  }

  /** The frames of an aggregate, one after the other. */
  function Walk(rx: Rx, data: seq<u8>): Result
    decreases |data|
  {
    if |data| <= HEADER then Result(rx, Finished)
    else
      var h := Decode(data);
      if h.magic != RX_MAGIC || h.kind != FRM2 || |data| < h.length then Result(rx, Finished)
      else
        var one := Single(rx, data, h.length);
        if one.outcome != Finished then one
        else if h.length == 0 then Result(one.rx, Spins)
        else Walk(one.rx, data[h.length..])
  }

  function Aggregate(rx: Rx, data: seq<u8>, len: nat): Result
    requires HEADER <= |data| && len <= |data|
  {
    var c := Decode(data).cookie;
    var rx' := rx.(cookie := c, gaps := if Next(rx.cookie) == c then rx.gaps else rx.gaps + 1);
    if len < HEADER then Result(rx', Finished) else Walk(rx', data[HEADER..len])
  }

  /** What len bytes received come to: whether they are refused, and how taking them apart ends. The
      buffer is longer than they are where the header would not be in it otherwise; up says that there
      is an interface, and that it is not being tested. */
  datatype Reception = Reception(ret: int, end: Result)

  function Received(rx: Rx, data: seq<u8>, len: nat, up: bool): Reception
    requires |data| >= 3 + HEADER && len <= |data|
  {
    var i := Padding(data);
    var d, l, h := data[i..], len - i, Decode(data[i..]);
    var n := if l < h.length then l else h.length;
    if h.magic != RX_MAGIC || (l < h.length && h.kind != BOOTDL) then Reception(-1, Result(rx, Finished))
    else
      Reception(0, if h.kind == FRM2 || h.kind == AGGFRM then
                     if !up then Result(rx, Finished) else if h.kind == AGGFRM then Aggregate(rx, d, n) else Single(rx, d, n)
                   else if h.kind in CONTROL && n >= 0 then Result(rx.(control := rx.control + [d[..n]]), Finished)
                   else if h.kind == SOFTFC then Result(rx.(txwnd := h.cookie), Finished)
                   else Result(rx, Finished))
  }

  // ------------------------------------------------------------------ the receiver

  class Receiver {
    var rxCookie: u16
    var delivered: seq<seq<u8>>
    var gaps: nat
    var control: seq<seq<u8>>
    var txwnd: int
    var hasVif: bool
    var ifTest: bool

    constructor ()
      ensures Abs() == Rx(0, [], 0, [], 0) && !hasVif && !ifTest
    {
      rxCookie, delivered, gaps, control, txwnd := 0, [], 0, [], 0;
      hasVif, ifTest := false, false;
    }

    ghost function Abs(): Rx
      reads this
    {
      Rx(rxCookie, delivered, gaps, control, txwnd)
    }

    method RxSingleFrm(data: seq<u8>, len: nat) returns (outcome: Outcome)
      requires HEADER <= |data| && len <= |data|
      modifies this`rxCookie, this`delivered
      ensures if hasVif then Result(Abs(), outcome) == Single(old(Abs()), data, len)
              else Abs() == old(Abs()) && outcome == Finished
    {
      outcome := Finished;
      var h := Decode(data);
      if hasVif && len > HEADER {
        rxCookie := h.cookie;
        var copyLen: int := len - (HEADER + h.flags);
        if copyLen < 0 { return Overruns; }
        delivered := delivered + [data[HEADER..HEADER + copyLen]];
      }
    }

    method RxAggFrm(data: seq<u8>, len: nat) returns (outcome: Outcome)
      requires HEADER <= |data| && len <= |data| && hasVif
      modifies this`rxCookie, this`delivered, this`gaps
      ensures Result(Abs(), outcome) == Aggregate(old(Abs()), data, len)
    {
      var cookie := Decode(data).cookie;
      if Half(rxCookie + 1) != cookie { gaps := gaps + 1; }
      rxCookie := cookie;
      if len < HEADER { return Finished; }
      outcome := RxFrames(data[HEADER..len]);
    }

    /** The loop of RxAggFrm. */
    method RxFrames(data: seq<u8>) returns (outcome: Outcome)
      requires hasVif
      modifies this`rxCookie, this`delivered
      ensures Result(Abs(), outcome) == Walk(old(Abs()), data)
    {
      var rest := data;
      while |rest| > HEADER
        invariant Walk(Abs(), rest) == Walk(old(Abs()), data)
        decreases |rest|
      {
        var h := Decode(rest);
        if h.magic == RX_MAGIC && h.kind == FRM2 && |rest| >= h.length {
          outcome := RxSingleFrm(rest, h.length);
          if outcome != Finished { return; }
          if h.length == 0 { return Spins; }
          rest := rest[h.length..];
        } else {
          return Finished;
        }
      }
      outcome := Finished;
    }

    /** Takes the len bytes at the beginning of data apart. */
    method RxData(data: seq<u8>, len: nat) returns (ret: int, outcome: Outcome)
      requires |data| >= 3 + HEADER && len <= |data|
      modifies this`rxCookie, this`delivered, this`gaps, this`control, this`txwnd
      ensures Reception(ret, Result(Abs(), outcome)) == Received(old(Abs()), data, len, hasVif && !ifTest)
    {
      outcome := Finished;
      var i := SkipPadding(data);
      var d := data[i..];
      var l: int := len - i;
      var h := Decode(d);
      if h.magic != RX_MAGIC { return -1, Finished; }
      if l < h.length && h.kind != BOOTDL { return -1, Finished; }
      l := if l < h.length then l else h.length;
      ret := 0;
      if h.kind == FRM2 || h.kind == AGGFRM {
        if hasVif && !ifTest {
          if h.kind == AGGFRM { outcome := RxAggFrm(d, l); } else { outcome := RxSingleFrm(d, l); }
        }
      } else if h.kind in CONTROL {
        if l >= 0 { control := control + [d[..l]]; }
      } else if h.kind == SOFTFC {
        txwnd := h.cookie;
      }
    }
  }

  method SkipPadding(data: seq<u8>) returns (i: nat)
    requires |data| >= 3
    ensures i == Padding(data)
  {
    i := 0;
    while i < 3 && data[i] == 0xFF
      invariant i <= 3 && forall j | 0 <= j < i :: data[j] == 0xFF
    {
      i := i + 1;
    }
  }

  // ------------------------------------------------------------------ splitting undoes aggregation

  predicate NonEmpty(fs: seq<Frame>) {
    forall i | 0 <= i < |fs| :: fs[i].payload != []
  }

  /** A payload as it comes out of an aggregate: followed by what makes its frame a multiple of four
      long. */
  predicate Comes(d: seq<u8>, f: Frame) {
    |d| == Align4(Length(f)) - HEADER && d[..|f.payload|] == f.payload
  }

  predicate AllCome(ds: seq<seq<u8>>, fs: seq<Frame>) {
    |ds| == |fs| && forall i | 0 <= i < |fs| :: Comes(ds[i], fs[i])
  }

  lemma SubHeader(bytes: seq<u8>, f: Frame, cookie: u16)
    requires |bytes| >= Align4(Length(f)) && IsSub(bytes[..Align4(Length(f))], f, RX_MAGIC, cookie)
    ensures Decode(bytes) == FrameHdr(f, RX_MAGIC, Align4(Length(f)), cookie)
    ensures Comes(bytes[HEADER..Align4(Length(f))], f)
  {
    var sub := bytes[..Align4(Length(f))];
    assert bytes[..HEADER] == sub[..HEADER];
    DecodeEncode(FrameHdr(f, RX_MAGIC, Align4(Length(f)), cookie), bytes);
    assert bytes[HEADER..Align4(Length(f))][..|f.payload|] == sub[HEADER..Length(f)];
  }

  /** The receiver after n frames numbered from cookie on. */
  function Yield(rx: Rx, cookie: u16, n: nat, ds: seq<seq<u8>>): Result {
    Result(rx.(cookie := if n == 0 then rx.cookie else Later(cookie, n - 1), delivered := rx.delivered + ds), Finished)
  }

  lemma YieldMore(rx: Rx, rx': Rx, end: Result, cookie: u16, fs: seq<Frame>, d: seq<u8>, more: seq<seq<u8>>) returns (ds: seq<seq<u8>>)
    requires fs != [] && Comes(d, fs[0]) && AllCome(more, fs[1..])
    requires rx' == rx.(cookie := cookie, delivered := rx.delivered + [d]) && end == Yield(rx', Next(cookie), |fs| - 1, more)
    ensures AllCome(ds, fs) && end == Yield(rx, cookie, |fs|, ds)
  {
    ds := [d] + more;
    AllComeMore(d, more, fs);
    assert rx.delivered + [d] + more == rx.delivered + ds;
  }

  lemma WalkOfNothing(rx: Rx, bytes: seq<u8>, cookie: u16) returns (ds: seq<seq<u8>>)
    requires IsSubs(bytes, [], RX_MAGIC, cookie)
    ensures AllCome(ds, []) && Walk(rx, bytes) == Yield(rx, cookie, 0, ds)
  {
    ds := [];
    assert rx.delivered + [] == rx.delivered;
  }

  /** The walk yields the frames in order, and the cookie of the last. */
  lemma {:induction false} WalkYieldsFrames(rx: Rx, bytes: seq<u8>, fs: seq<Frame>, cookie: u16, end: Result) returns (ds: seq<seq<u8>>)
    requires IsSubs(bytes, fs, RX_MAGIC, cookie) && NonEmpty(fs) && end == Walk(rx, bytes)
    ensures AllCome(ds, fs) && end == Yield(rx, cookie, |fs|, ds)
    decreases |fs|
  {
    if fs == [] {
      ds := WalkOfNothing(rx, bytes, cookie);
    } else {
      var d, rx', rest := WalkHead(rx, bytes, fs, cookie);
      var more := WalkYieldsFrames(rx', rest, fs[1..], Next(cookie), end);
      ds := YieldMore(rx, rx', end, cookie, fs, d, more);
    }
  }

  lemma AllComeMore(d: seq<u8>, more: seq<seq<u8>>, fs: seq<Frame>)
    requires fs != [] && Comes(d, fs[0]) && AllCome(more, fs[1..])
    ensures AllCome([d] + more, fs)
  {
    forall i | 0 <= i < |fs| ensures Comes(([d] + more)[i], fs[i]) {
      if i > 0 { assert fs[i] == fs[1..][i - 1]; }
    }
  }

  lemma WalkHead(rx: Rx, bytes: seq<u8>, fs: seq<Frame>, cookie: u16) returns (d: seq<u8>, rx': Rx, rest: seq<u8>)
    requires fs != [] && IsSubs(bytes, fs, RX_MAGIC, cookie) && NonEmpty(fs)
    ensures Comes(d, fs[0]) && rx' == rx.(cookie := cookie, delivered := rx.delivered + [d])
    ensures IsSubs(rest, fs[1..], RX_MAGIC, Next(cookie)) && NonEmpty(fs[1..]) && Walk(rx, bytes) == Walk(rx', rest)
  {
    d, rx', rest := WalkStep(rx, bytes, fs[0], cookie);
  }

  lemma WalkStep(rx: Rx, bytes: seq<u8>, f: Frame, cookie: u16) returns (d: seq<u8>, rx': Rx, rest: seq<u8>)
    requires f.payload != [] && |bytes| >= Align4(Length(f)) && IsSub(bytes[..Align4(Length(f))], f, RX_MAGIC, cookie)
    ensures Comes(d, f) && rx' == rx.(cookie := cookie, delivered := rx.delivered + [d])
    ensures rest == bytes[Align4(Length(f))..] && Walk(rx, bytes) == Walk(rx', rest)
  {
    SubHeader(bytes, f, cookie);
    d := bytes[HEADER..Align4(Length(f))];
    rx' := rx.(cookie := cookie, delivered := rx.delivered + [d]);
    rest := bytes[Align4(Length(f))..];
    assert Single(rx, bytes, Align4(Length(f))) == Result(rx', Finished);
  }

  /** The receiver after an aggregate. */
  lemma AggregateYieldsFrames(rx: Rx, data: seq<u8>, len: nat, fs: seq<Frame>, cookie: u16) returns (ds: seq<seq<u8>>)
    requires len <= |data| && IsAggregate(data[..len], fs, RX_MAGIC, cookie) && NonEmpty(fs)
    ensures AllCome(ds, fs)
    ensures Aggregate(rx, data, len)
         == Result(rx.(cookie := Later(cookie, |fs|), delivered := rx.delivered + ds,
                       gaps := if Next(rx.cookie) == cookie then rx.gaps else rx.gaps + 1), Finished)
  {
    assert data[..HEADER] == data[..len][..HEADER];
    DecodeEncode(AggHdr(RX_MAGIC, len, cookie), data);
    assert data[HEADER..len] == data[..len][HEADER..];
    var rx' := rx.(cookie := cookie, gaps := if Next(rx.cookie) == cookie then rx.gaps else rx.gaps + 1);
    ds := WalkYieldsFrames(rx', data[HEADER..len], fs, Next(cookie), Walk(rx', data[HEADER..len]));
  }

  /** A frame sent on its own comes out as it went in. */
  lemma SingleYieldsFrame(rx: Rx, data: seq<u8>, f: Frame, cookie: u16)
    requires ValidFrame(f) && f.payload != [] && |data| >= Length(f)
    requires data[..Length(f)] == SingleBytes(f, RX_MAGIC, cookie)
    ensures Single(rx, data, Length(f)) == Result(rx.(cookie := cookie, delivered := rx.delivered + [f.payload]), Finished)
  {
    var bytes := SingleBytes(f, RX_MAGIC, cookie);
    assert data[..HEADER] == data[..Length(f)][..HEADER] == bytes[..HEADER];
    DecodeEncode(FrameHdr(f, RX_MAGIC, Length(f), cookie), data);
    assert data[HEADER..Length(f)] == data[..Length(f)][HEADER..] == bytes[HEADER..];
  }

  /** What stands around a packet on the bus does not matter: bytes 0xFF in front, up to three, and
      any bytes behind. */
  lemma PacketFound(front: seq<u8>, packet: seq<u8>, behind: seq<u8>, h: Hdr)
    requires |front| <= 3 && (forall i | 0 <= i < |front| :: front[i] == 0xFF)
    requires ValidHdr(h) && h.magic == RX_MAGIC && h.length == |packet| >= HEADER && packet[..HEADER] == Encode(h)
    requires |front + packet + behind| >= 3
    ensures var data := front + packet + behind;
            && Padding(data) == |front| && data[|front|..][..|packet|] == packet
            && |data| - |front| >= HEADER && Decode(data[|front|..]) == h
  {
    var data := front + packet + behind;
    assert packet[0] == packet[..HEADER][0] == 0x1A;
    assert forall i | 0 <= i < |front| :: data[i] == front[i];
    assert data[|front|] == packet[0];
    assert data[|front|..][..|packet|] == packet;
    assert data[|front|..][..HEADER] == packet[..HEADER];
    DecodeEncode(h, data[|front|..]);
  }

  // ------------------------------------------------------------------ what the flags take away

  /** A frame from the device: a payload, and what its flags say is to be cut off behind it. */
  datatype Piece = Piece(ifidx: nat, payload: seq<u8>, pad: seq<u8>)

  predicate ValidPiece(x: Piece) {
    x.ifidx < 16 && |x.pad| < 16 && 0 < |x.payload| + |x.pad| <= 0xFFFF - HEADER
  }

  predicate ValidPieces(xs: seq<Piece>) {
    forall i | 0 <= i < |xs| :: ValidPiece(xs[i])
  }

  function PieceHdr(x: Piece, cookie: u16): Hdr
    requires ValidPiece(x)
  {
    Hdr(RX_MAGIC, FRM2, x.ifidx, |x.pad|, HEADER + |x.payload| + |x.pad|, cookie)
  }

  function PieceBytes(x: Piece, cookie: u16): (b: seq<u8>)
    requires ValidPiece(x)
    ensures |b| == HEADER + |x.payload| + |x.pad|
  {
    Encode(PieceHdr(x, cookie)) + x.payload + x.pad
  }

  function Pieces(xs: seq<Piece>, cookie: u16): seq<u8>
    requires ValidPieces(xs)
  {
    if xs == [] then [] else PieceBytes(xs[0], cookie) + Pieces(xs[1..], Next(cookie))
  }

  function Payloads(xs: seq<Piece>): seq<seq<u8>> {
    if xs == [] then [] else [xs[0].payload] + Payloads(xs[1..])
  }

  /** One such frame delivers its payload and no more. */
  lemma PieceDelivers(rx: Rx, x: Piece, cookie: u16, data: seq<u8>)
    requires ValidPiece(x) && |data| >= HEADER + |x.payload| + |x.pad|
    requires data[..HEADER + |x.payload| + |x.pad|] == PieceBytes(x, cookie)
    ensures Decode(data) == PieceHdr(x, cookie)
    ensures Single(rx, data, HEADER + |x.payload| + |x.pad|)
         == Result(rx.(cookie := cookie, delivered := rx.delivered + [x.payload]), Finished)
  {
    var n := HEADER + |x.payload| + |x.pad|;
    var b := PieceBytes(x, cookie);
    assert data[..HEADER] == data[..n][..HEADER] == b[..HEADER] == Encode(PieceHdr(x, cookie));
    DecodeEncode(PieceHdr(x, cookie), data);
    assert data[HEADER..n - |x.pad|] == data[..n][HEADER..n - |x.pad|] == b[HEADER..n - |x.pad|] == x.payload;
  }

  /** A frame on its own, whatever stands around it, delivers exactly the bytes of its payload that its
      flags leave. */
  lemma FlagsCutTheEnd(rx: Rx, front: seq<u8>, x: Piece, cookie: u16, behind: seq<u8>, len: nat)
    requires |front| <= 3 && (forall i | 0 <= i < |front| :: front[i] == 0xFF) && ValidPiece(x)
    requires var n := |front| + HEADER + |x.payload| + |x.pad|; n <= len <= n + |behind| && n + |behind| >= 3 + HEADER
    ensures Received(rx, front + PieceBytes(x, cookie) + behind, len, true)
         == Reception(0, Result(rx.(cookie := cookie, delivered := rx.delivered + [x.payload]), Finished))
  {
    var b := PieceBytes(x, cookie);
    HeaderFirst(Encode(PieceHdr(x, cookie)), x.payload + x.pad, b);
    var d := DataReceived(rx, front, b, behind, len, PieceHdr(x, cookie));
    PieceDelivers(rx, x, cookie, d);
  }

  lemma HeaderFirst(h: seq<u8>, body: seq<u8>, packet: seq<u8>)
    requires packet == h + body
    ensures packet[..|h|] == h && packet[|h|..] == body
  {}

  /** Data frames and aggregates are taken apart as they lie in the buffer. */
  lemma DataReceived(rx: Rx, front: seq<u8>, packet: seq<u8>, behind: seq<u8>, len: nat, h: Hdr) returns (d: seq<u8>)
    requires |front| <= 3 && (forall i | 0 <= i < |front| :: front[i] == 0xFF)
    requires ValidHdr(h) && h.magic == RX_MAGIC && h.length == |packet| >= HEADER && packet[..HEADER] == Encode(h)
    requires |front| + |packet| <= len <= |front + packet + behind| && |front + packet + behind| >= 3 + HEADER
    ensures d == (front + packet + behind)[|front|..] && |d| >= |packet| && d[..|packet|] == packet
    ensures h.kind == FRM2 ==> Received(rx, front + packet + behind, len, true) == Reception(0, Single(rx, d, |packet|))
    ensures h.kind == AGGFRM ==> Received(rx, front + packet + behind, len, true) == Reception(0, Aggregate(rx, d, |packet|))
  {
    PacketFound(front, packet, behind, h);
    d := (front + packet + behind)[|front|..];
  }

  /** The receiver after such frames, one by one. */
  function Consumed(rx: Rx, xs: seq<Piece>, cookie: u16): Rx
    decreases |xs|
  {
    if xs == [] then rx
    else Consumed(rx.(cookie := cookie, delivered := rx.delivered + [xs[0].payload]), xs[1..], Next(cookie))
  }

  lemma {:induction false} ConsumedIs(rx: Rx, xs: seq<Piece>, cookie: u16)
    ensures Result(Consumed(rx, xs, cookie), Finished) == Yield(rx, cookie, |xs|, Payloads(xs))
    decreases |xs|
  {
    if xs == [] {
      assert rx.delivered + [] == rx.delivered;
    } else {
      var rx' := rx.(cookie := cookie, delivered := rx.delivered + [xs[0].payload]);
      ConsumedIs(rx', xs[1..], Next(cookie));
      YieldNext(rx, rx', Result(Consumed(rx, xs, cookie), Finished), cookie, |xs|, xs[0].payload, Payloads(xs[1..]));
    }
  }

  lemma {:induction false} WalkDelivers(rx: Rx, data: seq<u8>, xs: seq<Piece>, cookie: u16)
    requires ValidPieces(xs) && data == Pieces(xs, cookie)
    ensures Walk(rx, data) == Result(Consumed(rx, xs, cookie), Finished)
    decreases |xs|
  {
    if xs != [] {
      var rx', rest := WalkFirst(rx, data, xs, cookie);
      WalkDelivers(rx', rest, xs[1..], Next(cookie));
    }
  }

  lemma YieldNext(rx: Rx, rx': Rx, end: Result, cookie: u16, n: nat, d: seq<u8>, more: seq<seq<u8>>)
    requires n > 0 && rx' == rx.(cookie := cookie, delivered := rx.delivered + [d])
    requires end == Yield(rx', Next(cookie), n - 1, more)
    ensures end == Yield(rx, cookie, n, [d] + more)
  {
    assert rx.delivered + [d] + more == rx.delivered + ([d] + more);
  }

  lemma WalkFirst(rx: Rx, data: seq<u8>, xs: seq<Piece>, cookie: u16) returns (rx': Rx, rest: seq<u8>)
    requires xs != [] && ValidPieces(xs) && data == Pieces(xs, cookie)
    ensures rx' == rx.(cookie := cookie, delivered := rx.delivered + [xs[0].payload])
    ensures ValidPieces(xs[1..]) && rest == Pieces(xs[1..], Next(cookie)) && Walk(rx, data) == Walk(rx', rest)
  {
    var b := PieceBytes(xs[0], cookie);
    rx' := rx.(cookie := cookie, delivered := rx.delivered + [xs[0].payload]);
    rest := data[|b|..];
    assert data[..|b|] == b && rest == Pieces(xs[1..], Next(cookie));
    PieceDelivers(rx, xs[0], cookie, data);
  }

  /** So do the frames of an aggregate, one after the other. */
  lemma FlagsCutTheEnds(rx: Rx, front: seq<u8>, xs: seq<Piece>, cookie: u16, behind: seq<u8>, len: nat)
    requires |front| <= 3 && (forall i | 0 <= i < |front| :: front[i] == 0xFF) && ValidPieces(xs)
    requires var total := HEADER + |Pieces(xs, Next(cookie))|;
             && total <= 0xFFFF && |front| + total <= len <= |front| + total + |behind|
             && |front| + total + |behind| >= 3 + HEADER
    ensures var packet := Encode(AggHdr(RX_MAGIC, HEADER + |Pieces(xs, Next(cookie))|, cookie)) + Pieces(xs, Next(cookie));
            (Received(rx, front + packet + behind, len, true)
             == Reception(0, Result(rx.(cookie := Later(cookie, |xs|), delivered := rx.delivered + Payloads(xs),
                                        gaps := if Next(rx.cookie) == cookie then rx.gaps else rx.gaps + 1), Finished)))
  {
    var body := Pieces(xs, Next(cookie));
    var h := AggHdr(RX_MAGIC, HEADER + |body|, cookie);
    var packet := Encode(h) + body;
    HeaderFirst(Encode(h), body, packet);
    var d := DataReceived(rx, front, packet, behind, len, h);
    BodyWalked(rx, d, h, xs, cookie);
  }

  lemma BodyWalked(rx: Rx, d: seq<u8>, h: Hdr, xs: seq<Piece>, cookie: u16)
    requires ValidPieces(xs) && h == AggHdr(RX_MAGIC, h.length, cookie) && h.length == HEADER + |Pieces(xs, Next(cookie))|
    requires |d| >= h.length && d[..h.length] == Encode(h) + Pieces(xs, Next(cookie))
    ensures Aggregate(rx, d, h.length)
         == Result(rx.(cookie := Later(cookie, |xs|), delivered := rx.delivered + Payloads(xs),
                       gaps := if Next(rx.cookie) == cookie then rx.gaps else rx.gaps + 1), Finished)
  {
    var body := Pieces(xs, Next(cookie));
    var rx' := rx.(cookie := cookie, gaps := if Next(rx.cookie) == cookie then rx.gaps else rx.gaps + 1);
    AggregateWalks(rx, d, h, body);
    WalkDelivers(rx', body, xs, Next(cookie));
    ConsumedIs(rx', xs, Next(cookie));
  }

  lemma AggregateWalks(rx: Rx, d: seq<u8>, h: Hdr, body: seq<u8>)
    requires ValidHdr(h) && h.length == HEADER + |body| <= |d| && d[..h.length] == Encode(h) + body
    ensures Aggregate(rx, d, h.length)
         == Walk(rx.(cookie := h.cookie, gaps := if Next(rx.cookie) == h.cookie then rx.gaps else rx.gaps + 1), body)
  {
    HeaderFirst(Encode(h), body, d[..h.length]);
    assert d[..HEADER] == d[..h.length][..HEADER] && d[HEADER..h.length] == d[..h.length][HEADER..];
    DecodeEncode(h, d);
  }

  // ------------------------------------------------------------------ everything else

  /** Packets for the control path are handed on whole, without what stands around them, and change
      nothing else; so do credit grants, but for the credit. */
  lemma ControlPassedOn(rx: Rx, front: seq<u8>, packet: seq<u8>, h: Hdr, behind: seq<u8>, len: nat, up: bool)
    requires |front| <= 3 && (forall i | 0 <= i < |front| :: front[i] == 0xFF)
    requires ValidHdr(h) && h.magic == 0x2B1A && h.length == |packet| >= HEADER && packet[..HEADER] == Encode(h)
    requires |front| + |packet| <= len <= |front + packet + behind| && |front + packet + behind| >= 3 + HEADER
    ensures h.kind in {3, 4, 7, 12, 13, 14} ==>
              Received(rx, front + packet + behind, len, up) == Reception(0, Result(rx.(control := rx.control + [packet]), Finished))
    ensures h.kind == 11 ==>
              Received(rx, front + packet + behind, len, up) == Reception(0, Result(rx.(txwnd := h.cookie), Finished))
    ensures h.kind !in {3, 4, 7, 9, 11, 12, 13, 14, 18} || (h.kind in {9, 18} && !up) ==>
              Received(rx, front + packet + behind, len, up) == Reception(0, Result(rx, Finished))
  {
    PacketFound(front, packet, behind, h);
  }

  /** What does not begin with the receive magic, or is shorter than its header says, is refused; only
      the loader's packets may be cut short. */
  lemma RefusedExactly(rx: Rx, data: seq<u8>, len: nat, up: bool)
    requires |data| >= 3 + HEADER && len <= |data|
    ensures var i := Padding(data);
            (Received(rx, data, len, up).ret == -1
             <==> data[i] != 0x1A || data[i + 1] != 0x2B
                  || (len - i < data[i + 4] as int + 0x100 * data[i + 5] as int && data[i + 2] != 7))
    ensures Received(rx, data, len, up).ret in {0, -1}
    ensures Received(rx, data, len, up).ret == -1 ==> Received(rx, data, len, up).end == Result(rx, Finished)
  {}

  // ------------------------------------------------------------------ when the walk ends

  /** One turn of the loop of hgicf_rx_agg_frm, without looking whether it gets anywhere: it exits, it
      breaks on flags that take away more than the payload, or it goes on. */
  datatype Turn = Exit(rx: Rx) | Break(rx: Rx) | On(rx: Rx, data: seq<u8>)

  /** The header at the beginning is one the loop takes. */
  predicate Accepted(data: seq<u8>) {
    |data| > HEADER && Decode(data).magic == RX_MAGIC && Decode(data).kind == FRM2 && Decode(data).length <= |data|
  }

  function OneTurn(rx: Rx, data: seq<u8>): Turn {
    if !Accepted(data) then Exit(rx)
    else
      var one := Single(rx, data, Decode(data).length);
      if one.outcome == Finished then On(one.rx, data[Decode(data).length..]) else Break(one.rx)
  }

  /** n turns. */
  function Turns(rx: Rx, data: seq<u8>, n: nat): Turn
    decreases n
  {
    if n == 0 then On(rx, data)
    else
      match OneTurn(rx, data)
      case On(rx', data') => Turns(rx', data', n - 1)
      case t => t
  }

  /** A turn changes nothing exactly on an accepted header of length 0; otherwise the data shrinks or
      the loop ends. */
  lemma TurnStandsStill(rx: Rx, data: seq<u8>)
    ensures OneTurn(rx, data) == On(rx, data) <==> Accepted(data) && Decode(data).length == 0
    ensures OneTurn(rx, data).On? ==> OneTurn(rx, data) == On(rx, data) || |OneTurn(rx, data).data| < |data|
  {}

  /** Following the lengths, with flags that leave a payload, leads to a length of 0. */
  predicate ReachesZero(data: seq<u8>)
    decreases |data|
  {
    && Accepted(data)
    && var h := Decode(data);
    && (h.length == 0
        || ((h.length <= HEADER || HEADER + h.flags <= h.length) && ReachesZero(data[h.length..])))
  }

  /** What the loop ends with, as turns. */
  predicate Ends(t: Turn, end: Result) {
    (t.Exit? && end == Result(t.rx, Finished)) || (t.Break? && end == Result(t.rx, Overruns))
  }

  lemma {:induction false} GoesOnForEver(rx: Rx, data: seq<u8>, n: nat)
    requires ReachesZero(data)
    ensures Turns(rx, data, n).On?
    decreases n
  {
    if n > 0 {
      var t := OneTurn(rx, data);
      if Decode(data).length == 0 { TurnStandsStill(rx, data); }
      GoesOnForEver(t.rx, t.data, n - 1);
    }
  }

  lemma {:induction false} EndsSometime(rx: Rx, data: seq<u8>) returns (n: nat)
    requires !ReachesZero(data)
    ensures Ends(Turns(rx, data, n), Walk(rx, data))
    decreases |data|
  {
    var t := OneTurn(rx, data);
    if t.On? {
      var m := EndsSometime(t.rx, t.data);
      n := m + 1;
    } else {
      n := 1;
    }
  }

  lemma {:induction false} SpinsAtZero(rx: Rx, data: seq<u8>)
    ensures Walk(rx, data).outcome == Spins <==> ReachesZero(data)
    decreases |data|
  {
    var t := OneTurn(rx, data);
    if t.On? && Decode(data).length != 0 { SpinsAtZero(t.rx, t.data); }
  }

  /** For all data: the loop goes on for ever exactly if the lengths lead to 0, which is when Walk says
      that it spins; otherwise it ends, with what Walk says. */
  lemma WalkIsTheLoop(rx: Rx, data: seq<u8>)
    ensures (forall n: nat :: Turns(rx, data, n).On?) <==> ReachesZero(data)
    ensures Walk(rx, data).outcome == Spins <==> ReachesZero(data)
    ensures !ReachesZero(data) ==> exists n: nat :: Ends(Turns(rx, data, n), Walk(rx, data))
  {
    SpinsAtZero(rx, data);
    if ReachesZero(data) {
      forall n: nat ensures Turns(rx, data, n).On? { GoesOnForEver(rx, data, n); }
    } else {
      var n := EndsSometime(rx, data);
      assert !Turns(rx, data, n).On?;
    }
  }

  /** A body of nine bytes, the header of a frame of length 0 first, is enough. */
  lemma NineBytesSpin(rx: Rx, ifidx: nat, cookie: u16, tail: u8)
    requires ifidx < 16
    ensures ReachesZero(Encode(Hdr(RX_MAGIC, FRM2, ifidx, 0, 0, cookie)) + [tail])
  {
    DecodeEncode(Hdr(RX_MAGIC, FRM2, ifidx, 0, 0, cookie), Encode(Hdr(RX_MAGIC, FRM2, ifidx, 0, 0, cookie)) + [tail]);
  }

  // ------------------------------------------------------------------ the other direction's magic

  function SetMagic(b: seq<u8>, magic: u16): (r: seq<u8>)
    requires |b| >= 2
    ensures |r| == |b|
  {
    Le16(magic) + b[2..]
  }

  /** The same aggregate with another magic in all its headers. */
  function RelabelSubs(bytes: seq<u8>, fs: seq<Frame>, magic: u16): (r: seq<u8>)
    ensures |r| == |bytes|
    decreases |fs|
  {
    if fs == [] || |bytes| < Align4(Length(fs[0])) then bytes
    else
      var n := Align4(Length(fs[0]));
      SetMagic(bytes[..n], magic) + RelabelSubs(bytes[n..], fs[1..], magic)
  }

  function Relabel(bytes: seq<u8>, fs: seq<Frame>, magic: u16): (r: seq<u8>)
    requires |bytes| >= HEADER
    ensures |r| == |bytes|
  {
    SetMagic(bytes[..HEADER], magic) + RelabelSubs(bytes[HEADER..], fs, magic)
  }

  lemma SetMagicHdr(b: seq<u8>, h: Hdr, magic: u16)
    requires ValidHdr(h) && |b| >= HEADER && b[..HEADER] == Encode(h)
    ensures SetMagic(b, magic)[..HEADER] == Encode(h.(magic := magic)) && SetMagic(b, magic)[HEADER..] == b[HEADER..]
  {
    assert b[2..HEADER] == b[..HEADER][2..] == Encode(h)[2..] == Encode(h.(magic := magic))[2..];
    assert SetMagic(b, magic)[..HEADER] == Le16(magic) + b[2..HEADER];
  }

  lemma {:induction false} RelabelledSubs(bytes: seq<u8>, fs: seq<Frame>, from: u16, to: u16, cookie: u16)
    requires IsSubs(bytes, fs, from, cookie)
    ensures IsSubs(RelabelSubs(bytes, fs, to), fs, to, cookie)
    decreases |fs|
  {
    if fs != [] {
      var f := fs[0];
      var n := Align4(Length(f));
      var sub, sub' := bytes[..n], SetMagic(bytes[..n], to);
      SetMagicHdr(sub, FrameHdr(f, from, n, cookie), to);
      assert sub'[HEADER..Length(f)] == sub'[HEADER..][..Length(f) - HEADER] == sub[HEADER..Length(f)];
      RelabelledSubs(bytes[n..], fs[1..], from, to, Next(cookie));
      var all := RelabelSubs(bytes, fs, to);
      assert all[..n] == sub' && all[n..] == RelabelSubs(bytes[n..], fs[1..], to);
    }
  }

  /** Splitting undoes aggregation: an aggregate from the transmit side, sent back with the receive
      magic and any padding around it, yields exactly its frames in order. */
  lemma SplitUndoesAggregation(rx: Rx, front: seq<u8>, sent: seq<u8>, behind: seq<u8>, len: nat, fs: seq<Frame>, cookie: u16)
      returns (ds: seq<seq<u8>>)
    requires |front| <= 3 && (forall i | 0 <= i < |front| :: front[i] == 0xFF)
    requires IsAggregate(sent, fs, TX_MAGIC, cookie) && NonEmpty(fs)
    requires |front| + |sent| <= len <= |front| + |sent| + |behind| && |front| + |sent| + |behind| >= 3 + HEADER
    ensures AllCome(ds, fs)
    ensures Received(rx, front + Relabel(sent, fs, RX_MAGIC) + behind, len, true)
         == Reception(0, Result(rx.(cookie := Later(cookie, |fs|), delivered := rx.delivered + ds,
                                    gaps := if Next(rx.cookie) == cookie then rx.gaps else rx.gaps + 1), Finished))
  {
    var packet := Relabelled(sent, fs, cookie);
    PacketFound(front, packet, behind, AggHdr(RX_MAGIC, |packet|, cookie));
    ds := AggregateYieldsFrames(rx, (front + packet + behind)[|front|..], |packet|, fs, cookie);
  }

  lemma Relabelled(sent: seq<u8>, fs: seq<Frame>, cookie: u16) returns (packet: seq<u8>)
    requires IsAggregate(sent, fs, TX_MAGIC, cookie)
    ensures packet == Relabel(sent, fs, RX_MAGIC) && IsAggregate(packet, fs, RX_MAGIC, cookie)
  {
    packet := Relabel(sent, fs, RX_MAGIC);
    assert sent[..HEADER][..HEADER] == sent[..HEADER];
    SetMagicHdr(sent[..HEADER], AggHdr(TX_MAGIC, |sent|, cookie), RX_MAGIC);
    RelabelledSubs(sent[HEADER..], fs, TX_MAGIC, RX_MAGIC, Next(cookie));
    assert packet[..HEADER] == SetMagic(sent[..HEADER], RX_MAGIC)[..HEADER];
    assert packet[HEADER..] == RelabelSubs(sent[HEADER..], fs, RX_MAGIC);
  }
}

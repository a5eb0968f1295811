/** How data frames go to the bus (hgic_fmac/core.c): one by one, or as many as fit in one
    aggregate, each numbered by the data cookie. */
module TxPath {
  import opened Basics
  import opened Machine
  import opened Frames

  const TX_HEADROOM := 4

  /** How many frames from the head of q fit behind the first used bytes of an aggregate. */
  function Fit(used: nat, q: seq<Frame>, ifAgg: nat): (n: nat)
    ensures n <= |q|
    decreases |q|
  {
    if q == [] || used + Align4(Length(q[0])) > ifAgg then 0
    else 1 + Fit(used + Align4(Length(q[0])), q[1..], ifAgg)
  }

  /** The length of the aggregate then. */
  function Filling(used: nat, q: seq<Frame>, ifAgg: nat): (n: nat)
    ensures n >= used
    decreases |q|
  {
    if q == [] || used + Align4(Length(q[0])) > ifAgg then used
    else Filling(used + Align4(Length(q[0])), q[1..], ifAgg)
  }

  class Fmac {
    var txDataq: seq<Frame>
    var dataCookie: u16

    constructor ()
      ensures txDataq == [] && dataCookie == 0
    {
      txDataq, dataCookie := [], 0;
    }

    method DataCookie() returns (cookie: u16)
      modifies this`dataCookie
      ensures cookie == old(dataCookie) && dataCookie == Next(cookie)
    {
      cookie := dataCookie;
      dataCookie := Half(dataCookie + 1);
    }

    /** Hands one frame to the bus. */
    method TxSingleFrm(f: Frame) returns (bytes: seq<u8>)
      requires ValidFrame(f)
      modifies this`dataCookie
      ensures bytes == SingleBytes(f, TX_MAGIC, old(dataCookie)) && dataCookie == Next(old(dataCookie))
    {
      var cookie := DataCookie();
      bytes := Encode(FrameHdr(f, TX_MAGIC, HEADER + |f.payload|, cookie)) + f.payload;
    }

    /** Hands as many frames to the bus as fit in one aggregate, the first of them already taken
        from the queue; one that does not fit goes back to the head. Without memory the first frame
        goes on its own. Buffers are never smaller than a header; what fits is at most 65535 bytes long, as it
        always is where if_agg is at most that. */
    method TxAggFrm(first: Frame, ifAgg: nat, memory: bool) returns (out: seq<seq<u8>>)
      requires ifAgg > 0 && ValidFrame(first) && ValidFrames(txDataq)
      requires Filling(HEADER, [first] + txDataq, ifAgg) <= 0xFFFF
      modifies this
      ensures var q, c := [first] + old(txDataq), old(dataCookie);
              var n := Fit(HEADER, q, ifAgg);
              if !memory then
                out == [SingleBytes(first, TX_MAGIC, c)] && txDataq == old(txDataq) && dataCookie == Next(c)
              else
                (txDataq == q[n..] && dataCookie == Later(c, 1 + n)
                && if n == 0 then out == []
                   else |out| == 1 && |out[0]| == Filling(HEADER, q, ifAgg) <= ifAgg && IsAggregate(out[0], q[..n], TX_MAGIC, c))
    {
      if !memory {
        var bytes := TxSingleFrm(first);
        return [bytes];
      }
      var size: nat := TX_HEADROOM + ifAgg;
      var buf := new u8[if size < HEADER then HEADER else size];
      var cookie := DataCookie();
      var length: nat := HEADER;
      PutHeader(buf, 0, AggHdr(TX_MAGIC, length, cookie));
      ghost var taken: seq<Frame> := [];
      EmptyAggregate(buf[..], cookie);
      ghost var q, n := [first] + old(txDataq), Fit(HEADER, [first] + old(txDataq), ifAgg);
      var skb := Some(first);
      while skb.Some?
        invariant fresh(buf) && length <= buf.Length
        invariant Inside(buf[..length], taken, skb, txDataq, cookie, dataCookie, ifAgg, q)
        invariant cookie == old(dataCookie)
        decreases |q| - |taken|, skb.Some?
      {
        var f := skb.value;
        if length + Align4(Length(f)) > ifAgg {
          PutBack(buf[..length], taken, f, txDataq, cookie, dataCookie, ifAgg, q);
          txDataq := [f] + txDataq;
          skb := None;
        } else {
          length, skb := TakeFrame(buf, length, f, cookie, ifAgg, taken, q);
          taken := taken + [f];
        }
      }
      assert taken == q[..n] && txDataq == q[n..];
      out := if length > HEADER then [buf[..length]] else [];
    }

    /** Adds the frame in hand to the aggregate and takes the next from the queue. */
    method TakeFrame(buf: array<u8>, length: nat, f: Frame, cookie: u16, ifAgg: nat, ghost taken: seq<Frame>, ghost q: seq<Frame>)
      returns (length': nat, skb: Option<Frame>)
      requires length <= buf.Length && ifAgg <= buf.Length && Filling(HEADER, q, ifAgg) <= 0xFFFF
      requires Inside(buf[..length], taken, Some(f), txDataq, cookie, dataCookie, ifAgg, q)
      requires length + Align4(Length(f)) <= ifAgg
      modifies this, buf
      ensures length' == length + Align4(Length(f))
      ensures Inside(buf[..length'], taken + [f], skb, txDataq, cookie, dataCookie, ifAgg, q)
    {
      ghost var before := txDataq;
      FrameTaken(taken, f, txDataq, length, ifAgg);
      LaterNext(cookie, 1 + |taken|);
      var frameCookie := DataCookie();
      AddFrame(buf, length, f, frameCookie, cookie, taken);
      length' := length + Align4(Length(f));
      skb := Dequeue();
      assert Waiting(skb, txDataq) == before;
    }

    method Dequeue() returns (skb: Option<Frame>)
      modifies this`txDataq
      ensures Waiting(skb, txDataq) == old(txDataq)
      ensures skb.None? ==> txDataq == []
    {
      if txDataq == [] {
        skb := None;
      } else {
        skb := Some(txDataq[0]);
        txDataq := txDataq[1..];
      }
    }
  }

  /** The frame in hand and those queued behind it. */
  function Waiting(skb: Option<Frame>, q: seq<Frame>): seq<Frame> {
    if skb.Some? then [skb.value] + q else q
  }

  /** Half-way through an aggregation of frames from q: those taken are in the aggregate, the others
      in hand and in the queue; when none is in hand, no more fit. */
  predicate Inside(agg: seq<u8>, taken: seq<Frame>, skb: Option<Frame>, queue: seq<Frame>, cookie: u16, dataCookie: u16, ifAgg: nat,
                   q: seq<Frame>) {
    && IsAggregate(agg, taken, TX_MAGIC, cookie) && dataCookie == Later(cookie, 1 + |taken|)
    && (if taken == [] then |agg| == HEADER else HEADER < |agg| <= ifAgg)
    && taken + Waiting(skb, queue) == q && ValidFrames(Waiting(skb, queue))
    && |taken| + (if skb.Some? then Fit(|agg|, Waiting(skb, queue), ifAgg) else 0) == Fit(HEADER, q, ifAgg)
    && (if skb.Some? then Filling(|agg|, Waiting(skb, queue), ifAgg) else |agg|) == Filling(HEADER, q, ifAgg)
  }

  lemma PutBack(agg: seq<u8>, taken: seq<Frame>, f: Frame, queue: seq<Frame>, cookie: u16, dataCookie: u16, ifAgg: nat, q: seq<Frame>)
    requires Inside(agg, taken, Some(f), queue, cookie, dataCookie, ifAgg, q) && |agg| + Align4(Length(f)) > ifAgg
    ensures Inside(agg, taken, None, [f] + queue, cookie, dataCookie, ifAgg, q)
  {}

  lemma FrameTaken(taken: seq<Frame>, f: Frame, q: seq<Frame>, length: nat, ifAgg: nat)
    requires length + Align4(Length(f)) <= ifAgg
    ensures taken + ([f] + q) == taken + [f] + q
    ensures Fit(length, [f] + q, ifAgg) == 1 + Fit(length + Align4(Length(f)), q, ifAgg)
    ensures Filling(length, [f] + q, ifAgg) == Filling(length + Align4(Length(f)), q, ifAgg)
    ensures ValidFrames([f] + q) ==> ValidFrame(f) && ValidFrames(q)
  {
    assert ([f] + q)[1..] == q && ([f] + q)[0] == f;
    if ValidFrames([f] + q) {
      assert forall i | 0 <= i < |q| :: q[i] == ([f] + q)[i + 1];
    }
  }

  lemma EmptyAggregate(b: seq<u8>, cookie: u16)
    requires |b| >= HEADER && b[..HEADER] == Encode(AggHdr(TX_MAGIC, HEADER, cookie))
    ensures IsAggregate(b[..HEADER], [], TX_MAGIC, cookie)
  {
    assert b[..HEADER][..HEADER] == b[..HEADER];
  }

  /** Writes the eight bytes of a header. */
  method PutHeader(buf: array<u8>, at: nat, h: Hdr)
    requires at + HEADER <= buf.Length && ValidHdr(h)
    modifies buf
    ensures buf[..] == old(buf[..at]) + Encode(h) + old(buf[at + HEADER..])
  {
    var e := Encode(h);
    ghost var was := buf[..];
    var i := 0;
    while i < HEADER
      invariant i <= HEADER
      invariant forall k | 0 <= k < buf.Length :: buf[k] == if at <= k < at + i then e[k - at] else was[k]
    {
      buf[at + i] := e[i];
      i := i + 1;
    }
    assert buf[..] == was[..at] + e + was[at + HEADER..];
  }

  /** Adds a frame to the aggregate in the first length bytes. */
  method AddFrame(buf: array<u8>, length: nat, f: Frame, cookie: u16, aggCookie: u16, ghost taken: seq<Frame>)
    requires ValidFrame(f) && length + Align4(Length(f)) <= buf.Length && length + Align4(Length(f)) <= 0xFFFF
    requires IsAggregate(buf[..length], taken, TX_MAGIC, aggCookie) && cookie == Later(aggCookie, 1 + |taken|)
    modifies buf
    ensures IsAggregate(buf[..length + Align4(Length(f))], taken + [f], TX_MAGIC, aggCookie)
  {
    ghost var agg := buf[..length];
    var length' := length + Align4(Length(f));
    AppendFrame(buf, length, f, cookie);
    ghost var all, longer := buf[..], buf[..length'];
    assert longer[..length] == agg;
    assert longer[length..] == buf[length..length'];
    PutHeader(buf, 0, AggHdr(TX_MAGIC, length', aggCookie));
    ghost var end := buf[..length'];
    HeaderPut(all, buf[..], Encode(AggHdr(TX_MAGIC, length', aggCookie)), length');
    HeaderReplaced(longer, end, AggHdr(TX_MAGIC, length', aggCookie));
    BehindHeader(agg, longer, end);
    AggregateGrows(agg, end, taken, f, cookie, aggCookie);
  }

  lemma HeaderPut(b: seq<u8>, b': seq<u8>, e: seq<u8>, n: nat)
    requires |e| == HEADER <= n <= |b| && b' == b[..0] + e + b[HEADER..]
    ensures b'[..n] == e + b[..n][HEADER..]
  {}

  lemma BehindHeader(agg: seq<u8>, longer: seq<u8>, end: seq<u8>)
    requires HEADER <= |agg| <= |longer| == |end| && longer[..|agg|] == agg && end[HEADER..] == longer[HEADER..]
    ensures end[HEADER..|agg|] == agg[HEADER..] && end[|agg|..] == longer[|agg|..]
  {
    assert end[HEADER..|agg|] == end[HEADER..][..|agg| - HEADER] == longer[HEADER..][..|agg| - HEADER];
    assert end[|agg|..] == end[HEADER..][|agg| - HEADER..] == longer[HEADER..][|agg| - HEADER..];
  }

  lemma HeaderReplaced(b: seq<u8>, b': seq<u8>, h: Hdr)
    requires ValidHdr(h) && |b| >= HEADER && b' == Encode(h) + b[HEADER..]
    ensures |b'| == |b| && b'[..HEADER] == Encode(h) && b'[HEADER..] == b[HEADER..]
  {}

  lemma AggregateGrows(agg: seq<u8>, longer: seq<u8>, taken: seq<Frame>, f: Frame, cookie: u16, aggCookie: u16)
    requires IsAggregate(agg, taken, TX_MAGIC, aggCookie) && cookie == Later(aggCookie, 1 + |taken|)
    requires |agg| <= |longer| <= 0xFFFF && longer[HEADER..|agg|] == agg[HEADER..]
    requires longer[..HEADER] == Encode(AggHdr(TX_MAGIC, |longer|, aggCookie))
    requires IsSub(longer[|agg|..], f, TX_MAGIC, cookie)
    ensures IsAggregate(longer, taken + [f], TX_MAGIC, aggCookie)
  {
    SubsEnd(agg[HEADER..], taken, TX_MAGIC, Next(aggCookie), longer[|agg|..], f);
    Halves(longer, HEADER, |agg|);
  }

  lemma Halves(b: seq<u8>, i: nat, j: nat)
    requires i <= j <= |b|
    ensures b[i..] == b[i..j] + b[j..]
  {}

  /** Copies a frame, its header carrying the aligned length, behind the first at bytes. */
  method AppendFrame(buf: array<u8>, at: nat, f: Frame, cookie: u16)
    requires ValidFrame(f) && at + Align4(Length(f)) <= buf.Length && Align4(Length(f)) <= 0xFFFF
    modifies buf
    ensures buf[..at] == old(buf[..at])
    ensures IsSub(buf[at..at + Align4(Length(f))], f, TX_MAGIC, cookie)
  {
    ghost var header := Encode(FrameHdr(f, TX_MAGIC, Align4(Length(f)), cookie));
    PutHeader(buf, at, FrameHdr(f, TX_MAGIC, Align4(Length(f)), cookie));
    var i := 0;
    while i < |f.payload|
      invariant i <= |f.payload|
      invariant buf[..at] == old(buf[..at]) && buf[at..at + HEADER] == header
      invariant buf[at + HEADER..at + HEADER + i] == f.payload[..i]
    {
      buf[at + HEADER + i] := f.payload[i];
      i := i + 1;
    }
    SubIs(buf[..], at, f, cookie);
    assert buf[..][at..at + Align4(Length(f))] == buf[at..at + Align4(Length(f))];
  }

  lemma SubIs(b: seq<u8>, at: nat, f: Frame, cookie: u16)
    requires ValidFrame(f) && at + Align4(Length(f)) <= |b| && Align4(Length(f)) <= 0xFFFF
    requires b[at..at + HEADER] == Encode(FrameHdr(f, TX_MAGIC, Align4(Length(f)), cookie))
    requires b[at + HEADER..at + Length(f)] == f.payload
    ensures IsSub(b[at..at + Align4(Length(f))], f, TX_MAGIC, cookie)
  {
    var sub := b[at..at + Align4(Length(f))];
    assert sub[..HEADER] == b[at..at + HEADER];
    assert sub[HEADER..Length(f)] == b[at + HEADER..at + Length(f)];
  }

  /** When every frame fits an aggregate, an aggregation sends at least one. */
  lemma AggregationProgresses(q: seq<Frame>, ifAgg: nat)
    requires q != []
    ensures Fit(HEADER, q, ifAgg) > 0 <==> HEADER + Align4(Length(q[0])) <= ifAgg
  {}

  /** It is no longer than if_agg, and as long as its header and the frames in it. */
  lemma {:induction false} FillingIsRoom(used: nat, q: seq<Frame>, ifAgg: nat)
    ensures Filling(used, q, ifAgg) == used + Room(q[..Fit(used, q, ifAgg)])
    ensures Filling(used, q, ifAgg) <= if used <= ifAgg then ifAgg else used
    decreases |q|
  {
    if q != [] && used + Align4(Length(q[0])) <= ifAgg {
      var n := Fit(used, q, ifAgg);
      FillingIsRoom(used + Align4(Length(q[0])), q[1..], ifAgg);
      assert q[..n][1..] == q[1..][..n - 1];
    }
  }

  /** What is taken is the longest run of frames that fits. */
  lemma {:induction false} FitIsLongest(used: nat, q: seq<Frame>, ifAgg: nat)
    requires used <= ifAgg
    ensures var n := Fit(used, q, ifAgg);
            used + Room(q[..n]) <= ifAgg && (n < |q| ==> used + Room(q[..n + 1]) > ifAgg)
    decreases |q|
  {
    if q != [] {
      var a := Align4(Length(q[0]));
      if used + a <= ifAgg {
        var n := Fit(used, q, ifAgg);
        FitIsLongest(used + a, q[1..], ifAgg);
        assert q[..n][1..] == q[1..][..n - 1];
        if n < |q| { assert q[..n + 1][1..] == q[1..][..n]; }
      } else {
        assert q[..1][1..] == [];
      }
    }
  }

  /** The bytes frames take up in an aggregate. */
  function Room(fs: seq<Frame>): nat {
    if fs == [] then 0 else Align4(Length(fs[0])) + Room(fs[1..])
  }

  // ------------------------------------------------------------------ what the bus gets

  /** A frame sent on its own: a header with the interface it is for, its length and its number. */
  lemma SingleReadsBack(f: Frame, cookie: u16)
    requires ValidFrame(f)
    ensures var bytes := SingleBytes(f, TX_MAGIC, cookie);
            Decode(bytes) == Hdr(0x1A2B, 9, f.ifidx, 0, 8 + |f.payload|, cookie) && bytes[8..] == f.payload
  {
    var bytes := SingleBytes(f, TX_MAGIC, cookie);
    assert bytes[..HEADER] == Encode(FrameHdr(f, TX_MAGIC, Length(f), cookie));
    DecodeEncode(FrameHdr(f, TX_MAGIC, Length(f), cookie), bytes);
  }

  lemma SubReadsBack(bytes: seq<u8>, f: Frame, cookie: u16)
    requires |bytes| >= Align4(Length(f)) && IsSub(bytes[..Align4(Length(f))], f, TX_MAGIC, cookie)
    ensures Decode(bytes) == Hdr(0x1A2B, 9, f.ifidx, 0, Align4(Length(f)), cookie) && bytes[8..8 + |f.payload|] == f.payload
  {
    var n := Align4(Length(f));
    assert bytes[..HEADER] == bytes[..n][..HEADER];
    DecodeEncode(FrameHdr(f, TX_MAGIC, n, cookie), bytes);
    assert bytes[8..8 + |f.payload|] == bytes[..n][HEADER..Length(f)];
  }

  lemma SliceBehind(b: seq<u8>, i: nat, at: nat, n: nat)
    requires i + at + 8 + n <= |b|
    ensures b[i..][at..] == b[i + at..] && b[i..][at + 8..at + 8 + n] == b[i + at + 8..i + at + 8 + n]
  {}

  lemma {:induction false} SubsReadBack(bytes: seq<u8>, fs: seq<Frame>, cookie: u16, k: nat)
    requires IsSubs(bytes, fs, TX_MAGIC, cookie) && k < |fs|
    ensures var at, f := Room(fs[..k]), fs[k];
            && at + Align4(Length(f)) <= |bytes| && Align4(Length(f)) <= 0xFFFF
            && bytes[at + 8..at + 8 + |f.payload|] == f.payload
            && Decode(bytes[at..]) == Hdr(0x1A2B, 9, f.ifidx, 0, Align4(Length(f)), Later(cookie, k))
    decreases k
  {
    if k == 0 {
      SubReadsBack(bytes, fs[0], cookie);
      assert bytes[0..] == bytes;
    } else {
      var n := Align4(Length(fs[0]));
      SubsReadBack(bytes[n..], fs[1..], Next(cookie), k - 1);
      assert fs[..k][1..] == fs[1..][..k - 1] && fs[..k] != [];
      SliceBehind(bytes, n, Room(fs[1..][..k - 1]), |fs[k].payload|);
    }
  }

  /** The k-th frame of an aggregate lies behind the ones before it, each taking up a multiple of four
      bytes; its header says for which interface it is, and the numbers count up from the aggregate's. */
  lemma AggregateReadsBack(bytes: seq<u8>, fs: seq<Frame>, cookie: u16, k: nat)
    requires IsAggregate(bytes, fs, TX_MAGIC, cookie) && k < |fs|
    ensures Decode(bytes) == Hdr(0x1A2B, 18, 0, 0, |bytes|, cookie)
    ensures var at, f := 8 + Room(fs[..k]), fs[k];
            && at + Align4(Length(f)) <= |bytes| && bytes[at + 8..at + 8 + |f.payload|] == f.payload
            && Decode(bytes[at..]) == Hdr(0x1A2B, 9, f.ifidx, 0, Align4(Length(f)), Half(cookie + k + 1))
  {
    DecodeEncode(AggHdr(TX_MAGIC, |bytes|, cookie), bytes);
    FrameReadsBack(bytes, bytes[8..], fs, Next(cookie), k);
    NumberAt(cookie, k);
  }

  lemma FrameReadsBack(bytes: seq<u8>, body: seq<u8>, fs: seq<Frame>, first: u16, k: nat)
    requires |bytes| >= 8 && body == bytes[8..] && IsSubs(body, fs, TX_MAGIC, first) && k < |fs|
    ensures var at, f := 8 + Room(fs[..k]), fs[k];
            && at + Align4(Length(f)) <= |bytes| && Align4(Length(f)) <= 0xFFFF
            && bytes[at + 8..at + 8 + |f.payload|] == f.payload
            && Decode(bytes[at..]) == Hdr(0x1A2B, 9, f.ifidx, 0, Align4(Length(f)), Later(first, k))
  {
    SubsReadBack(body, fs, first, k);
    SliceBehind(bytes, 8, Room(fs[..k]), |fs[k].payload|);
  }

  lemma NumberAt(cookie: u16, k: nat)
    ensures Later(Next(cookie), k) == Half(cookie + k + 1)
  {
    LaterIsSum(cookie, k + 1);
  }
}

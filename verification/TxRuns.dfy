/** Runs of the transmit worker (hgic_fmac/core.c) together with the network, which queues frames,
    and with whoever clears the queue, in every interleaving; and what the receiver makes of what
    was sent. */
module TxRuns {
  import opened Basics
  import opened Machine
  import opened Frames
  import opened TxPath
  import RxPath

  datatype Packet = Single(f: Frame, cookie: u16) | Agg(fs: seq<Frame>, cookie: u16)

  /** An aggregate under construction: open until a frame did not fit or the queue was empty. */
  datatype Building = Building(cookie: u16, fs: seq<Frame>, used: nat, open: bool)

  /** hand is the frame the worker has taken from the queue. enqueued, sent and cleared are history:
      what came in, went to the bus, and was thrown away. */
  datatype State = State(
    queue: seq<Frame>,
    hand: Option<Frame>,
    agg: Option<Building>,
    dataCookie: u16,
    enqueued: seq<Frame>,
    sent: seq<Packet>,
    cleared: seq<Frame>)

  const Start: State := State([], None, None, 0, [], [], [])

  datatype Step =
    | Enqueue(ifidx: nat, payload: seq<u8>)   // the network hands a frame down
    | Clear                                   // the oldest queued frame is thrown away
    | Pick                                    // the worker takes the oldest frame
    | Begin(memory: bool)                     // it sends it, or begins an aggregate with it
    | Put                                     // it adds it to the aggregate, or puts it back
    | Fetch                                   // it takes the next frame for the aggregate
    | Close                                   // it sends the aggregate

  predicate Enabled(s: State, step: Step) {
    match step
    case Enqueue(ifidx, payload) => ifidx < 16 && HEADER + |payload| <= 0xFFFF
    case Clear => s.queue != []
    case Pick => s.hand.None? && s.agg.None? && s.queue != []
    case Begin(_) => s.hand.Some? && s.agg.None?
    case Put => s.hand.Some? && s.agg.Some? && s.agg.value.open
    case Fetch => s.hand.None? && s.agg.Some? && s.agg.value.open
    case Close => s.hand.None? && s.agg.Some? && !s.agg.value.open
  }

  function Apply(s: State, ifAgg: nat, step: Step): State
    requires Enabled(s, step)
  {
    match step
    case Enqueue(ifidx, payload) =>
      var f := Frame(|s.enqueued|, ifidx, payload);
      s.(queue := s.queue + [f], enqueued := s.enqueued + [f])
    case Clear => s.(queue := s.queue[1..], cleared := s.cleared + [s.queue[0]])
    case Pick => s.(queue := s.queue[1..], hand := Some(s.queue[0]))
    case Begin(memory) =>
      if s.queue != [] && ifAgg != 0 && memory then
        s.(agg := Some(Building(s.dataCookie, [], HEADER, true)), dataCookie := Next(s.dataCookie))
      else
        s.(hand := None, sent := s.sent + [Single(s.hand.value, s.dataCookie)], dataCookie := Next(s.dataCookie))
    case Put =>
      var f, b := s.hand.value, s.agg.value;
      if b.used + Align4(Length(f)) > ifAgg then
        s.(hand := None, queue := [f] + s.queue, agg := Some(b.(open := false)))
      else
        s.(hand := None, agg := Some(b.(fs := b.fs + [f], used := b.used + Align4(Length(f)))),
           dataCookie := Next(s.dataCookie))
    case Fetch =>
      if s.queue == [] then s.(agg := Some(s.agg.value.(open := false)))
      else s.(hand := Some(s.queue[0]), queue := s.queue[1..])
    case Close =>
      var b := s.agg.value;
      s.(agg := None, sent := if b.fs == [] then s.sent else s.sent + [Agg(b.fs, b.cookie)])
  }

  /** A run: steps that cannot be taken are passed over. */
  function Run(s: State, ifAgg: nat, steps: seq<Step>): State
    decreases |steps|
  {
    if steps == [] then s
    else Run(if Enabled(s, steps[0]) then Apply(s, ifAgg, steps[0]) else s, ifAgg, steps[1..])
  }

  // ------------------------------------------------------------------ no frame lost, repeated or overtaken

  function FramesOf(p: Packet): seq<Frame> {
    match p
    case Single(f, _) => [f]
    case Agg(fs, _) => fs
  }

  /** The frames in the packets, one after the other. */
  function Flatten(ps: seq<Packet>): seq<Frame>
    decreases |ps|
  {
    if ps == [] then [] else FramesOf(ps[0]) + Flatten(ps[1..])
  }

  lemma {:induction false} FlattenEnd(ps: seq<Packet>, p: Packet)
    ensures Flatten(ps + [p]) == Flatten(ps) + FramesOf(p)
    decreases |ps|
  {
    if ps == [] {
      assert ps + [p] == [p] && [p][1..] == [];
    } else {
      assert (ps + [p])[1..] == ps[1..] + [p];
      FlattenEnd(ps[1..], p);
    }
  }

  /** What is not yet on the bus: in the aggregate, in hand, in the queue. */
  function Kept(s: State): seq<Frame> {
    (if s.agg.Some? then s.agg.value.fs else []) + Waiting(s.hand, s.queue)
  }

  /** Everything sent or kept, in order. */
  function Live(s: State): seq<Frame> {
    Flatten(s.sent) + Kept(s)
  }

  predicate Ascending(fs: seq<Frame>) {
    forall i, j | 0 <= i < j < |fs| :: fs[i].id < fs[j].id
  }

  predicate Genuine(fs: seq<Frame>, enqueued: seq<Frame>) {
    forall i | 0 <= i < |fs| :: fs[i].id < |enqueued| && enqueued[fs[i].id] == fs[i]
  }

  /** How often a frame number occurs. */
  function Count(fs: seq<Frame>, id: nat): nat {
    if fs == [] then 0 else (if fs[0].id == id then 1 else 0) + Count(fs[1..], id)
  }

  lemma {:induction false} CountConcat(a: seq<Frame>, b: seq<Frame>, id: nat)
    ensures Count(a + b, id) == Count(a, id) + Count(b, id)
  {
    if a == [] {
      assert a + b == b;
    } else {
      assert (a + b)[1..] == a[1..] + b;
      CountConcat(a[1..], b, id);
    }
  }

  ghost predicate EachOnce(live: seq<Frame>, cleared: seq<Frame>, n: nat) {
    forall id: nat :: Count(live, id) + Count(cleared, id) == if id < n then 1 else 0
  }

  predicate Numbered(enqueued: seq<Frame>) {
    forall i | 0 <= i < |enqueued| :: enqueued[i].id == i
  }

  /** Sent and kept frames are in the order in which they came in; they and the cleared ones are as
      they came in; and each that came in is among them once. */
  ghost predicate Orderly(s: State) {
    && Ascending(Live(s)) && Genuine(Live(s), s.enqueued) && Genuine(s.cleared, s.enqueued)
    && Numbered(s.enqueued) && EachOnce(Live(s), s.cleared, |s.enqueued|)
  }

  /** A step of the worker moves frames on without changing their order. */
  lemma WorkerKeepsLive(s: State, ifAgg: nat, step: Step)
    requires Enabled(s, step) && !step.Enqueue? && !step.Clear?
    ensures var s' := Apply(s, ifAgg, step);
            Live(s') == Live(s) && s'.enqueued == s.enqueued && s'.cleared == s.cleared
  {
    var s' := Apply(s, ifAgg, step);
    match step
    case Pick => assert [s.queue[0]] + s.queue[1..] == s.queue;
    case Begin(memory) =>
      var p := Single(s.hand.value, s.dataCookie);
      FlattenEnd(s.sent, p);
      assert Flatten(s.sent) + [s.hand.value] + s.queue == Flatten(s.sent) + ([] + ([s.hand.value] + s.queue));
      assert Flatten(s.sent) + [s.hand.value] + ([] + s.queue) == Flatten(s.sent) + [s.hand.value] + s.queue;
    case Put =>
      var fs := s.agg.value.fs;
      assert fs + [s.hand.value] + s.queue == fs + ([s.hand.value] + s.queue);
    case Fetch => if s.queue != [] { assert [s.queue[0]] + s.queue[1..] == s.queue; }
    case Close =>
      var b := s.agg.value;
      FlattenEnd(s.sent, Agg(b.fs, b.cookie));
      assert Flatten(s.sent) + b.fs + ([] + s.queue) == Flatten(s.sent) + (b.fs + s.queue);
  }

  lemma OneMore(live: seq<Frame>, cleared: seq<Frame>, n: nat, f: Frame)
    requires EachOnce(live, cleared, n) && f.id == n
    ensures EachOnce(live + [f], cleared, n + 1)
  {
    forall id: nat
      ensures Count(live + [f], id) + Count(cleared, id) == if id < n + 1 then 1 else 0
    {
      assert Count(live, id) + Count(cleared, id) == if id < n then 1 else 0;
      CountConcat(live, [f], id);
      assert [f][1..] == [];
    }
  }

  lemma OneCleared(before: seq<Frame>, f: Frame, behind: seq<Frame>, cleared: seq<Frame>, n: nat)
    requires EachOnce(before + [f] + behind, cleared, n)
    ensures EachOnce(before + behind, cleared + [f], n)
  {
    forall id: nat
      ensures Count(before + behind, id) + Count(cleared + [f], id) == if id < n then 1 else 0
    {
      assert Count(before + [f] + behind, id) + Count(cleared, id) == if id < n then 1 else 0;
      CountConcat(before, behind, id);
      CountConcat(before + [f], behind, id);
      CountConcat(before, [f], id);
      CountConcat(cleared, [f], id);
    }
  }

  lemma RemovedKeepsOrder(before: seq<Frame>, f: Frame, behind: seq<Frame>, enqueued: seq<Frame>)
    requires Ascending(before + [f] + behind) && Genuine(before + [f] + behind, enqueued)
    ensures Ascending(before + behind) && Genuine(before + behind, enqueued) && Genuine([f], enqueued)
  {
    var all, k := before + [f] + behind, |before|;
    assert all[k] == f;
    assert forall i | 0 <= i < |before + behind| :: (before + behind)[i] == all[if i < k then i else i + 1];
  }

  lemma EnqueueKeepsOrderly(s: State, ifAgg: nat, step: Step)
    requires Orderly(s) && step.Enqueue? && Enabled(s, step)
    ensures Orderly(Apply(s, ifAgg, step))
  {
    var s' := Apply(s, ifAgg, step);
    var f := Frame(|s.enqueued|, step.ifidx, step.payload);
    assert Live(s') == Live(s) + [f];
    OneMore(Live(s), s.cleared, |s.enqueued|, f);
  }

  lemma ClearKeepsOrderly(s: State, ifAgg: nat)
    requires Orderly(s) && s.queue != []
    ensures Orderly(Apply(s, ifAgg, Clear))
  {
    ClearedLive(s);
    OneCleared(Ahead(s), s.queue[0], s.queue[1..], s.cleared, |s.enqueued|);
    RemovedKeepsOrder(Ahead(s), s.queue[0], s.queue[1..], s.enqueued);
    assert Live(Apply(s, ifAgg, Clear)) == Ahead(s) + s.queue[1..];
  }

  /** Everything ahead of the queue. */
  function Ahead(s: State): seq<Frame> {
    Flatten(s.sent) + (if s.agg.Some? then s.agg.value.fs else []) + (if s.hand.Some? then [s.hand.value] else [])
  }

  lemma ClearedLive(s: State)
    requires s.queue != []
    ensures Live(s) == Ahead(s) + [s.queue[0]] + s.queue[1..]
    ensures Live(s.(queue := s.queue[1..])) == Ahead(s) + s.queue[1..]
  {
    assert [s.queue[0]] + s.queue[1..] == s.queue;
    QueueIsLast(s, s.queue);
    QueueIsLast(s, s.queue[1..]);
    Regroup(Ahead(s), [s.queue[0]], s.queue[1..]);
  }

  lemma QueueIsLast(s: State, queue: seq<Frame>)
    ensures Live(s.(queue := queue)) == Ahead(s) + queue
  {
    var sent, agg, hand := Flatten(s.sent), if s.agg.Some? then s.agg.value.fs else [], if s.hand.Some? then [s.hand.value] else [];
    Regroup(sent + agg, hand, queue);
    Regroup(sent, agg, hand + queue);
  }

  lemma Regroup(a: seq<Frame>, b: seq<Frame>, c: seq<Frame>)
    ensures a + b + c == a + (b + c)
  {}

  lemma StepKeepsOrderly(s: State, ifAgg: nat, step: Step)
    requires Orderly(s) && Enabled(s, step)
    ensures Orderly(Apply(s, ifAgg, step))
  {
    if step.Enqueue? {
      EnqueueKeepsOrderly(s, ifAgg, step);
    } else if step.Clear? {
      ClearKeepsOrderly(s, ifAgg);
    } else {
      WorkerKeepsLive(s, ifAgg, step);
    }
  }

  lemma {:induction false} RunKeepsOrderly(s: State, ifAgg: nat, steps: seq<Step>)
    requires Orderly(s)
    ensures Orderly(Run(s, ifAgg, steps))
    decreases |steps|
  {
    if steps != [] {
      if Enabled(s, steps[0]) { StepKeepsOrderly(s, ifAgg, steps[0]); }
      RunKeepsOrderly(if Enabled(s, steps[0]) then Apply(s, ifAgg, steps[0]) else s, ifAgg, steps[1..]);
    }
  }

  /** How many of the numbers below n occur among the frames. */
  lemma {:induction false} LengthIsCount(s: State, n: nat)
    requires Orderly(s)
    ensures Below(Live(s), n) + Below(s.cleared, n) == if n < |s.enqueued| then n else |s.enqueued|
  {
    if n == 0 {
      NoneBelow(Live(s));
      NoneBelow(s.cleared);
    } else {
      LengthIsCount(s, n - 1);
      BelowNext(Live(s), n - 1);
      BelowNext(s.cleared, n - 1);
    }
  }

  function Below(fs: seq<Frame>, n: nat): nat {
    if fs == [] then 0 else (if fs[0].id < n then 1 else 0) + Below(fs[1..], n)
  }

  lemma {:induction false} NoneBelow(fs: seq<Frame>)
    ensures Below(fs, 0) == 0
  {
    if fs != [] { NoneBelow(fs[1..]); }
  }

  lemma {:induction false} BelowNext(fs: seq<Frame>, n: nat)
    ensures Below(fs, n + 1) == Below(fs, n) + Count(fs, n)
  {
    if fs != [] { BelowNext(fs[1..], n); }
  }

  lemma {:induction false} AllBelow(fs: seq<Frame>, enqueued: seq<Frame>)
    requires Genuine(fs, enqueued)
    ensures Below(fs, |enqueued|) == |fs|
  {
    if fs != [] {
      assert Genuine(fs[1..], enqueued);
      AllBelow(fs[1..], enqueued);
    }
  }

  /** Over every run of enqueues, clears and the worker: what went to the bus are frames that came
      in, unchanged, in the order in which they came in, none twice; and everything that came in was
      sent, is still there, or was cleared. */
  lemma FramesLeaveInOrder(ifAgg: nat, steps: seq<Step>)
    ensures var s := Run(Start, ifAgg, steps);
            && Ascending(Flatten(s.sent)) && Genuine(Flatten(s.sent), s.enqueued)
            && |s.enqueued| == |Flatten(s.sent)| + |Kept(s)| + |s.cleared|
            && forall i | 0 <= i < |Flatten(s.sent)| :: Count(s.cleared, Flatten(s.sent)[i].id) == 0
  {
    RunKeepsOrderly(Start, ifAgg, steps);
    OrderlyMeans(Run(Start, ifAgg, steps));
  }

  lemma OrderlyMeans(s: State)
    requires Orderly(s)
    ensures Ascending(Flatten(s.sent)) && Genuine(Flatten(s.sent), s.enqueued)
    ensures |s.enqueued| == |Flatten(s.sent)| + |Kept(s)| + |s.cleared|
    ensures forall i | 0 <= i < |Flatten(s.sent)| :: Count(s.cleared, Flatten(s.sent)[i].id) == 0
  {
    LengthIsCount(s, |s.enqueued|);
    AllBelow(Live(s), s.enqueued);
    AllBelow(s.cleared, s.enqueued);
    var gone := Flatten(s.sent);
    assert forall i | 0 <= i < |gone| :: gone[i] == Live(s)[i];
    forall i | 0 <= i < |gone| ensures Count(s.cleared, gone[i].id) == 0 {
      Occurs(Live(s), i);
    }
  }

  lemma {:induction false} Occurs(fs: seq<Frame>, i: nat)
    requires i < |fs|
    ensures Count(fs, fs[i].id) >= 1
  {
    if i > 0 { Occurs(fs[1..], i - 1); }
  }

  // ------------------------------------------------------------------ numbering

  function Size(p: Packet): nat {
    match p
    case Single(_, _) => 1
    case Agg(fs, _) => 1 + |fs|
  }

  /** The packets are numbered without a gap from c on, an aggregate taking one number for itself
      and one for each of its frames, of which it has at least one; e is the number after them. */
  predicate Consecutive(ps: seq<Packet>, c: u16, e: u16)
    decreases |ps|
  {
    if ps == [] then c == e
    else ps[0].cookie == c && FramesOf(ps[0]) != [] && Consecutive(ps[1..], Later(c, Size(ps[0])), e)
  }

  lemma {:induction false} ConsecutiveEnd(ps: seq<Packet>, c: u16, e: u16, p: Packet)
    requires Consecutive(ps, c, e) && p.cookie == e && FramesOf(p) != []
    ensures Consecutive(ps + [p], c, Later(e, Size(p)))
    decreases |ps|
  {
    if ps == [] {
      assert ps + [p] == [p] && [p][1..] == [];
    } else {
      assert (ps + [p])[1..] == ps[1..] + [p];
      ConsecutiveEnd(ps[1..], Later(c, Size(ps[0])), e, p);
    }
  }

  /** Every frame that is waiting fits an aggregate. */
  predicate AllFit(fs: seq<Frame>, ifAgg: nat) {
    forall i | 0 <= i < |fs| :: HEADER + Align4(Length(fs[i])) <= ifAgg
  }

  predicate WellNumbered(s: State, c: u16) {
    if s.agg.Some? then
      var b := s.agg.value;
      && Consecutive(s.sent, c, b.cookie) && s.dataCookie == Later(b.cookie, 1 + |b.fs|)
      && (b.fs == [] ==> s.hand.Some? && b.used == HEADER && b.open)
    else Consecutive(s.sent, c, s.dataCookie)
  }

  lemma StepKeepsNumbers(s: State, ifAgg: nat, step: Step, c: u16)
    requires WellNumbered(s, c) && Enabled(s, step)
    requires ifAgg != 0 ==> AllFit(Waiting(s.hand, s.queue), ifAgg)
    ensures ifAgg != 0 || s.agg.None? ==> WellNumbered(Apply(s, ifAgg, step), c)
  {
    match step
    case Begin(memory) =>
      var p := Single(s.hand.value, s.dataCookie);
      ConsecutiveEnd(s.sent, c, s.dataCookie, p);
      LaterOne(s.dataCookie);
    case Put =>
      LaterNext(s.agg.value.cookie, 1 + |s.agg.value.fs|);
      assert Waiting(s.hand, s.queue)[0] == s.hand.value;
    case Close =>
      var b := s.agg.value;
      if b.fs != [] { ConsecutiveEnd(s.sent, c, b.cookie, Agg(b.fs, b.cookie)); }
    case _ =>
  }

  /** What numbering needs, besides, to go on: aggregation is off, or every waiting frame fits. */
  predicate Fitting(s: State, ifAgg: nat) {
    if ifAgg == 0 then s.agg.None? else AllFit(Waiting(s.hand, s.queue), ifAgg)
  }

  predicate FrameFits(step: Step, ifAgg: nat) {
    step.Enqueue? && ifAgg != 0 ==> HEADER + Align4(HEADER + |step.payload|) <= ifAgg
  }

  lemma StepKeepsFitting(s: State, ifAgg: nat, step: Step)
    requires Fitting(s, ifAgg) && Enabled(s, step) && FrameFits(step, ifAgg)
    ensures Fitting(Apply(s, ifAgg, step), ifAgg)
  {
    if ifAgg != 0 {
      var w, w' := Waiting(s.hand, s.queue), Waiting(Apply(s, ifAgg, step).hand, Apply(s, ifAgg, step).queue);
      forall i | 0 <= i < |w'|
        ensures HEADER + Align4(Length(w'[i])) <= ifAgg
      {
        if !(step.Enqueue? && i == |w'| - 1) { StillWaiting(s, ifAgg, step, i); }
      }
    }
  }

  /** A waiting frame that the step did not bring in was waiting before. */
  lemma StillWaiting(s: State, ifAgg: nat, step: Step, i: nat)
    requires Enabled(s, step)
    requires var s' := Apply(s, ifAgg, step);
             i < |Waiting(s'.hand, s'.queue)| && !(step.Enqueue? && i == |Waiting(s'.hand, s'.queue)| - 1)
    ensures var s' := Apply(s, ifAgg, step);
            exists k :: 0 <= k < |Waiting(s.hand, s.queue)| && Waiting(s.hand, s.queue)[k] == Waiting(s'.hand, s'.queue)[i]
  {
    var w, s' := Waiting(s.hand, s.queue), Apply(s, ifAgg, step);
    var k: nat := i + |w| - |Waiting(s'.hand, s'.queue)| + if step.Enqueue? then 1 else 0;
    var k' := if step.Clear? && s.hand.Some? && i == 0 then 0 else k;
    assert w[k'] == Waiting(s'.hand, s'.queue)[i];
  }

  /** Over every run in which every frame fits an aggregate: what has been sent is numbered without
      a gap, across any number of wraps. */
  lemma {:induction false} RunKeepsNumbers(s: State, ifAgg: nat, steps: seq<Step>, c: u16)
    requires WellNumbered(s, c) && Fitting(s, ifAgg)
    requires forall i | 0 <= i < |steps| :: FrameFits(steps[i], ifAgg)
    ensures WellNumbered(Run(s, ifAgg, steps), c)
    decreases |steps|
  {
    if steps != [] {
      assert FrameFits(steps[0], ifAgg);
      if Enabled(s, steps[0]) {
        StepKeepsNumbers(s, ifAgg, steps[0], c);
        StepKeepsFitting(s, ifAgg, steps[0]);
      }
      RunKeepsNumbers(if Enabled(s, steps[0]) then Apply(s, ifAgg, steps[0]) else s, ifAgg, steps[1..], c);
    }
  }

  lemma LaterOne(c: u16)
    ensures Later(c, 1) == Next(c)
  {
    assert Later(Next(c), 0) == Next(c);
  }

  // ------------------------------------------------------------------ both sides agree

  /** len bytes that are received, at the beginning of a buffer that a header behind the padding is
      always in. */
  datatype Bytes = Bytes(data: seq<u8>, len: nat)
  type Arrival = a: Bytes | |a.data| >= 3 + HEADER && a.len <= |a.data| witness Bytes(seq(3 + HEADER, _ => 0), 0)

  function Unpadded(a: Arrival): (d: seq<u8>)
    ensures |d| >= HEADER
  {
    a.data[RxPath.Padding(a.data)..]
  }

  /** The packet arrives whole, with the receive magic, padding in front and anything behind; and no
      frame without payload is in it. */
  predicate OnWire(a: Arrival, p: Packet) {
    var d, n := Unpadded(a), Decode(Unpadded(a)).length;
    && RxPath.Padding(a.data) + n <= a.len
    && match p
       case Single(f, cookie) => ValidFrame(f) && f.payload != [] && d[..n] == SingleBytes(f, RX_MAGIC, cookie)
       case Agg(fs, cookie) => RxPath.NonEmpty(fs) && IsAggregate(d[..n], fs, RX_MAGIC, cookie)
  }

  predicate AllOnWire(wires: seq<Arrival>, ps: seq<Packet>) {
    |wires| == |ps| && forall i | 0 <= i < |ps| :: OnWire(wires[i], ps[i])
  }

  function Receive(rx: RxPath.Rx, a: Arrival): RxPath.Result {
    RxPath.Received(rx, a.data, a.len, true).end
  }

  function ReceiveAll(rx: RxPath.Rx, wires: seq<Arrival>): RxPath.Rx
    decreases |wires|
  {
    if wires == [] then rx else ReceiveAll(Receive(rx, wires[0]).rx, wires[1..])
  }

  /** A payload as it is delivered: with at most three bytes behind it. */
  predicate DeliveredAs(d: seq<u8>, f: Frame) {
    |f.payload| <= |d| <= |f.payload| + 3 && d[..|f.payload|] == f.payload
  }

  predicate AllDelivered(ds: seq<seq<u8>>, fs: seq<Frame>) {
    |ds| == |fs| && forall i | 0 <= i < |fs| :: DeliveredAs(ds[i], fs[i])
  }

  lemma ReceiveOne(rx: RxPath.Rx, w: Arrival, p: Packet) returns (ds: seq<seq<u8>>)
    requires OnWire(w, p)
    ensures AllDelivered(ds, FramesOf(p))
    ensures Receive(rx, w)
         == RxPath.Result(rx.(cookie := Later(p.cookie, Size(p) - 1), delivered := rx.delivered + ds,
                              gaps := if p.Single? || Next(rx.cookie) == p.cookie then rx.gaps else rx.gaps + 1),
                          RxPath.Finished)
  {
    var d, n := Unpadded(w), Decode(Unpadded(w)).length;
    match p
    case Single(f, cookie) =>
      assert d[..HEADER] == d[..n][..HEADER] == Encode(FrameHdr(f, RX_MAGIC, Length(f), cookie));
      DecodeEncode(FrameHdr(f, RX_MAGIC, Length(f), cookie), d);
      RxPath.SingleYieldsFrame(rx, d, f, cookie);
      ds := [f.payload];
    case Agg(fs, cookie) =>
      assert d[..HEADER] == d[..n][..HEADER];
      DecodeEncode(AggHdr(RX_MAGIC, n, cookie), d);
      ds := RxPath.AggregateYieldsFrames(rx, d, n, fs, cookie);
  }

  lemma DeliveredConcat(a: seq<seq<u8>>, b: seq<seq<u8>>, f: seq<Frame>, g: seq<Frame>)
    requires AllDelivered(a, f) && AllDelivered(b, g)
    ensures AllDelivered(a + b, f + g)
  {}

  /** The receiver after the packet it expects. */
  lemma ReceiveExpected(rx: RxPath.Rx, w: Arrival, p: Packet) returns (rx': RxPath.Rx, ds: seq<seq<u8>>)
    requires OnWire(w, p)
    ensures rx' == Receive(rx, w).rx && AllDelivered(ds, FramesOf(p)) && rx'.delivered == rx.delivered + ds
    ensures Next(rx'.cookie) == Later(p.cookie, Size(p))
    ensures rx'.gaps == rx.gaps + if p.Single? || Next(rx.cookie) == p.cookie then 0 else 1
  {
    ds := ReceiveOne(rx, w, p);
    rx' := Receive(rx, w).rx;
    LaterNext(p.cookie, Size(p) - 1);
  }

  lemma AllOnWireTail(wires: seq<Arrival>, ps: seq<Packet>)
    requires AllOnWire(wires, ps) && ps != []
    ensures OnWire(wires[0], ps[0]) && AllOnWire(wires[1..], ps[1..])
  {}

  lemma Associates(a: seq<seq<u8>>, b: seq<seq<u8>>, c: seq<seq<u8>>)
    ensures a + b + c == a + (b + c)
  {}

  /** Whatever is sent numbered without a gap is received without one: no mismatch is reported, and
      every frame is delivered, in order. */
  lemma {:induction false} NumberingAgrees(rx: RxPath.Rx, wires: seq<Arrival>, ps: seq<Packet>, c: u16, e: u16)
      returns (end: RxPath.Rx, ds: seq<seq<u8>>)
    requires AllOnWire(wires, ps) && Consecutive(ps, c, e) && Next(rx.cookie) == c
    ensures end == ReceiveAll(rx, wires) && AllDelivered(ds, Flatten(ps))
    ensures end.gaps == rx.gaps && end.delivered == rx.delivered + ds && Next(end.cookie) == e
    decreases |ps|
  {
    if ps == [] {
      end, ds := rx, [];
    } else {
      AllOnWireTail(wires, ps);
      var rx', one := ReceiveExpected(rx, wires[0], ps[0]);
      var more;
      end, more := NumberingAgrees(rx', wires[1..], ps[1..], Later(c, Size(ps[0])), e);
      ds := one + more;
      DeliveredConcat(one, more, FramesOf(ps[0]), Flatten(ps[1..]));
      Associates(rx.delivered, one, more);
    }
  }

  /** A receiver that comes in at any point: every frame is delivered, in order, and only the first
      packet it gets can be reported, and that only if it is an aggregate it does not expect. */
  lemma OnlyFirstReported(rx: RxPath.Rx, wires: seq<Arrival>, ps: seq<Packet>, c: u16, e: u16) returns (ds: seq<seq<u8>>)
    requires AllOnWire(wires, ps) && Consecutive(ps, c, e)
    ensures var end := ReceiveAll(rx, wires);
            && end.gaps == rx.gaps + (if ps == [] || ps[0].Single? || Next(rx.cookie) == c then 0 else 1)
            && end.delivered == rx.delivered + ds && AllDelivered(ds, Flatten(ps))
  {
    if ps == [] {
      ds := [];
    } else {
      AllOnWireTail(wires, ps);
      var rx', one := ReceiveExpected(rx, wires[0], ps[0]);
      var end, more := NumberingAgrees(rx', wires[1..], ps[1..], Later(c, Size(ps[0])), e);
      ds := one + more;
      DeliveredConcat(one, more, FramesOf(ps[0]), Flatten(ps[1..]));
      Associates(rx.delivered, one, more);
    }
  }

  /** For any lossless mix of single and aggregated frames from the worker, in any interleaving, and
      any receiver, whatever number it has seen last: every frame is delivered, in order, and at most
      the first packet is reported, exactly if it is an aggregate and the receiver does not expect 0. */
  lemma SenderAndReceiverAgree(ifAgg: nat, steps: seq<Step>, rx: RxPath.Rx, wires: seq<Arrival>) returns (ds: seq<seq<u8>>)
    requires forall i | 0 <= i < |steps| :: FrameFits(steps[i], ifAgg)
    requires AllOnWire(wires, Run(Start, ifAgg, steps).sent)
    ensures var sent, end := Run(Start, ifAgg, steps).sent, ReceiveAll(rx, wires);
            && end.gaps == rx.gaps + (if sent == [] || sent[0].Single? || Next(rx.cookie) == 0 then 0 else 1)
            && end.delivered == rx.delivered + ds && AllDelivered(ds, Flatten(sent))
  {
    var s := Run(Start, ifAgg, steps);
    RunKeepsNumbers(Start, ifAgg, steps, 0);
    var e := if s.agg.Some? then s.agg.value.cookie else s.dataCookie;
    ds := OnlyFirstReported(rx, wires, s.sent, 0, e);
  }

  // ------------------------------------------------------------------ an undisturbed aggregation

  /** The steps that put n frames of a queue of the given length into an open aggregate. */
  function AggSteps(n: nat, length: nat): seq<Step>
    requires n <= length
    decreases length
  {
    if n == 0 then [Put]
    else [Put, Fetch] + if length == 1 then [] else AggSteps(n - 1, length - 1)
  }

  /** The state with an aggregate that has been filled from q as far as it goes. */
  function Filled(s: State, b: Building, q: seq<Frame>, ifAgg: nat): State {
    var n := Fit(b.used, q, ifAgg);
    s.(hand := None, queue := q[n..], dataCookie := Later(s.dataCookie, n),
       agg := Some(Building(b.cookie, b.fs + q[..n], b.used + Room(q[..n]), false)))
  }

  /** Nobody interfering, the worker takes what Fit says, as TxAggFrm does. */
  lemma {:induction false} Undisturbed(s: State, ifAgg: nat, b: Building, q: seq<Frame>)
    requires s.agg == Some(b) && b.open && q != [] && s.hand == Some(q[0]) && s.queue == q[1..]
    ensures Run(s, ifAgg, AggSteps(Fit(b.used, q, ifAgg), |q|)) == Filled(s, b, q, ifAgg)
    decreases |q|
  {
    var n := Fit(b.used, q, ifAgg);
    if n == 0 {
      PutBackFills(s, ifAgg, b, q);
    } else {
      var rest := if |q| == 1 then [] else AggSteps(n - 1, |q| - 1);
      TwoSteps(s, ifAgg, Put, Fetch, rest);
      if |q| == 1 {
        LastFills(s, ifAgg, b, q);
      } else {
        var s2 := Apply(Apply(s, ifAgg, Put), ifAgg, Fetch);
        var b' := b.(fs := b.fs + [q[0]], used := b.used + Align4(Length(q[0])));
        Undisturbed(s2, ifAgg, b', q[1..]);
        NextFills(s, ifAgg, b, q);
      }
    }
  }

  lemma PutBackFills(s: State, ifAgg: nat, b: Building, q: seq<Frame>)
    requires s.agg == Some(b) && b.open && q != [] && s.hand == Some(q[0]) && s.queue == q[1..] && Fit(b.used, q, ifAgg) == 0
    ensures Run(s, ifAgg, [Put]) == Filled(s, b, q, ifAgg)
  {
    var s1 := Apply(s, ifAgg, Put);
    assert Run(s, ifAgg, [Put]) == Run(s1, ifAgg, []) == s1;
    assert [q[0]] + q[1..] == q && q[..0] == [] && b.fs + [] == b.fs;
  }

  lemma LastFills(s: State, ifAgg: nat, b: Building, q: seq<Frame>)
    requires s.agg == Some(b) && b.open && |q| == 1 && s.hand == Some(q[0]) && s.queue == q[1..] && Fit(b.used, q, ifAgg) == 1
    ensures Apply(Apply(s, ifAgg, Put), ifAgg, Fetch) == Filled(s, b, q, ifAgg)
  {
    assert q[..1] == q == [q[0]] && q[1..] == [] && [q[0]][1..] == [];
    assert Room(q[..1]) == Align4(Length(q[0])) + Room([]);
    LaterOne(s.dataCookie);
  }

  lemma NextFills(s: State, ifAgg: nat, b: Building, q: seq<Frame>)
    requires s.agg == Some(b) && b.open && |q| > 1 && s.hand == Some(q[0]) && s.queue == q[1..] && Fit(b.used, q, ifAgg) > 0
    ensures var b' := b.(fs := b.fs + [q[0]], used := b.used + Align4(Length(q[0])));
            Filled(Apply(Apply(s, ifAgg, Put), ifAgg, Fetch), b', q[1..], ifAgg) == Filled(s, b, q, ifAgg)
  {
    var s2 := Apply(Apply(s, ifAgg, Put), ifAgg, Fetch);
    assert s2.dataCookie == Next(s.dataCookie) && s2.enqueued == s.enqueued && s2.sent == s.sent && s2.cleared == s.cleared;
    SameFilled(s, s2, ifAgg, b, q);
  }

  lemma SameFilled(s: State, s2: State, ifAgg: nat, b: Building, q: seq<Frame>)
    requires q != [] && Fit(b.used, q, ifAgg) > 0
    requires s2.dataCookie == Next(s.dataCookie) && s2.enqueued == s.enqueued && s2.sent == s.sent && s2.cleared == s.cleared
    ensures var b' := b.(fs := b.fs + [q[0]], used := b.used + Align4(Length(q[0])));
            Filled(s2, b', q[1..], ifAgg) == Filled(s, b, q, ifAgg)
  {
    var n := Fit(b.used, q, ifAgg);
    assert Fit(b.used + Align4(Length(q[0])), q[1..], ifAgg) == n - 1;
    FilledParts(b.fs, q, n);
    assert Later(Next(s.dataCookie), n - 1) == Later(s.dataCookie, n);
  }

  lemma FilledParts(fs: seq<Frame>, q: seq<Frame>, n: nat)
    requires 0 < n <= |q|
    ensures q[1..][n - 1..] == q[n..] && fs + [q[0]] + q[1..][..n - 1] == fs + q[..n]
    ensures Room(q[..n]) == Align4(Length(q[0])) + Room(q[1..][..n - 1])
  {
    assert q[..n][1..] == q[1..][..n - 1];
  }

  lemma TwoSteps(s: State, ifAgg: nat, a: Step, b: Step, rest: seq<Step>)
    requires Enabled(s, a) && Enabled(Apply(s, ifAgg, a), b)
    ensures Run(s, ifAgg, [a, b] + rest) == Run(Apply(Apply(s, ifAgg, a), ifAgg, b), ifAgg, rest)
  {
    assert ([a, b] + rest)[1..] == [b] + rest && ([b] + rest)[1..] == rest;
  }

  // ------------------------------------------------------------------ a frame that does not fit

  /** A run in which nothing is thrown away and there is memory for every aggregate. */
  predicate Undropped(steps: seq<Step>) {
    forall i | 0 <= i < |steps| :: !steps[i].Clear? && (steps[i].Begin? ==> steps[i].memory)
  }

  /** The worker is between frames, f at the head of the queue and others behind it; or it is
      somewhere between taking f and putting it back. */
  predicate Stuck(s: State, f: Frame) {
    if s.agg.None? then
      if s.hand.None? then |s.queue| >= 2 && s.queue[0] == f
      else s.hand.value == f && s.queue != []
    else
      var b := s.agg.value;
      && b.fs == [] && b.used == HEADER
      && if b.open then s.hand == Some(f) && s.queue != []
         else s.hand.None? && |s.queue| >= 2 && s.queue[0] == f
  }

  lemma StepKeepsStuck(s: State, ifAgg: nat, step: Step, f: Frame)
    requires Stuck(s, f) && Enabled(s, step) && ifAgg != 0 && HEADER + Align4(Length(f)) > ifAgg
    requires !step.Clear? && (step.Begin? ==> step.memory)
    ensures var s' := Apply(s, ifAgg, step); Stuck(s', f) && s'.sent == s.sent
  {}

  lemma {:induction false} StuckForEver(s: State, ifAgg: nat, steps: seq<Step>, f: Frame)
    requires Stuck(s, f) && ifAgg != 0 && HEADER + Align4(Length(f)) > ifAgg && Undropped(steps)
    ensures Run(s, ifAgg, steps).sent == s.sent
    decreases |steps|
  {
    if steps != [] {
      if Enabled(s, steps[0]) { StepKeepsStuck(s, ifAgg, steps[0], f); }
      assert Undropped(steps[1..]);
      StuckForEver(if Enabled(s, steps[0]) then Apply(s, ifAgg, steps[0]) else s, ifAgg, steps[1..], f);
    }
  }

  /** Otherwise it goes out, on its own or in an aggregate. */
  lemma GoesOut(s: State, ifAgg: nat, f: Frame, rest: seq<Frame>) returns (steps: seq<Step>)
    requires s.agg.None? && s.hand.None? && s.queue == [f] + rest
    requires ifAgg == 0 || rest == [] || HEADER + Align4(Length(f)) <= ifAgg
    ensures Undropped(steps) && |Run(s, ifAgg, steps).sent| > |s.sent|
  {
    var s1 := Apply(s, ifAgg, Pick);
    assert s.queue[1..] == rest;
    var s2 := Apply(s1, ifAgg, Begin(true));
    if ifAgg == 0 || rest == [] {
      steps := [Pick, Begin(true)] + [];
      TwoSteps(s, ifAgg, Pick, Begin(true), []);
    } else {
      var b, n := s2.agg.value, Fit(HEADER, [f] + rest, ifAgg);
      var fill := AggSteps(n, |rest| + 1);
      steps := [Pick, Begin(true)] + (fill + [Close]);
      TwoSteps(s, ifAgg, Pick, Begin(true), fill + [Close]);
      Undisturbed(s2, ifAgg, b, [f] + rest);
      RunConcat(s2, ifAgg, fill, [Close]);
      FilledCloses(s2, ifAgg, b, [f] + rest);
      FillUndropped(n, |rest| + 1);
    }
  }

  lemma FilledCloses(s: State, ifAgg: nat, b: Building, q: seq<Frame>)
    requires Fit(b.used, q, ifAgg) > 0
    ensures |Run(Filled(s, b, q, ifAgg), ifAgg, [Close]).sent| > |s.sent|
  {
    var s' := Filled(s, b, q, ifAgg);
    assert [Close][1..] == [];
    assert Run(s', ifAgg, [Close]) == Run(Apply(s', ifAgg, Close), ifAgg, []);
  }

  lemma {:induction false} FillUndropped(n: nat, length: nat)
    requires n <= length
    ensures Undropped(AggSteps(n, length))
    decreases length
  {
    if n > 0 && length > 1 { FillUndropped(n - 1, length - 1); }
  }

  lemma {:induction false} RunConcat(s: State, ifAgg: nat, a: seq<Step>, b: seq<Step>)
    ensures Run(s, ifAgg, a + b) == Run(Run(s, ifAgg, a), ifAgg, b)
    decreases |a|
  {
    if a == [] {
      assert a + b == b;
    } else {
      assert (a + b)[1..] == a[1..] + b;
      RunConcat(if Enabled(s, a[0]) then Apply(s, ifAgg, a[0]) else s, ifAgg, a[1..], b);
    }
  }

  /** From a state with the worker between frames and f at the head of the queue: nothing is ever sent
      again, while nothing is thrown away and there is memory, exactly if aggregation is on, another
      frame is queued behind f, and f does not fit. */
  lemma PutBackForEver(s: State, ifAgg: nat, f: Frame, rest: seq<Frame>)
    requires s.agg.None? && s.hand.None? && s.queue == [f] + rest
    ensures (forall steps | Undropped(steps) :: Run(s, ifAgg, steps).sent == s.sent)
       <==> ifAgg != 0 && rest != [] && HEADER + Align4(Length(f)) > ifAgg
  {
    if ifAgg != 0 && rest != [] && HEADER + Align4(Length(f)) > ifAgg {
      forall steps | Undropped(steps)
        ensures Run(s, ifAgg, steps).sent == s.sent
      {
        StuckForEver(s, ifAgg, steps, f);
      }
    } else {
      var steps := GoesOut(s, ifAgg, f, rest);
      assert Undropped(steps) && Run(s, ifAgg, steps).sent != s.sent;
    }
  }
}

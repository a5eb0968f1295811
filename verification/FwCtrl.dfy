/** Commands to the firmware and their responses (utils/fwctrl.c): callers draw a cookie, list
    themselves as waiting, queue a packet and wait; responses are matched by cookie; any caller
    may time out at any moment. What each does under the lock is one step, and the steps of all
    callers, of the receive work and of the transmitter interleave freely. */
module FwCtrl {
  import opened Basics
  import opened Machine

  const COOKIES := 0x8000
  const TXQ_LIMIT := 4

  datatype Kind = Response | Event | Unknown

  /** A received buffer; to is the number of the draw that the request it answers came from. */
  datatype Buffer = Buffer(id: nat, kind: Kind, cookie: u16, to: nat)

  /** Where a caller's cookie comes from: its own draw, or without one, as for the data blocks of
      the boot loader and for OTA packets. */
  datatype Origin = Drawn(serial: nat) | Reused

  datatype Stage = Listed | Checked | Queued

  datatype Waiter = Waiter(cookie: u16, origin: Origin, stage: Stage, skb: Option<Buffer>)

  /** The cookie of the n-th draw. */
  function CookieOf(n: nat): u16 {
    n % COOKIES
  }

  /** The first waiter with the cookie, or the length of the list. */
  function Match(pdList: seq<Waiter>, cookie: u16): (i: nat)
    ensures i <= |pdList| && (i < |pdList| ==> pdList[i].cookie == cookie)
    ensures forall j | 0 <= j < i :: pdList[j].cookie != cookie
  {
    if pdList == [] || pdList[0].cookie == cookie then 0
    else
      assert forall j | 1 <= j < |pdList| :: pdList[j] == pdList[1..][j - 1];
      1 + Match(pdList[1..], cookie)
  }

  lemma MatchIs(pdList: seq<Waiter>, cookie: u16, i: nat)
    requires i <= |pdList| && (i < |pdList| ==> pdList[i].cookie == cookie)
    requires forall j | 0 <= j < i :: pdList[j].cookie != cookie
    ensures Match(pdList, cookie) == i
  {}

  function Attach(pdList: seq<Waiter>, b: Buffer): seq<Waiter> {
    var i := Match(pdList, b.cookie);
    if i < |pdList| then pdList[i := pdList[i].(skb := Some(b))] else pdList
  }

  /** The queue after room has been made in it. */
  function Room(txq: seq<u16>): seq<u16> {
    if |txq| > TXQ_LIMIT then txq[1..] else txq
  }

  // ------------------------------------------------------------------ what runs under the lock

  class Ctrl {
    var cookie: u16
    var pdList: seq<Waiter>
    var rxq: seq<Buffer>
    var txq: seq<u16>

    constructor ()
      ensures cookie == 0 && pdList == [] && rxq == [] && txq == []
    {
      cookie, pdList, rxq, txq := 0, [], [], [];
    }

    /** The n-th call returns the n-th cookie. */
    method CtrlCookie(ghost n: nat) returns (c: u16)
      requires cookie == CookieOf(n)
      modifies this`cookie
      ensures c == n % 0x8000 && cookie == CookieOf(n + 1)
    {
      c := cookie;
      cookie := (c + 1) % COOKIES;
    }

    /** Gives the response to the first waiter with its cookie. */
    method RxResponse(b: Buffer) returns (found: bool)
      modifies this`pdList
      ensures pdList == Attach(old(pdList), b)
      ensures found == (Match(old(pdList), b.cookie) < |old(pdList)|)
    {
      var i := 0;
      while i < |pdList|
        invariant i <= |pdList| && pdList == old(pdList)
        invariant forall j | 0 <= j < i :: pdList[j].cookie != b.cookie
      {
        if pdList[i].cookie == b.cookie {
          MatchIs(pdList, b.cookie, i);
          pdList := pdList[i := pdList[i].(skb := Some(b))];
          return true;
        }
        i := i + 1;
      }
      MatchIs(pdList, b.cookie, i);
      found := false;
    }

    /** Empties the receive queue: responses go to waiters, events to their handler, the rest is
        freed. */
    method Work() returns (freed: seq<Buffer>, events: seq<Buffer>)
      modifies this`pdList, this`rxq
      ensures rxq == []
      ensures Outcome(pdList, freed, events) == HandleAll(old(pdList), old(rxq))
    {
      freed, events := [], [];
      ghost var end := HandleAll(pdList, rxq);
      while rxq != []
        invariant end == After(freed, events, HandleAll(pdList, rxq))
        decreases |rxq|
      {
        var b := rxq[0];
        HandleOne(pdList, rxq, freed, events);
        rxq := rxq[1..];
        match b.kind
        case Response =>
          var found := RxResponse(b);
          if !found { freed := freed + [b]; }
        case Event => events := events + [b];
        case Unknown => freed := freed + [b];
      }
    }

    /** The first part of sending: lists the waiter and queues the packet, dropping the oldest
        packet of a full queue. */
    method SendStart(w: Waiter) returns (dropped: seq<u16>)
      requires w.stage == Listed
      modifies this`pdList, this`txq
      ensures pdList == [w.(stage := Queued)] + old(pdList)
      ensures txq == (if |old(txq)| > 4 then old(txq)[1..] else old(txq)) + [w.cookie]
      ensures dropped == if |old(txq)| > 4 then [old(txq)[0]] else []
    {
      dropped := [];
      pdList := [w] + pdList;
      if |txq| > TXQ_LIMIT {
        dropped := [txq[0]];
        txq := txq[1..];
      }
      txq := txq + [w.cookie];
      pdList := pdList[0 := w.(stage := Queued)];
    }

    /** The last part: takes the waiter off the list and returns what it has got. */
    method SendEnd(i: nat) returns (skb: Option<Buffer>)
      requires i < |pdList|
      modifies this`pdList
      ensures skb == old(pdList)[i].skb && pdList == old(pdList)[..i] + old(pdList)[i + 1..]
    {
      skb := pdList[i].skb;
      pdList := pdList[..i] + pdList[i + 1..];
    }
  }

  datatype Outcome = Outcome(pdList: seq<Waiter>, freed: seq<Buffer>, events: seq<Buffer>)

  /** Handling buffers one after the other. */
  function HandleAll(pdList: seq<Waiter>, rxq: seq<Buffer>): Outcome
    decreases |rxq|
  {
    if rxq == [] then Outcome(pdList, [], [])
    else
      var b := rxq[0];
      var rest := HandleAll(if b.kind == Response then Attach(pdList, b) else pdList, rxq[1..]);
      Outcome(rest.pdList, (if Freed(pdList, b) then [b] else []) + rest.freed,
              (if b.kind == Event then [b] else []) + rest.events)
  }

  /** An outcome after what was freed and handed over before. */
  function After(freed: seq<Buffer>, events: seq<Buffer>, o: Outcome): Outcome {
    Outcome(o.pdList, freed + o.freed, events + o.events)
  }

  lemma HandleOne(pdList: seq<Waiter>, rxq: seq<Buffer>, freed: seq<Buffer>, events: seq<Buffer>)
    requires rxq != []
    ensures After(freed, events, HandleAll(pdList, rxq))
         == After(if Freed(pdList, rxq[0]) then freed + [rxq[0]] else freed,
                  if rxq[0].kind == Event then events + [rxq[0]] else events,
                  HandleAll(if rxq[0].kind == Response then Attach(pdList, rxq[0]) else pdList, rxq[1..]))
  {
    var b := rxq[0];
    var rest := HandleAll(if b.kind == Response then Attach(pdList, b) else pdList, rxq[1..]);
    assert freed + ([b] + rest.freed) == freed + [b] + rest.freed && freed + ([] + rest.freed) == freed + rest.freed;
    assert events + ([b] + rest.events) == events + [b] + rest.events && events + ([] + rest.events) == events + rest.events;
  }

  /** A response is freed if no waiter has its cookie; what is neither response nor event always. */
  predicate Freed(pdList: seq<Waiter>, b: Buffer) {
    b.kind == Unknown || (b.kind == Response && Match(pdList, b.cookie) == |pdList|)
  }

  // ------------------------------------------------------------------ all the steps together

  /** drawn counts the cookies drawn; ready holds the callers that have a cookie but are not yet
      listed. The rest of the second half is history: what has happened to requests and buffers. */
  datatype State = State(
    drawn: nat,
    ready: seq<Waiter>,
    pdList: seq<Waiter>,
    txq: seq<u16>,
    rxq: seq<Buffer>,
    queued: seq<u16>,
    gone: seq<u16>,
    received: multiset<Buffer>,
    returned: seq<Waiter>,
    freed: multiset<Buffer>,
    leaked: multiset<Buffer>,
    events: multiset<Buffer>)

  const Start: State := State(0, [], [], [], [], [], [], multiset{}, [], multiset{}, multiset{}, multiset{})

  datatype Step =
    | Draw                      // a command takes a fresh cookie
    | DrawUnused                // an OTA packet draws a cookie and uses 0
    | Reuse(cookie: u16)        // a data block takes the cookie of an earlier command
    | Enlist(i: nat)            // a ready caller goes to the head of the list
    | MakeRoom(i: nat)          // it looks at the queue and drops the oldest packet of a full one
    | Queue(i: nat)             // it queues its packet
    | Transmit                  // the oldest packet leaves the queue, to the bus or cleared
    | Arrive(b: Buffer)         // a buffer is received
    | Handle                    // the receive work takes the oldest buffer
    | Leave(i: nat)             // a caller, answered or timed out, goes with what it has got

  function Without<T>(s: seq<T>, i: nat): seq<T>
    requires i < |s|
  {
    s[..i] + s[i + 1..]
  }

  predicate Enabled(s: State, step: Step) {
    match step
    case Enlist(i) => i < |s.ready|
    case MakeRoom(i) => i < |s.pdList| && s.pdList[i].stage == Listed
    case Queue(i) => i < |s.pdList| && s.pdList[i].stage == Checked
    case Transmit => s.txq != []
    case Handle => s.rxq != []
    case Leave(i) => i < |s.pdList| && s.pdList[i].stage == Queued
    case _ => true
  }

  function Apply(s: State, step: Step): State
    requires Enabled(s, step)
  {
    match step
    case Draw =>
      s.(drawn := s.drawn + 1, ready := s.ready + [Waiter(CookieOf(s.drawn), Drawn(s.drawn), Listed, None)])
    case DrawUnused =>
      s.(drawn := s.drawn + 1, ready := s.ready + [Waiter(0, Reused, Listed, None)])
    case Reuse(cookie) =>
      s.(ready := s.ready + [Waiter(cookie, Reused, Listed, None)])
    case Enlist(i) =>
      s.(ready := Without(s.ready, i), pdList := [s.ready[i]] + s.pdList)
    case MakeRoom(i) =>
      s.(pdList := s.pdList[i := s.pdList[i].(stage := Checked)],
         txq := Room(s.txq),
         gone := if |s.txq| > TXQ_LIMIT then s.gone + [s.txq[0]] else s.gone)
    case Queue(i) =>
      s.(pdList := s.pdList[i := s.pdList[i].(stage := Queued)],
         txq := s.txq + [s.pdList[i].cookie],
         queued := s.queued + [s.pdList[i].cookie])
    case Transmit =>
      s.(txq := s.txq[1..], gone := s.gone + [s.txq[0]])
    case Arrive(b) =>
      s.(rxq := s.rxq + [b], received := s.received + multiset{b})
    case Handle =>
      Handled(s.(rxq := s.rxq[1..]), s.rxq[0])
    case Leave(i) =>
      s.(pdList := Without(s.pdList, i), returned := s.returned + [s.pdList[i]])
  }

  function Handled(s: State, b: Buffer): State {
    match b.kind
    case Event => s.(events := s.events + multiset{b})
    case Unknown => s.(freed := s.freed + multiset{b})
    case Response =>
      var i := Match(s.pdList, b.cookie);
      if i < |s.pdList| then
        s.(pdList := Attach(s.pdList, b),
           leaked := s.leaked + (if s.pdList[i].skb.Some? then multiset{s.pdList[i].skb.value} else multiset{}))
      else s.(freed := s.freed + multiset{b})
  }

  /** A run: steps that cannot be taken are passed over. */
  function Run(s: State, steps: seq<Step>): State
    decreases |steps|
  {
    if steps == [] then s
    else Run(if Enabled(s, steps[0]) then Apply(s, steps[0]) else s, steps[1..])
  }

  lemma RunStep(s: State, step: Step, rest: seq<Step>)
    requires Enabled(s, step)
    ensures Run(s, [step] + rest) == Run(Apply(s, step), rest)
  {
    assert ([step] + rest)[1..] == rest;
  }

  lemma {:induction false} RunConcat(s: State, a: seq<Step>, b: seq<Step>)
    ensures Run(s, a + b) == Run(Run(s, a), b)
    decreases |a|
  {
    if a == [] {
      assert a + b == b;
    } else {
      assert (a + b)[1..] == a[1..] + b;
      RunConcat(if Enabled(s, a[0]) then Apply(s, a[0]) else s, a[1..], b);
    }
  }

  function Handles(n: nat): (steps: seq<Step>)
    ensures |steps| == n
  {
    if n == 0 then [] else [Handle] + Handles(n - 1)
  }

  /** Handle steps until the queue is empty. */
  function HandleRun(s: State): State
    decreases |s.rxq|
  {
    if s.rxq == [] then s else HandleRun(HandleNext(s))
  }

  function HandleNext(s: State): (s': State)
    requires s.rxq != []
    ensures s'.rxq == s.rxq[1..]
  {
    Apply(s, Handle)
  }

  lemma {:induction false} HandleRunIsRun(s: State)
    ensures HandleRun(s) == Run(s, Handles(|s.rxq|))
    decreases |s.rxq|
  {
    if s.rxq != [] {
      HandleRunIsRun(HandleNext(s));
      assert Handles(|s.rxq|)[1..] == Handles(|s.rxq| - 1);
    }
  }

  /** One run of the receive work is as many steps as there are buffers. */
  lemma {:induction false} WorkIsSteps(s: State, x: Buffer)
    ensures var end := HandleAll(s.pdList, s.rxq);
            var s' := HandleRun(s);
            && s'.rxq == [] && s'.pdList == end.pdList
            && s'.freed[x] == s.freed[x] + multiset(end.freed)[x] && s'.events[x] == s.events[x] + multiset(end.events)[x]
    decreases |s.rxq|
  {
    if s.rxq != [] {
      HandleFacts(s, x);
      WorkIsSteps(HandleNext(s), x);
      CountHandled(s.pdList, s.rxq, x);
    }
  }

  function One(c: bool): nat {
    if c then 1 else 0
  }

  lemma HandleFacts(s: State, x: Buffer)
    requires s.rxq != []
    ensures var b, s1 := s.rxq[0], HandleNext(s);
            && s1.rxq == s.rxq[1..] && s1.pdList == (if b.kind == Response then Attach(s.pdList, b) else s.pdList)
            && s1.freed[x] == s.freed[x] + One(Freed(s.pdList, b) && b == x)
            && s1.events[x] == s.events[x] + One(b.kind == Event && b == x)
  {}

  lemma CountHandled(pdList: seq<Waiter>, rxq: seq<Buffer>, x: Buffer)
    requires rxq != []
    ensures var b, end := rxq[0], HandleAll(pdList, rxq);
            var rest := HandleAll(if b.kind == Response then Attach(pdList, b) else pdList, rxq[1..]);
            && end.pdList == rest.pdList
            && multiset(end.freed)[x] == One(Freed(pdList, b) && b == x) + multiset(rest.freed)[x]
            && multiset(end.events)[x] == One(b.kind == Event && b == x) + multiset(rest.events)[x]
  {
    var b := rxq[0];
    var rest := HandleAll(if b.kind == Response then Attach(pdList, b) else pdList, rxq[1..]);
    Counts(if Freed(pdList, b) then [b] else [], rest.freed, x);
    Counts(if b.kind == Event then [b] else [], rest.events, x);
  }

  lemma Counts(a: seq<Buffer>, b: seq<Buffer>, x: Buffer)
    ensures multiset(a + b)[x] == multiset(a)[x] + multiset(b)[x]
  {
    assert multiset(a + b) == multiset(a) + multiset(b);
  }

  /** Undisturbed, a caller's first three steps do what SendStart does. */
  lemma SendStartIsSteps(s: State, i: nat)
    requires i < |s.ready| && s.ready[i].stage == Listed
    ensures var s', w := Run(s, [Enlist(i), MakeRoom(0), Queue(0)]), s.ready[i];
            && s'.pdList == [w.(stage := Queued)] + s.pdList
            && s'.txq == Room(s.txq) + [w.cookie] && s'.gone + Room(s.txq) == s.gone + s.txq
  {
    var s1 := Apply(s, Enlist(i));
    var s2 := Apply(s1, MakeRoom(0));
    var s3 := Apply(s2, Queue(0));
    assert Run(s2, [Queue(0)]) == Run(s3, []) == s3;
    assert Run(s1, [MakeRoom(0), Queue(0)]) == Run(s2, [Queue(0)]);
    assert Run(s, [Enlist(i), MakeRoom(0), Queue(0)]) == Run(s1, [MakeRoom(0), Queue(0)]);
    assert |s.txq| > TXQ_LIMIT ==> s.txq == [s.txq[0]] + s.txq[1..];
  }

  // ------------------------------------------------------------------ a waiter gets its own cookie

  predicate OwnCookie(w: Waiter) {
    w.skb.Some? ==> w.skb.value.kind == Response && w.skb.value.cookie == w.cookie
  }

  predicate AllOwn(ws: seq<Waiter>) {
    forall i | 0 <= i < |ws| :: OwnCookie(ws[i])
  }

  predicate OwnCookies(s: State) {
    AllOwn(s.ready) && AllOwn(s.pdList) && AllOwn(s.returned)
  }

  lemma StepKeepsOwn(s: State, step: Step)
    requires OwnCookies(s) && Enabled(s, step)
    ensures OwnCookies(Apply(s, step))
  {}

  /** In every interleaving, what a caller gets carries the cookie it waits for. */
  lemma {:induction false} WaitersGetOwnCookie(s: State, steps: seq<Step>)
    requires OwnCookies(s)
    ensures OwnCookies(Run(s, steps))
    decreases |steps|
  {
    if steps != [] {
      if Enabled(s, steps[0]) { StepKeepsOwn(s, steps[0]); }
      WaitersGetOwnCookie(if Enabled(s, steps[0]) then Apply(s, steps[0]) else s, steps[1..]);
    }
  }

  // ------------------------------------------------------------------ requests are not lost unseen

  predicate TxAccounted(s: State) {
    s.queued == s.gone + s.txq
  }

  lemma StepKeepsTx(s: State, step: Step)
    requires TxAccounted(s) && Enabled(s, step)
    ensures TxAccounted(Apply(s, step))
  {}

  /** Packets leave the queue in the order in which they were queued. */
  lemma {:induction false} PacketsLeaveInOrder(s: State, steps: seq<Step>)
    requires TxAccounted(s)
    ensures TxAccounted(Run(s, steps))
    decreases |steps|
  {
    if steps != [] {
      if Enabled(s, steps[0]) { StepKeepsTx(s, steps[0]); }
      PacketsLeaveInOrder(if Enabled(s, steps[0]) then Apply(s, steps[0]) else s, steps[1..]);
    }
  }

  /** From the start on, both. */
  lemma EveryRunFromStart(steps: seq<Step>)
    ensures OwnCookies(Run(Start, steps)) && TxAccounted(Run(Start, steps))
  {
    WaitersGetOwnCookie(Start, steps);
    PacketsLeaveInOrder(Start, steps);
  }
}

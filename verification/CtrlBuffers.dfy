/** Where received buffers go (utils/fwctrl.c): none is lost or freed twice, and when one leaks. */
module CtrlBuffers {
  import opened Basics
  import opened FwCtrl

  /** How many of the waiters hold the buffer. */
  function Held(ws: seq<Waiter>, b: Buffer): nat {
    if ws == [] then 0 else HeldBy(ws[0], b) + Held(ws[1..], b)
  }

  function HeldBy(w: Waiter, b: Buffer): nat {
    if w.skb == Some(b) then 1 else 0
  }

  lemma {:induction false} HeldConcat(v: seq<Waiter>, w: seq<Waiter>, b: Buffer)
    ensures Held(v + w, b) == Held(v, b) + Held(w, b)
  {
    if v == [] {
      assert v + w == w;
    } else {
      assert (v + w)[1..] == v[1..] + w;
      HeldConcat(v[1..], w, b);
    }
  }

  lemma HeldSplit(ws: seq<Waiter>, i: nat, b: Buffer)
    requires i < |ws|
    ensures Held(ws, b) == Held(ws[..i], b) + HeldBy(ws[i], b) + Held(ws[i + 1..], b)
    ensures Held(Without(ws, i), b) + HeldBy(ws[i], b) == Held(ws, b)
  {
    assert ws == ws[..i] + ws[i..];
    HeldConcat(ws[..i], ws[i..], b);
    HeldConcat(ws[..i], ws[i + 1..], b);
  }

  lemma HeldUpdate(ws: seq<Waiter>, i: nat, w: Waiter, b: Buffer)
    requires i < |ws|
    ensures Held(ws[i := w], b) + HeldBy(ws[i], b) == Held(ws, b) + HeldBy(w, b)
  {
    HeldSplit(ws, i, b);
    HeldSplit(ws[i := w], i, b);
    assert ws[i := w][..i] == ws[..i] && ws[i := w][i + 1..] == ws[i + 1..];
  }

  lemma HeldEnd(ws: seq<Waiter>, w: Waiter, b: Buffer)
    ensures Held(ws + [w], b) == Held([w] + ws, b) == Held(ws, b) + HeldBy(w, b)
  {
    HeldConcat(ws, [w], b);
    HeldConcat([w], ws, b);
    assert Held([w], b) == HeldBy(w, b) + Held([], b);
  }

  /** A received buffer is queued, held by a waiter, returned, freed, an event, or leaked, as
      often as it was received. */
  predicate ConservedAt(s: State, b: Buffer) {
    s.received[b] == multiset(s.rxq)[b] + Held(s.pdList, b) + Held(s.returned, b) + s.freed[b] + s.events[b] + s.leaked[b]
  }

  predicate NothingHeld(ws: seq<Waiter>) {
    forall i | 0 <= i < |ws| :: ws[i].skb == None
  }

  ghost predicate Conserved(s: State) {
    NothingHeld(s.ready) && forall b: Buffer :: ConservedAt(s, b)
  }

  lemma QueueTakesOne(q: seq<Buffer>)
    requires q != []
    ensures multiset(q) == multiset{q[0]} + multiset(q[1..])
  {
    assert q == [q[0]] + q[1..];
  }

  lemma HandleConserves(s: State, x: Buffer)
    requires ConservedAt(s, x) && s.rxq != []
    ensures ConservedAt(Apply(s, Handle), x)
  {
    QueueTakesOne(s.rxq);
    HandledConserves(s.(rxq := s.rxq[1..]), s.rxq[0], x);
  }

  /** A buffer taken from the queue goes to one place. */
  lemma HandledConserves(s: State, b: Buffer, x: Buffer)
    requires s.received[x] == One(b == x) + multiset(s.rxq)[x] + Held(s.pdList, x) + Held(s.returned, x)
                              + s.freed[x] + s.events[x] + s.leaked[x]
    ensures ConservedAt(Handled(s, b), x)
  {
    var i := Match(s.pdList, b.cookie);
    if b.kind == Response && i < |s.pdList| {
      HeldUpdate(s.pdList, i, s.pdList[i].(skb := Some(b)), x);
    }
  }

  lemma StepConserves(s: State, step: Step)
    requires Conserved(s) && Enabled(s, step)
    ensures Conserved(Apply(s, step))
  {
    ReadyStays(s, step);
    forall b: Buffer
      ensures ConservedAt(Apply(s, step), b)
    {
      assert ConservedAt(s, b);
      StepConservesAt(s, step, b);
    }
  }

  lemma StepConservesAt(s: State, step: Step, b: Buffer)
    requires ConservedAt(s, b) && NothingHeld(s.ready) && Enabled(s, step)
    ensures ConservedAt(Apply(s, step), b)
  {
    if step.Handle? {
      HandleConserves(s, b);
    } else if !step.Arrive? {
      HeldStays(s, step, b);
    }
  }

  lemma ReadyStays(s: State, step: Step)
    requires Enabled(s, step) && NothingHeld(s.ready)
    ensures NothingHeld(Apply(s, step).ready)
  {}

  lemma HeldStays(s: State, step: Step, b: Buffer)
    requires Enabled(s, step) && NothingHeld(s.ready) && !step.Handle? && !step.Arrive?
    ensures var s' := Apply(s, step); Held(s'.pdList, b) + Held(s'.returned, b) == Held(s.pdList, b) + Held(s.returned, b)
  {
    match step
    case Enlist(i) => HeldEnd(s.pdList, s.ready[i], b);
    case MakeRoom(i) => HeldUpdate(s.pdList, i, s.pdList[i].(stage := Checked), b);
    case Queue(i) => HeldUpdate(s.pdList, i, s.pdList[i].(stage := Queued), b);
    case Leave(i) =>
      HeldSplit(s.pdList, i, b);
      HeldEnd(s.returned, s.pdList[i], b);
    case _ =>
  }

  lemma {:induction false} BuffersConserved(s: State, steps: seq<Step>)
    requires Conserved(s)
    ensures Conserved(Run(s, steps))
    decreases |steps|
  {
    if steps != [] {
      if Enabled(s, steps[0]) { StepConserves(s, steps[0]); }
      BuffersConserved(if Enabled(s, steps[0]) then Apply(s, steps[0]) else s, steps[1..]);
    }
  }

  /** The step hands a response to a waiter that already has one. */
  predicate Overwrites(s: State, step: Step) {
    && step.Handle? && s.rxq != [] && s.rxq[0].kind == Response
    && var i := Match(s.pdList, s.rxq[0].cookie);
    && i < |s.pdList| && s.pdList[i].skb.Some?
  }

  predicate NeverOverwrites(s: State, steps: seq<Step>)
    decreases |steps|
  {
    steps != [] ==>
      && !Overwrites(s, steps[0])
      && NeverOverwrites(if Enabled(s, steps[0]) then Apply(s, steps[0]) else s, steps[1..])
  }

  /** A buffer is leaked in a run exactly if a second response arrived for a waiter still listed. */
  lemma {:induction false} LeaksExactlyWhenOverwritten(s: State, steps: seq<Step>)
    ensures s.leaked <= Run(s, steps).leaked
    ensures Run(s, steps).leaked == s.leaked <==> NeverOverwrites(s, steps)
    decreases |steps|
  {
    if steps != [] {
      var s' := if Enabled(s, steps[0]) then Apply(s, steps[0]) else s;
      LeaksExactlyWhenOverwritten(s', steps[1..]);
      assert Overwrites(s, steps[0]) <==> s'.leaked != s.leaked;
      if Overwrites(s, steps[0]) {
        var b := s.pdList[Match(s.pdList, s.rxq[0].cookie)].skb.value;
        assert s'.leaked[b] == s.leaked[b] + 1;
        assert Run(s, steps).leaked[b] >= s'.leaked[b];
      }
    }
  }

  /** From the start on: every buffer received is in one place, and it was leaked only if it was
      overwritten. */
  lemma EveryRunFromStart(steps: seq<Step>)
    ensures Conserved(Run(Start, steps))
    ensures Run(Start, steps).leaked == multiset{} <==> NeverOverwrites(Start, steps)
  {
    BuffersConserved(Start, steps);
    LeaksExactlyWhenOverwritten(Start, steps);
  }

  predicate HoldResponses(ws: seq<Waiter>) {
    forall i | 0 <= i < |ws| && ws[i].skb.Some? :: ws[i].skb.value.kind.Response?
  }

  /** Each kind of buffer goes its own way. */
  ghost predicate Sorted(s: State) {
    && (forall b | b in s.events :: b.kind.Event?) && (forall b | b in s.freed :: !b.kind.Event?)
    && (forall b | b in s.leaked :: b.kind.Response?) && HoldResponses(s.pdList) && HoldResponses(s.returned)
  }

  lemma StepKeepsSorted(s: State, step: Step)
    requires Sorted(s) && NothingHeld(s.ready) && Enabled(s, step)
    ensures Sorted(Apply(s, step))
  {
    if step.Handle? { HandledKeepsSorted(s.(rxq := s.rxq[1..]), s.rxq[0]); } else { OthersKeepSorted(s, step); }
  }

  lemma HandledKeepsSorted(s: State, b: Buffer)
    requires Sorted(s)
    ensures Sorted(Handled(s, b))
  {}

  lemma OthersKeepSorted(s: State, step: Step)
    requires Sorted(s) && NothingHeld(s.ready) && Enabled(s, step) && !step.Handle?
    ensures Sorted(Apply(s, step))
  {
    var s' := Apply(s, step);
    assert s'.events == s.events && s'.freed == s.freed && s'.leaked == s.leaked;
    assert HoldResponses(s'.pdList);
  }

  lemma {:induction false} RunKeepsSorted(s: State, steps: seq<Step>)
    requires Sorted(s) && NothingHeld(s.ready)
    ensures Sorted(Run(s, steps))
    decreases |steps|
  {
    if steps != [] {
      if Enabled(s, steps[0]) {
        StepKeepsSorted(s, steps[0]);
        ReadyStays(s, steps[0]);
      }
      RunKeepsSorted(if Enabled(s, steps[0]) then Apply(s, steps[0]) else s, steps[1..]);
    }
  }

  /** In every run: what has been received and is not in the queue any more was handed on as an event
      exactly if it is one; only responses are given to waiters; what is neither is freed. */
  lemma KindsGoTheirWay(steps: seq<Step>, b: Buffer)
    ensures var s := Run(Start, steps);
            && s.received[b] == multiset(s.rxq)[b] + match b.kind
                                                      case Event => s.events[b]
                                                      case Unknown => s.freed[b]
                                                      case Response => Held(s.pdList, b) + Held(s.returned, b) + s.freed[b] + s.leaked[b]
  {
    var s := Run(Start, steps);
    BuffersConserved(Start, steps);
    RunKeepsSorted(Start, steps);
    assert ConservedAt(s, b);
    if !b.kind.Response? {
      NoneHeld(s.pdList, b);
      NoneHeld(s.returned, b);
    }
  }

  lemma {:induction false} NoneHeld(ws: seq<Waiter>, b: Buffer)
    requires HoldResponses(ws) && !b.kind.Response?
    ensures Held(ws, b) == 0
  {
    if ws != [] { NoneHeld(ws[1..], b); }
  }

  /** A command listed, and two answers. */
  function TwoAnswers(x: Buffer, y: Buffer): seq<Step> {
    [Draw, Enlist(0)] + [Arrive(x), Handle] + [Arrive(y), Handle]
  }

  /** A device that answers a command twice makes the first answer leak. */
  lemma SecondAnswerLeaks(x: Buffer, y: Buffer)
    requires x.kind == y.kind == Response && x.cookie == y.cookie == CookieOf(0)
    ensures Run(Start, TwoAnswers(x, y)).leaked == multiset{x}
  {
    var w := Waiter(CookieOf(0), Drawn(0), Listed, None);
    var s1 := Run(Start, [Draw, Enlist(0)]);
    RunStep(Start, Draw, [Enlist(0)]);
    RunStep(Apply(Start, Draw), Enlist(0), []);
    assert s1.pdList == [w] && s1.rxq == [] && s1.leaked == multiset{};
    var s2 := Run(s1, [Arrive(x), Handle]);
    OneAnswer(s1, w, x);
    OneAnswer(s2, w.(skb := Some(x)), y);
    RunConcat(Start, [Draw, Enlist(0)], [Arrive(x), Handle]);
    RunConcat(Start, [Draw, Enlist(0)] + [Arrive(x), Handle], [Arrive(y), Handle]);
  }

  lemma OneAnswer(s: State, w: Waiter, b: Buffer)
    requires s.pdList == [w] && s.rxq == [] && b.kind == Response && b.cookie == w.cookie
    ensures var s' := Run(s, [Arrive(b), Handle]);
            && s'.pdList == [w.(skb := Some(b))] && s'.rxq == []
            && s'.leaked == s.leaked + if w.skb.Some? then multiset{w.skb.value} else multiset{}
  {
    var s1 := Apply(s, Arrive(b));
    assert s1.rxq == [b];
    RunStep(s, Arrive(b), [Handle]);
    RunStep(s1, Handle, []);
    assert Match(s.pdList, b.cookie) == 0;
  }
}

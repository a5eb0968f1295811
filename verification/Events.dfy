/** The queue of firmware events: one producer (hgic_fmac/event.c), any number of readers
    (hgic_fmac/procfs.c), a list and a semaphore. Every operation on either is one step. */
module Events {
  import opened Basics

  const EVENT_MAX := 16

  datatype Event = Event(id: nat, debug: bool, data: seq<nat>)

  /** The list and the semaphore of a device. */
  class EventQueue {
    var evtList: seq<Event>
    var evtSema: nat

    constructor ()
      ensures evtList == [] && evtSema == 0
    {
      evtList, evtSema := [], 0;
    }

    /** A buffer with no whole header in it, which is none here, and debug output are not queued; of a
        full list the oldest event is dropped. */
    method RxFwEvent(skb: Option<Event>) returns (dropped: Option<Event>)
      modifies this
      ensures if skb.None? || skb.value.debug then evtList == old(evtList) && evtSema == old(evtSema) && dropped == None
              else (evtSema == old(evtSema) + 1
                    && evtList == Kept(old(evtList)) + [skb.value]
                    && dropped == if |old(evtList)| > EVENT_MAX then Some(old(evtList)[0]) else None)
    {
      dropped := None;
      if skb.None? { return; }
      var e := skb.value;
      if !e.debug {
        if |evtList| > EVENT_MAX {
          dropped := Some(evtList[0]);
          evtList := evtList[1..];
        }
        evtList := evtList + [e];
        evtSema := evtSema + 1;
      }
    }

    /** What one undisturbed read gets: nothing when the semaphore cannot be lowered in time. */
    method FwEventRead() returns (e: Option<Event>)
      modifies this
      ensures if old(evtSema) == 0 then e == None && evtList == old(evtList) && evtSema == 0
              else (evtSema == old(evtSema) - 1
                    && e == (if old(evtList) == [] then None else Some(old(evtList)[0]))
                    && evtList == if old(evtList) == [] then [] else old(evtList)[1..])
    {
      e := None;
      if evtSema == 0 { return; }
      evtSema := evtSema - 1;
      if evtList != [] {
        e := Some(evtList[0]);
        evtList := evtList[1..];
      }
    }
  }

  function Kept(list: seq<Event>): seq<Event> {
    if |list| > EVENT_MAX then list[1..] else list
  }

  // ------------------------------------------------------------------ all the steps together

  /** Where the producer is: idle; has looked whether the list is full; has made room; has
      appended its event but not raised the semaphore. */
  datatype Producer = Idle | Looked(e: Event, full: bool) | Roomed(e: Event) | Appended

  /** What has become of an event that has left the list. */
  datatype Fate = Read(e: Event) | Dropped(e: Event)

  /** holding counts readers that have lowered the semaphore and not yet looked at the list;
      looking counts those that have seen it non-empty. The rest is history: what was appended,
      what has left the list and how, and how often a reader found nothing. */
  datatype State = State(
    list: seq<Event>,
    permits: nat,
    producer: Producer,
    holding: nat,
    looking: nat,
    appended: seq<Event>,
    left: seq<Fate>,
    inVain: nat)

  datatype Step =
    | Look(e: Event)     // the producer looks at the length of the list
    | MakeRoom           // it drops the oldest event of a full list
    | Append             // it appends its event
    | Up                 // it raises the semaphore
    | Down               // a reader lowers it
    | Peek               // a reader sees whether the list is empty
    | Take               // a reader takes the oldest event

  predicate Enabled(s: State, step: Step) {
    match step
    case Look(e) => s.producer.Idle? && !e.debug
    case MakeRoom => s.producer.Looked?
    case Append => s.producer.Roomed?
    case Up => s.producer.Appended?
    case Down => s.permits > 0
    case Peek => s.holding > 0
    case Take => s.looking > 0
  }

  function Apply(s: State, step: Step): State
    requires Enabled(s, step)
  {
    match step
    case Look(e) => s.(producer := Looked(e, |s.list| > EVENT_MAX))
    case MakeRoom =>
      if s.producer.full && s.list != [] then
        s.(list := s.list[1..], producer := Roomed(s.producer.e), left := s.left + [Dropped(s.list[0])])
      else s.(producer := Roomed(s.producer.e))
    case Append =>
      s.(list := s.list + [s.producer.e], producer := Appended, appended := s.appended + [s.producer.e])
    case Up => s.(permits := s.permits + 1, producer := Idle)
    case Down => s.(permits := s.permits - 1, holding := s.holding + 1)
    case Peek =>
      if s.list == [] then s.(holding := s.holding - 1, inVain := s.inVain + 1)
      else s.(holding := s.holding - 1, looking := s.looking + 1)
    case Take =>
      if s.list == [] then s.(looking := s.looking - 1, inVain := s.inVain + 1)
      else s.(looking := s.looking - 1, list := s.list[1..], left := s.left + [Read(s.list[0])])
  }

  /** A run: steps that cannot be taken are passed over. */
  function Run(s: State, steps: seq<Step>): State
    decreases |steps|
  {
    if steps == [] then s else Run(if Enabled(s, steps[0]) then Apply(s, steps[0]) else s, steps[1..])
  }

  const Start: State := State([], 0, Idle, 0, 0, [], [], 0)

  // ------------------------------------------------------------------ what every step keeps

  /** At most 17 events, and room for one more when the producer is about to append. */
  predicate Bounded(s: State) {
    |s.list| <= match s.producer
      case Idle => EVENT_MAX + 1
      case Looked(_, full) => if full then EVENT_MAX + 1 else EVENT_MAX
      case Roomed(_) => EVENT_MAX
      case Appended => EVENT_MAX + 1
  }

  /** Permits, and the operations in progress that hold or will raise one. */
  function Chances(s: State): nat {
    s.permits + s.holding + s.looking + if s.producer.Appended? then 1 else 0
  }

  function Drops(left: seq<Fate>): nat {
    if left == [] then 0 else (if left[0].Dropped? then 1 else 0) + Drops(left[1..])
  }

  lemma {:induction false} DropsEnd(left: seq<Fate>, f: Fate)
    ensures Drops(left + [f]) == Drops(left) + if f.Dropped? then 1 else 0
  {
    if left != [] {
      assert (left + [f])[1..] == left[1..] + [f];
      DropsEnd(left[1..], f);
    }
  }

  /** The events of a history. */
  function Events(left: seq<Fate>): (es: seq<Event>)
    ensures |es| == |left|
  {
    if left == [] then [] else Events(left[..|left| - 1]) + [left[|left| - 1].e]
  }

  /** Chances exceed the queued events by the events dropped, less the reads in vain; and they
      are never fewer. What was appended has left in order, or is queued. */
  predicate Accounted(s: State) {
    && Chances(s) + s.inVain == |s.list| + Drops(s.left)
    && Chances(s) >= |s.list|
    && s.appended == Events(s.left) + s.list
  }

  lemma EventsEnd(left: seq<Fate>, f: Fate, list: seq<Event>)
    requires list != [] && f.e == list[0]
    ensures Events(left + [f]) + list[1..] == Events(left) + list
  {
    assert (left + [f])[..|left|] == left;
    assert list == [list[0]] + list[1..];
  }

  lemma StepKeepsAccounted(s: State, step: Step)
    requires Accounted(s) && Enabled(s, step)
    ensures Accounted(Apply(s, step))
  {
    match step
    case MakeRoom => if s.producer.full && s.list != [] { DroppingKeepsAccounted(s); }
    case Take => if s.list != [] { TakingKeepsAccounted(s); }
    case Append => assert Events(s.left) + s.list + [s.producer.e] == Events(s.left) + (s.list + [s.producer.e]);
    case _ =>
  }

  lemma DroppingKeepsAccounted(s: State)
    requires Accounted(s) && s.producer.Looked? && s.producer.full && s.list != []
    ensures Accounted(Apply(s, MakeRoom))
  {
    DropsEnd(s.left, Dropped(s.list[0]));
    EventsEnd(s.left, Dropped(s.list[0]), s.list);
  }

  lemma TakingKeepsAccounted(s: State)
    requires Accounted(s) && s.looking > 0 && s.list != []
    ensures Accounted(Apply(s, Take))
  {
    DropsEnd(s.left, Read(s.list[0]));
    EventsEnd(s.left, Read(s.list[0]), s.list);
  }

  lemma StepKeepsBounded(s: State, step: Step)
    requires Bounded(s) && Enabled(s, step)
    ensures Bounded(Apply(s, step))
  {}

  /** Under every interleaving of the producer and the readers. */
  lemma {:induction false} RunsAreAccounted(s: State, steps: seq<Step>)
    requires Accounted(s) && Bounded(s)
    ensures Accounted(Run(s, steps)) && Bounded(Run(s, steps))
    decreases |steps|
  {
    if steps != [] {
      if Enabled(s, steps[0]) {
        StepKeepsAccounted(s, steps[0]);
        StepKeepsBounded(s, steps[0]);
      }
      RunsAreAccounted(if Enabled(s, steps[0]) then Apply(s, steps[0]) else s, steps[1..]);
    }
  }

  /** The list never holds more than 17 events; once nobody is in the middle of anything, a queued
      event can be read; and readers find nothing at most as often as events were dropped. */
  lemma NoEventStranded(steps: seq<Step>)
    ensures var s := Run(Start, steps);
            && |s.list| <= 17
            && (s.holding == 0 && s.looking == 0 && !s.producer.Appended? ==> s.permits >= |s.list|)
            && s.inVain <= Drops(s.left)
  {
    RunsAreAccounted(Start, steps);
  }

  // ------------------------------------------------------------------ undisturbed operations

  /** A producer that is not disturbed does what RxFwEvent does. */
  lemma UndisturbedProducer(s: State, e: Event)
    requires s.producer.Idle? && !e.debug
    ensures var s' := Run(s, [Look(e), MakeRoom, Append, Up]);
            s'.list == Kept(s.list) + [e] && s'.permits == s.permits + 1 && s'.producer.Idle?
  {
    var s1 := Apply(s, Look(e));
    var s2 := Apply(s1, MakeRoom);
    var s3 := Apply(s2, Append);
    var s4 := Apply(s3, Up);
    assert Run(s3, [Up]) == Run(s4, []) == s4;
    assert Run(s2, [Append, Up]) == Run(s3, [Up]);
    assert Run(s1, [MakeRoom, Append, Up]) == Run(s2, [Append, Up]);
    assert Run(s, [Look(e), MakeRoom, Append, Up]) == Run(s1, [MakeRoom, Append, Up]);
  }

  /** A reader that is not disturbed does what FwEventRead does. */
  lemma UndisturbedReader(s: State)
    requires s.permits > 0
    ensures var s' := Run(s, if s.list == [] then [Down, Peek] else [Down, Peek, Take]);
            && s'.permits == s.permits - 1 && s'.holding == s.holding && s'.looking == s.looking
            && s'.list == (if s.list == [] then [] else s.list[1..])
            && s'.left == if s.list == [] then s.left else s.left + [Read(s.list[0])]
  {
    var s1 := Apply(s, Down);
    var s2 := Apply(s1, Peek);
    if s.list == [] {
      assert Run(s1, [Peek]) == Run(s2, []) == s2;
      assert Run(s, [Down, Peek]) == Run(s1, [Peek]);
    } else {
      var s3 := Apply(s2, Take);
      assert Run(s2, [Take]) == Run(s3, []) == s3;
      assert Run(s1, [Peek, Take]) == Run(s2, [Take]);
      assert Run(s, [Down, Peek, Take]) == Run(s1, [Peek, Take]);
    }
  }

  lemma {:induction false} RunConcat(s: State, a: seq<Step>, b: seq<Step>)
    ensures Run(s, a + b) == Run(Run(s, a), b)
    decreases |a|
  {
    if a == [] {
      assert a + b == b;
    } else {
      assert (a + b)[1..] == a[1..] + b;
      RunConcat(if Enabled(s, a[0]) then Apply(s, a[0]) else s, a[1..], b);
    }
  }

  function Productions(e: Event, n: nat): seq<Step> {
    if n == 0 then [] else Productions(e, n - 1) + [Look(e), MakeRoom, Append, Up]
  }

  /** Dropped events leave permits behind: after n events and no reader there are n permits, but at
      most 17 events. */
  lemma {:induction false} DropsLeavePermits(e: Event, n: nat)
    requires !e.debug
    ensures var s := Run(Start, Productions(e, n));
            s.permits == n && s.producer.Idle? && |s.list| == if n <= 17 then n else 17
  {
    if n > 0 {
      DropsLeavePermits(e, n - 1);
      RunConcat(Start, Productions(e, n - 1), [Look(e), MakeRoom, Append, Up]);
      UndisturbedProducer(Run(Start, Productions(e, n - 1)), e);
    }
  }
}

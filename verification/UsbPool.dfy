/** The buffers of the USB bus (utils/if_usb.c): two lists of free buffers, one of used ones, and
    a counting semaphore for the buffers to send with. Senders, completions of the URBs they
    submit, the receive side and the disconnect up to the freeing interleave freely; what each
    does under the lock is one step. */
module UsbPool {
  import opened Basics

  // ------------------------------------------------------------------ the lists

  /** The three lists, and the buffers whose flag says that they are used. */
  datatype Lists = Lists(txFree: seq<nat>, rxFree: seq<nat>, used: seq<nat>, flags: set<nat>)

  /** The list without the first occurrence of b. */
  function Del(q: seq<nat>, b: nat): seq<nat> {
    if q == [] then [] else if q[0] == b then q[1..] else [q[0]] + Del(q[1..], b)
  }

  function Count(q: seq<nat>, b: nat): nat {
    if q == [] then 0 else (if q[0] == b then 1 else 0) + Count(q[1..], b)
  }

  lemma {:induction false} CountEnd(q: seq<nat>, c: nat, b: nat)
    ensures Count(q + [c], b) == Count(q, b) + if c == b then 1 else 0
  {
    if q != [] {
      assert (q + [c])[1..] == q[1..] + [c];
      CountEnd(q[1..], c, b);
    }
  }

  lemma {:induction false} CountDel(q: seq<nat>, c: nat, b: nat)
    ensures Count(Del(q, c), b) == if c == b && Count(q, c) > 0 then Count(q, b) - 1 else Count(q, b)
  {
    if q != [] && q[0] != c { CountDel(q[1..], c, b); }
  }

  /** The first free buffer becomes the last used one. */
  function Take(l: Lists, rx: bool): Lists
    requires (if rx then l.rxFree else l.txFree) != []
  {
    if rx then l.(rxFree := l.rxFree[1..], used := l.used + [l.rxFree[0]], flags := l.flags + {l.rxFree[0]})
    else l.(txFree := l.txFree[1..], used := l.used + [l.txFree[0]], flags := l.flags + {l.txFree[0]})
  }

  /** A buffer leaves the list it is in and becomes the last free one. */
  function Give(l: Lists, rx: bool, b: nat): Lists {
    if rx then l.(rxFree := l.rxFree + [b], used := Del(l.used, b), flags := l.flags - {b})
    else l.(txFree := l.txFree + [b], used := Del(l.used, b), flags := l.flags - {b})
  }

  function Range(a: nat, n: nat): seq<nat>
    decreases n
  {
    if n == 0 then [] else Range(a, n - 1) + [a + n - 1]
  }

  /** The lists as the driver keeps them. A buffer that is given back comes from the used list. */
  class Pool {
    var txFree: seq<nat>
    var rxFree: seq<nat>
    var used: seq<nat>
    var flags: set<nat>

    constructor ()
      ensures Abs() == Lists([], [], [], {})
    {
      txFree, rxFree, used, flags := [], [], [], {};
    }

    ghost function Abs(): Lists
      reads this`txFree, this`rxFree, this`used, this`flags
    {
      Lists(txFree, rxFree, used, flags)
    }

    /** Fills a free list with qsize new buffers, fewer if there is memory for fewer only. */
    method Qinit(first: nat, qsize: nat, rx: bool, memory: nat) returns (n: nat)
      modifies this
      ensures n == if memory < qsize then memory else qsize
      ensures txFree == old(txFree) + (if rx then [] else Range(first, n))
      ensures rxFree == old(rxFree) + (if rx then Range(first, n) else [])
      ensures used == old(used) && flags == old(flags)
    {
      n := 0;
      while n < qsize
        invariant n <= qsize && n <= memory
        invariant txFree == old(txFree) + (if rx then [] else Range(first, n))
        invariant rxFree == old(rxFree) + (if rx then Range(first, n) else [])
        invariant used == old(used) && flags == old(flags)
      {
        if n == memory { break; }
        if rx { rxFree := rxFree + [first + n]; } else { txFree := txFree + [first + n]; }
        n := n + 1;
      }
    }

    method Deq(rx: bool) returns (buf: Option<nat>)
      modifies this`txFree, this`rxFree, this`used, this`flags
      ensures var q := if rx then old(rxFree) else old(txFree);
              if q == [] then buf == None && Abs() == old(Abs())
              else buf == Some(q[0]) && Abs() == Take(old(Abs()), rx)
      ensures buf.Some? ==>
                && used == old(used) + [buf.value] && flags == old(flags) + {buf.value}
                && rxFree == (if rx then old(rxFree)[1..] else old(rxFree))
                && txFree == (if rx then old(txFree) else old(txFree)[1..])
    {
      buf := None;
      if rx && rxFree != [] {
        buf := Some(rxFree[0]);
        rxFree := rxFree[1..];
      } else if !rx && txFree != [] {
        buf := Some(txFree[0]);
        txFree := txFree[1..];
      }
      if buf.Some? {
        flags := flags + {buf.value};
        used := used + [buf.value];
      }
    }

    method Enq(buf: nat, rx: bool)
      modifies this`txFree, this`rxFree, this`used, this`flags
      ensures Abs() == Give(old(Abs()), rx, buf)
      ensures used == Del(old(used), buf) && flags == old(flags) - {buf}
      ensures rxFree == old(rxFree) + (if rx then [buf] else []) && txFree == old(txFree) + (if rx then [] else [buf])
    {
      flags := flags - {buf};
      used := Del(used, buf);
      if rx { rxFree := rxFree + [buf]; } else { txFree := txFree + [buf]; }
    }
  }

  /** Every buffer is in exactly one list, once, never in the free list of the other kind; its flag
      says whether that is the used list. The first tx buffers are for sending, the next rx for
      receiving. */
  ghost predicate Sorted(l: Lists, tx: nat, rx: nat) {
    forall b: nat :: SortedAt(l, tx, rx, b)
  }

  predicate SortedAt(l: Lists, tx: nat, rx: nat, b: nat) {
    && Count(l.txFree, b) + (if b < tx then Count(l.used, b) else 0) == (if b < tx then 1 else 0)
    && Count(l.rxFree, b) + (if b < tx then 0 else Count(l.used, b)) == (if tx <= b < tx + rx then 1 else 0)
    && (b in l.flags <==> Count(l.used, b) == 1)
  }

  lemma TakeKeepsSorted(l: Lists, tx: nat, rx: nat, isRx: bool)
    requires Sorted(l, tx, rx) && (if isRx then l.rxFree else l.txFree) != []
    ensures Sorted(Take(l, isRx), tx, rx)
  {
    var b := if isRx then l.rxFree[0] else l.txFree[0];
    assert SortedAt(l, tx, rx, b);
    forall c: nat
      ensures SortedAt(Take(l, isRx), tx, rx, c)
    {
      assert SortedAt(l, tx, rx, c);
      CountEnd(l.used, b, c);
    }
  }

  lemma GiveKeepsSorted(l: Lists, tx: nat, rx: nat, isRx: bool, b: nat)
    requires Sorted(l, tx, rx) && Count(l.used, b) == 1 && isRx == (b >= tx)
    ensures Sorted(Give(l, isRx, b), tx, rx)
  {
    assert SortedAt(l, tx, rx, b);
    forall c: nat
      ensures SortedAt(Give(l, isRx, b), tx, rx, c)
    {
      assert SortedAt(l, tx, rx, c);
      CountDel(l.used, b, c);
      CountEnd(l.txFree, b, c);
      CountEnd(l.rxFree, b, c);
    }
  }

  // ------------------------------------------------------------------ all the steps together

  /** Where a sender is: it has come in; waits for a permit; holds one; has found the device in
      order for the second time; owns a buffer; fails; has submitted its buffer; is done. */
  datatype Pc = Entered | Waiting | Holding | Passed | Owns(b: nat) | Failing | InFlight(b: nat) | Finished

  /** senders[i] sends packet i. data maps the buffers that carry a packet to it; urbs are the
      buffers submitted, returning those between the call of the completion and the return to the
      free list; ups counts completions that still have to raise the semaphore. completed lists
      the packets reported back; wasted counts permits that were taken for nothing and not raised
      again, their buffer free, and lost those that went together with their buffer. */
  datatype State = State(
    lists: Lists,
    senders: seq<Pc>,
    data: map<nat, nat>,
    urbs: set<nat>,
    returning: set<nat>,
    permits: nat,
    ups: nat,
    wasted: nat,
    lost: nat,
    stop: bool,
    stopUps: nat,
    err: bool,
    completed: seq<nat>,
    noBuffer: bool)

  datatype Step =
    | Enter                       // a packet to send comes in
    | Check1(i: nat)              // the status is looked at
    | Down(i: nat)                // a permit is taken
    | TimeOut(i: nat)             // none was to be had
    | Check2(i: nat)              // the status is looked at again
    | DeqTx(i: nat)               // a buffer is taken
    | NoMemory(i: nat)            // no memory for an aligned copy
    | Submit(i: nat, ok: bool)    // the URB is submitted, or refused and the buffer given back
    | Fail(i: nat)                // the packet is reported as failed
    | Callback(b: nat)            // a URB completes: its packet is reported
    | GiveBack(b: nat)            // the completion gives the buffer back
    | Up                          // and raises the semaphore
    | RxTake                      // the receive side takes a buffer
    | RxGive(b: nat)              // and gives one back
    | RxError                     // it sets the error status
    | Stop                        // the disconnect sets the stop status
    | StopUp                      // and raises the semaphore once

  predicate At(s: State, i: nat, pc: Pc) {
    i < |s.senders| && s.senders[i] == pc
  }

  predicate Bad(s: State) {
    s.stop || s.err
  }

  predicate Enabled(s: State, tx: nat, step: Step) {
    match step
    case Check1(i) => At(s, i, Entered)
    case Down(i) => At(s, i, Waiting) && s.permits > 0
    case TimeOut(i) => At(s, i, Waiting)
    case Check2(i) => At(s, i, Holding)
    case DeqTx(i) => At(s, i, Passed)
    case NoMemory(i) => i < |s.senders| && s.senders[i].Owns?
    case Submit(i, _) => i < |s.senders| && s.senders[i].Owns?
    case Fail(i) => At(s, i, Failing)
    case Callback(b) => b in s.urbs && b in s.data && s.data[b] < |s.senders|
    case GiveBack(b) => b in s.returning
    case Up => s.ups > 0
    case RxTake => s.lists.rxFree != []
    case RxGive(b) => b >= tx && Count(s.lists.used, b) > 0
    case Stop => !s.stop
    case StopUp => s.stop && s.stopUps == 0
    case _ => true
  }

  function Goto(s: State, i: nat, pc: Pc): State
    requires i < |s.senders|
  {
    s.(senders := s.senders[i := pc])
  }

  function Apply(s: State, tx: nat, step: Step): (s': State)
    requires Enabled(s, tx, step)
    ensures |s'.senders| == |s.senders| + if step.Enter? then 1 else 0
  {
    match step
    case Enter => s.(senders := s.senders + [Entered])
    case Check1(i) => Goto(s, i, if Bad(s) then Failing else Waiting)
    case Down(i) => Goto(s, i, Holding).(permits := s.permits - 1)
    case TimeOut(i) => Goto(s, i, Failing)
    case Check2(i) =>
      if Bad(s) then Goto(s, i, Failing).(wasted := s.wasted + 1) else Goto(s, i, Passed)
    case DeqTx(i) =>
      if s.lists.txFree == [] then Goto(s, i, Failing).(noBuffer := true)
      else Goto(s, i, Owns(s.lists.txFree[0])).(lists := Take(s.lists, false))
    case NoMemory(i) => Goto(s, i, Finished).(completed := s.completed + [i], lost := s.lost + 1)
    case Submit(i, ok) =>
      var b := s.senders[i].b;
      if ok then Goto(s, i, InFlight(b)).(data := s.data[b := i], urbs := s.urbs + {b})
      else Goto(s, i, Failing).(lists := Give(s.lists, false, b), wasted := s.wasted + 1)
    case Fail(i) => Goto(s, i, Finished).(completed := s.completed + [i])
    case Callback(b) =>
      Goto(s, s.data[b], Finished).(completed := s.completed + [s.data[b]], data := s.data - {b},
                                    urbs := s.urbs - {b}, returning := s.returning + {b})
    case GiveBack(b) =>
      s.(lists := Give(s.lists, false, b), returning := s.returning - {b}, ups := s.ups + 1)
    case Up => s.(ups := s.ups - 1, permits := s.permits + 1)
    case RxTake => s.(lists := Take(s.lists, true))
    case RxGive(b) => s.(lists := Give(s.lists, true, b))
    case RxError => s.(err := true)
    case Stop => s.(stop := true)
    case StopUp => s.(permits := s.permits + 1, stopUps := 1)
  }

  /** A run: steps that cannot be taken are passed over. */
  function Run(s: State, tx: nat, steps: seq<Step>): State
    decreases |steps|
  {
    if steps == [] then s
    else Run(if Enabled(s, tx, steps[0]) then Apply(s, tx, steps[0]) else s, tx, steps[1..])
  }

  function Start(tx: nat, rx: nat): State {
    State(Lists(Range(0, tx), Range(tx, rx), [], {}), [], map[], {}, {}, tx, 0, 0, 0, false, 0, false, [], false)
  }

  // ------------------------------------------------------------------ what every step keeps

  /** Used send buffers are with at most one sender, URB or completion. */
  ghost predicate Owned(s: State, tx: nat) {
    && (forall i | 0 <= i < |s.senders| && s.senders[i].Owns? ::
          OwnerAlone(s, tx, s.senders[i].b))
    && (forall i, j | 0 <= i < j < |s.senders| && s.senders[i].Owns? :: s.senders[i] != s.senders[j])
    && (forall b | b in s.urbs :: Carried(s, tx, b))
    && (forall i | 0 <= i < |s.senders| && s.senders[i].InFlight? ::
          s.senders[i].b in s.urbs && s.senders[i].b in s.data && s.data[s.senders[i].b] == i)
    && (forall b | b in s.returning :: InUse(s, tx, b) && b !in s.urbs)
    && s.data.Keys == s.urbs
  }

  predicate InUse(s: State, tx: nat, b: nat) {
    b < tx && Count(s.lists.used, b) == 1
  }

  predicate OwnerAlone(s: State, tx: nat, b: nat) {
    InUse(s, tx, b) && b !in s.urbs && b !in s.returning
  }

  predicate Carried(s: State, tx: nat, b: nat) {
    InUse(s, tx, b) && b in s.data && At(s, s.data[b], InFlight(b))
  }

  function Tally(senders: seq<Pc>, pc: Pc): nat {
    if senders == [] then 0 else (if senders[0] == pc then 1 else 0) + Tally(senders[1..], pc)
  }

  lemma {:induction false} TallyUpdate(senders: seq<Pc>, i: nat, next: Pc, pc: Pc)
    requires i < |senders|
    ensures Tally(senders[i := next], pc) + (if senders[i] == pc then 1 else 0)
         == Tally(senders, pc) + (if next == pc then 1 else 0)
  {
    if i > 0 {
      assert senders[i := next][1..] == senders[1..][i - 1 := next];
      TallyUpdate(senders[1..], i - 1, next, pc);
    } else {
      assert senders[i := next][1..] == senders[1..];
    }
  }

  lemma {:induction false} TallyEnd(senders: seq<Pc>, next: Pc, pc: Pc)
    ensures Tally(senders + [next], pc) == Tally(senders, pc) + if next == pc then 1 else 0
  {
    if senders != [] {
      assert (senders + [next])[1..] == senders[1..] + [next];
      TallyEnd(senders[1..], next, pc);
    }
  }

  /** Until the disconnect, every free send buffer is accounted for by a permit that can be taken,
      is held, has led past the second check, is about to be raised, or is wasted; afterwards there
      is still a buffer for everyone past the second check. So nobody has found the list empty. */
  predicate Permitted(s: State) {
    && Tally(s.senders, Passed) <= |s.lists.txFree|
    && (!s.stop ==>
          Tally(s.senders, Passed) + Tally(s.senders, Holding) + s.permits + s.ups + s.wasted == |s.lists.txFree|)
    && !s.noBuffer
  }

  function Owners(senders: seq<Pc>): nat {
    if senders == [] then 0 else (if senders[0].Owns? then 1 else 0) + Owners(senders[1..])
  }

  lemma {:induction false} OwnersUpdate(senders: seq<Pc>, i: nat, next: Pc)
    requires i < |senders|
    ensures Owners(senders[i := next]) + (if senders[i].Owns? then 1 else 0) == Owners(senders) + (if next.Owns? then 1 else 0)
  {
    if i > 0 {
      assert senders[i := next][1..] == senders[1..][i - 1 := next];
      OwnersUpdate(senders[1..], i - 1, next);
    } else {
      assert senders[i := next][1..] == senders[1..];
    }
  }

  lemma {:induction false} OwnersEnd(senders: seq<Pc>, next: Pc)
    ensures Owners(senders + [next]) == Owners(senders) + if next.Owns? then 1 else 0
  {
    if senders != [] {
      assert (senders + [next])[1..] == senders[1..] + [next];
      OwnersEnd(senders[1..], next);
    }
  }

  /** Every send buffer is free, with a sender, submitted, coming back, or lost. */
  predicate Balanced(s: State, tx: nat) {
    |s.lists.txFree| + Owners(s.senders) + |s.urbs| + |s.returning| + s.lost == tx
  }

  /** A packet has been reported once if its sender is done, and never if not. */
  ghost predicate Reported(s: State) {
    forall i: nat :: Count(s.completed, i) == if At(s, i, Finished) then 1 else 0
  }

  ghost predicate Inv(s: State, tx: nat, rx: nat) {
    Sorted(s.lists, tx, rx) && Owned(s, tx) && Permitted(s) && Balanced(s, tx) && Reported(s)
  }

  lemma StepKeepsSorted(s: State, tx: nat, rx: nat, step: Step)
    requires Sorted(s.lists, tx, rx) && Owned(s, tx) && Enabled(s, tx, step)
    ensures Sorted(Apply(s, tx, step).lists, tx, rx)
  {
    match step
    case DeqTx(i) => if s.lists.txFree != [] { TakeKeepsSorted(s.lists, tx, rx, false); }
    case Submit(i, ok) => if !ok { GiveKeepsSorted(s.lists, tx, rx, false, s.senders[i].b); }
    case GiveBack(b) => GiveKeepsSorted(s.lists, tx, rx, false, b);
    case RxTake => TakeKeepsSorted(s.lists, tx, rx, true);
    case RxGive(b) =>
      assert SortedAt(s.lists, tx, rx, b);
      GiveKeepsSorted(s.lists, tx, rx, true, b);
    case _ =>
  }

  lemma StepKeepsPermitted(s: State, tx: nat, step: Step)
    requires Permitted(s) && Enabled(s, tx, step)
    requires step.Callback? ==> At(s, s.data[step.b], InFlight(step.b))
    ensures Permitted(Apply(s, tx, step))
  {
    if step.Enter? {
      TallyEnd(s.senders, Entered, Passed);
      TallyEnd(s.senders, Entered, Holding);
    } else if Moved(s, tx, step).Some? {
      var i: nat := Moved(s, tx, step).value;
      var next := Apply(s, tx, step).senders[i];
      TallyUpdate(s.senders, i, next, Passed);
      TallyUpdate(s.senders, i, next, Holding);
      TallyAt(s.senders, i);
    }
  }

  lemma {:induction false} TallyAt(senders: seq<Pc>, i: nat)
    requires i < |senders|
    ensures Tally(senders, senders[i]) > 0
  {
    if i > 0 { TallyAt(senders[1..], i - 1); }
  }

  /** The sender that a step moves on. */
  function Moved(s: State, tx: nat, step: Step): (i: Option<nat>)
    requires Enabled(s, tx, step)
    ensures i.Some? ==> i.value < |s.senders|
  {
    match step
    case Check1(i) => Some(i)
    case Down(i) => Some(i)
    case TimeOut(i) => Some(i)
    case Check2(i) => Some(i)
    case DeqTx(i) => Some(i)
    case NoMemory(i) => Some(i)
    case Submit(i, _) => Some(i)
    case Fail(i) => Some(i)
    case Callback(b) => Some(s.data[b])
    case _ => None
  }

  lemma StepKeepsBalanced(s: State, tx: nat, step: Step)
    requires Balanced(s, tx) && Owned(s, tx) && Enabled(s, tx, step)
    ensures Balanced(Apply(s, tx, step), tx)
  {
    if Moved(s, tx, step).Some? {
      MoveKeepsBalanced(s, tx, step);
    } else if step.Enter? {
      OwnersEnd(s.senders, Entered);
    }
  }

  lemma MoveKeepsBalanced(s: State, tx: nat, step: Step)
    requires Balanced(s, tx) && Owned(s, tx) && Enabled(s, tx, step) && Moved(s, tx, step).Some?
    ensures Balanced(Apply(s, tx, step), tx)
  {
    match step
    case DeqTx(i) => if s.lists.txFree != [] { OwnersUpdate(s.senders, i, Owns(s.lists.txFree[0])); } else { OwnersUpdate(s.senders, i, Failing); }
    case NoMemory(i) => OwnersUpdate(s.senders, i, Finished);
    case Submit(i, ok) => SubmitKeepsBalanced(s, tx, i, ok);
    case Callback(b) => CallbackKeepsBalanced(s, tx, b);
    case Check1(i) => PassKeepsBalanced(s, Apply(s, tx, step), tx, i);
    case Down(i) => PassKeepsBalanced(s, Apply(s, tx, step), tx, i);
    case TimeOut(i) => PassKeepsBalanced(s, Apply(s, tx, step), tx, i);
    case Check2(i) => PassKeepsBalanced(s, Apply(s, tx, step), tx, i);
    case Fail(i) => PassKeepsBalanced(s, Apply(s, tx, step), tx, i);
  }

  /** A sender moves on without touching a buffer. */
  lemma PassKeepsBalanced(s: State, s': State, tx: nat, i: nat)
    requires Balanced(s, tx) && i < |s.senders| == |s'.senders| && s'.senders == s.senders[i := s'.senders[i]]
    requires !s.senders[i].Owns? && !s'.senders[i].Owns?
    requires s'.lists == s.lists && s'.urbs == s.urbs && s'.returning == s.returning && s'.lost == s.lost
    ensures Balanced(s', tx)
  {
    OwnersUpdate(s.senders, i, s'.senders[i]);
  }

  lemma SubmitKeepsBalanced(s: State, tx: nat, i: nat, ok: bool)
    requires Balanced(s, tx) && Owned(s, tx) && Enabled(s, tx, Submit(i, ok))
    ensures Balanced(Apply(s, tx, Submit(i, ok)), tx)
  {
    var b := s.senders[i].b;
    assert OwnerAlone(s, tx, b);
    OwnersUpdate(s.senders, i, if ok then InFlight(b) else Failing);
  }

  lemma CallbackKeepsBalanced(s: State, tx: nat, b: nat)
    requires Balanced(s, tx) && Owned(s, tx) && Enabled(s, tx, Callback(b))
    ensures Balanced(Apply(s, tx, Callback(b)), tx)
  {
    assert Carried(s, tx, b);
    OwnersUpdate(s.senders, s.data[b], Finished);
  }

  lemma StepKeepsReported(s: State, tx: nat, step: Step)
    requires Reported(s) && Enabled(s, tx, step)
    requires step.Callback? ==> At(s, s.data[step.b], InFlight(step.b))
    ensures Reported(Apply(s, tx, step))
  {
    var s' := Apply(s, tx, step);
    forall i: nat
      ensures Count(s'.completed, i) == if At(s', i, Finished) then 1 else 0
    {
      assert Count(s.completed, i) == if At(s, i, Finished) then 1 else 0;
      if Moved(s, tx, step).Some? { CountEnd(s.completed, Moved(s, tx, step).value, i); }
    }
  }

  // ------------------------------------------------------------------ ownership, step by step

  /** Lists, URBs and completions stay; one sender moves on without touching a buffer. */
  lemma MoveKeepsOwned(s: State, s': State, tx: nat, i: nat)
    requires Owned(s, tx) && i < |s.senders|
    requires |s'.senders| == |s.senders|
    requires !s.senders[i].InFlight? && !s'.senders[i].Owns? && !s'.senders[i].InFlight?
    requires s'.senders == s.senders[i := s'.senders[i]]
    requires s'.lists.used == s.lists.used && s'.data == s.data && s'.urbs == s.urbs && s'.returning == s.returning
    ensures Owned(s', tx)
  {}

  lemma TakeKeepsOwned(s: State, s': State, tx: nat, b: nat)
    requires Owned(s, tx) && Count(s.lists.used, b) == 0 && s'.lists.used == s.lists.used + [b]
    requires s'.senders == s.senders && s'.data == s.data && s'.urbs == s.urbs && s'.returning == s.returning
    ensures Owned(s', tx)
  {
    forall c: nat ensures InUse(s, tx, c) ==> InUse(s', tx, c) { CountEnd(s.lists.used, b, c); }
    assert forall c :: OwnerAlone(s, tx, c) ==> OwnerAlone(s', tx, c);
    assert forall c :: Carried(s, tx, c) ==> Carried(s', tx, c);
  }

  lemma DeqKeepsOwned(s: State, tx: nat, rx: nat, i: nat)
    requires Owned(s, tx) && Sorted(s.lists, tx, rx) && At(s, i, Passed) && s.lists.txFree != []
    ensures Owned(Apply(s, tx, DeqTx(i)), tx)
  {
    var b := s.lists.txFree[0];
    assert SortedAt(s.lists, tx, rx, b);
    var s1 := s.(lists := Take(s.lists, false));
    TakeKeepsOwned(s, s1, tx, b);
    CountEnd(s.lists.used, b, b);
    var s' := Apply(s, tx, DeqTx(i));
    assert OwnerAlone(s', tx, b);
    forall c | OwnerAlone(s1, tx, c) ensures OwnerAlone(s', tx, c) {}
    forall c | Carried(s1, tx, c) ensures Carried(s', tx, c) {}
  }

  lemma SubmitKeepsOwned(s: State, tx: nat, i: nat)
    requires Owned(s, tx) && i < |s.senders| && s.senders[i].Owns?
    ensures Owned(Apply(s, tx, Submit(i, true)), tx)
  {
    var b, s' := s.senders[i].b, Apply(s, tx, Submit(i, true));
    assert OwnerAlone(s, tx, b);
    forall c | Carried(s, tx, c) && c != b ensures Carried(s', tx, c) {}
    forall c | OwnerAlone(s, tx, c) && c != b ensures OwnerAlone(s', tx, c) {}
  }

  lemma CallbackKeepsOwned(s: State, tx: nat, b: nat)
    requires Owned(s, tx) && b in s.urbs
    ensures Enabled(s, tx, Callback(b)) && Owned(Apply(s, tx, Callback(b)), tx)
  {
    assert Carried(s, tx, b);
    var s' := Apply(s, tx, Callback(b));
    forall c | Carried(s, tx, c) && c != b ensures Carried(s', tx, c) {}
    forall c | OwnerAlone(s, tx, c) ensures OwnerAlone(s', tx, c) {}
  }

  /** A buffer no sender, URB or completion has to do with any more is given back. */
  lemma GiveKeepsOwned(s: State, s': State, tx: nat, b: nat)
    requires Owned(s, tx) && s'.lists.used == Del(s.lists.used, b)
    requires s'.senders == s.senders && s'.data == s.data && s'.urbs == s.urbs && s'.returning == s.returning
    requires b !in s.urbs && b !in s.returning && (forall i | 0 <= i < |s.senders| :: s.senders[i] != Owns(b))
    ensures Owned(s', tx)
  {
    forall c: nat | c != b ensures InUse(s', tx, c) == InUse(s, tx, c) { CountDel(s.lists.used, b, c); }
    assert forall c | c != b :: OwnerAlone(s, tx, c) ==> OwnerAlone(s', tx, c);
    assert forall c | c != b :: Carried(s, tx, c) ==> Carried(s', tx, c);
  }

  lemma StepKeepsOwned(s: State, tx: nat, rx: nat, step: Step)
    requires Owned(s, tx) && Sorted(s.lists, tx, rx) && Enabled(s, tx, step)
    ensures Owned(Apply(s, tx, step), tx)
  {
    var s' := Apply(s, tx, step);
    if Moved(s, tx, step).Some? {
      SenderKeepsOwned(s, tx, rx, step);
    } else {
      match step
      case Enter => EnterKeepsOwned(s, tx);
      case GiveBack(b) => GiveBackKeepsOwned(s, tx, b);
      case RxTake =>
        assert SortedAt(s.lists, tx, rx, s.lists.rxFree[0]);
        TakeKeepsOwned(s, s', tx, s.lists.rxFree[0]);
      case RxGive(b) => RxGiveKeepsOwned(s, tx, b);
      case _ => SameOwned(s, s', tx);
    }
  }

  lemma SenderKeepsOwned(s: State, tx: nat, rx: nat, step: Step)
    requires Owned(s, tx) && Sorted(s.lists, tx, rx) && Enabled(s, tx, step) && Moved(s, tx, step).Some?
    ensures Owned(Apply(s, tx, step), tx)
  {
    if step.DeqTx? && s.lists.txFree != [] {
      DeqKeepsOwned(s, tx, rx, step.i);
    } else if step.Submit? && step.ok {
      SubmitKeepsOwned(s, tx, step.i);
    } else if step.Submit? {
      RefusedKeepsOwned(s, tx, step.i);
    } else if step.Callback? {
      CallbackKeepsOwned(s, tx, step.b);
    } else {
      MoveKeepsOwned(s, Apply(s, tx, step), tx, Moved(s, tx, step).value);
    }
  }

  lemma RefusedKeepsOwned(s: State, tx: nat, i: nat)
    requires Owned(s, tx) && i < |s.senders| && s.senders[i].Owns?
    ensures Owned(Apply(s, tx, Submit(i, false)), tx)
  {
    var b, s1 := s.senders[i].b, Goto(s, i, Failing);
    assert OwnerAlone(s, tx, b);
    MoveKeepsOwned(s, s1, tx, i);
    GiveKeepsOwned(s1, Apply(s, tx, Submit(i, false)), tx, b);
  }

  lemma SameOwned(s: State, s': State, tx: nat)
    requires Owned(s, tx) && s'.lists == s.lists && s'.senders == s.senders && s'.data == s.data
    requires s'.urbs == s.urbs && s'.returning == s.returning
    ensures Owned(s', tx)
  {
    assert forall c :: Carried(s, tx, c) ==> Carried(s', tx, c);
  }

  lemma EnterKeepsOwned(s: State, tx: nat)
    requires Owned(s, tx)
    ensures Owned(Apply(s, tx, Enter), tx)
  {
    var s' := Apply(s, tx, Enter);
    assert forall c :: Carried(s, tx, c) ==> Carried(s', tx, c);
    assert forall c :: OwnerAlone(s, tx, c) ==> OwnerAlone(s', tx, c);
  }

  lemma GiveBackKeepsOwned(s: State, tx: nat, b: nat)
    requires Owned(s, tx) && b in s.returning
    ensures Owned(Apply(s, tx, GiveBack(b)), tx)
  {
    var s1 := s.(returning := s.returning - {b});
    assert forall c :: Carried(s, tx, c) ==> Carried(s1, tx, c);
    assert forall c :: OwnerAlone(s, tx, c) ==> OwnerAlone(s1, tx, c);
    assert Owned(s1, tx);
    GiveKeepsOwned(s1, Apply(s, tx, GiveBack(b)), tx, b);
  }

  lemma RxGiveKeepsOwned(s: State, tx: nat, b: nat)
    requires Owned(s, tx) && b >= tx && Count(s.lists.used, b) > 0
    ensures Owned(Apply(s, tx, RxGive(b)), tx)
  {
    GiveKeepsOwned(s, Apply(s, tx, RxGive(b)), tx, b);
  }

  // ------------------------------------------------------------------ over every run

  lemma StepKeepsInv(s: State, tx: nat, rx: nat, step: Step)
    requires Inv(s, tx, rx) && Enabled(s, tx, step)
    ensures Inv(Apply(s, tx, step), tx, rx)
  {
    if step.Callback? { assert Carried(s, tx, step.b); }
    StepKeepsSorted(s, tx, rx, step);
    StepKeepsOwned(s, tx, rx, step);
    StepKeepsPermitted(s, tx, step);
    StepKeepsBalanced(s, tx, step);
    StepKeepsReported(s, tx, step);
  }

  lemma {:induction false} RunKeepsInv(s: State, tx: nat, rx: nat, steps: seq<Step>)
    requires Inv(s, tx, rx)
    ensures Inv(Run(s, tx, steps), tx, rx)
    decreases |steps|
  {
    if steps != [] {
      if Enabled(s, tx, steps[0]) { StepKeepsInv(s, tx, rx, steps[0]); }
      RunKeepsInv(if Enabled(s, tx, steps[0]) then Apply(s, tx, steps[0]) else s, tx, rx, steps[1..]);
    }
  }

  lemma {:induction false} CountRange(a: nat, n: nat, b: nat)
    ensures |Range(a, n)| == n && Count(Range(a, n), b) == if a <= b < a + n then 1 else 0
  {
    if n > 0 {
      CountRange(a, n - 1, b);
      CountEnd(Range(a, n - 1), a + n - 1, b);
    }
  }

  lemma StartHasInv(tx: nat, rx: nat)
    ensures Inv(Start(tx, rx), tx, rx)
  {
    forall b: nat
      ensures SortedAt(Start(tx, rx).lists, tx, rx, b)
    {
      CountRange(0, tx, b);
      CountRange(tx, rx, b);
    }
    CountRange(0, tx, 0);
  }

  /** In every interleaving of senders, completions, receiving and disconnecting: every buffer is
      in one list with the flag that goes with it, permits never exceed free buffers until the
      disconnect, nobody who got a permit finds no buffer, every send buffer that is not free, on the
      way or coming back is counted as lost, and every packet is reported once when
      its sender is done and not before. */
  lemma PoolIsSafe(tx: nat, rx: nat, steps: seq<Step>)
    ensures var s := Run(Start(tx, rx), tx, steps);
            && Sorted(s.lists, tx, rx)
            && (!s.stop ==> s.permits <= |s.lists.txFree|)
            && !s.noBuffer && Balanced(s, tx)
            && forall i: nat :: Count(s.completed, i) == if At(s, i, Finished) then 1 else 0
  {
    StartHasInv(tx, rx);
    RunKeepsInv(Start(tx, rx), tx, rx, steps);
  }

  // ------------------------------------------------------------------ after a failure

  /** Senders from the n-th on have been refused, or will be. */
  predicate Refused(s: State, n: nat) {
    forall i | n <= i < |s.senders| :: s.senders[i].Entered? || s.senders[i].Failing? || s.senders[i].Finished?
  }

  /** Once the device is stopped or in error, whoever comes after takes neither a permit nor a buffer:
      it is refused at the first check. */
  lemma {:induction false} LatecomersRefused(s: State, n: nat, tx: nat, steps: seq<Step>)
    requires Bad(s) && n <= |s.senders| && Refused(s, n)
    ensures Bad(Run(s, tx, steps)) && Refused(Run(s, tx, steps), n)
    decreases |steps|
  {
    if steps != [] {
      if Enabled(s, tx, steps[0]) { StepRefuses(s, n, tx, steps[0]); }
      LatecomersRefused(if Enabled(s, tx, steps[0]) then Apply(s, tx, steps[0]) else s, n, tx, steps[1..]);
    }
  }

  lemma StepRefuses(s: State, n: nat, tx: nat, step: Step)
    requires Bad(s) && n <= |s.senders| && Refused(s, n) && Enabled(s, tx, step)
    ensures Bad(Apply(s, tx, step)) && Refused(Apply(s, tx, step), n)
  {}

  predicate Beyond(pc: Pc) {
    pc.Passed? || pc.Owns? || pc.InFlight?
  }

  /** From then on nobody gets past the second check either: only who was already may still submit. */
  lemma {:induction false} NobodyGetsBeyond(s: State, tx: nat, steps: seq<Step>, i: nat)
    requires Bad(s) && i < |Run(s, tx, steps).senders| && Beyond(Run(s, tx, steps).senders[i])
    ensures i < |s.senders| && Beyond(s.senders[i])
    decreases |steps|
  {
    if steps != [] {
      NobodyGetsBeyond(if Enabled(s, tx, steps[0]) then Apply(s, tx, steps[0]) else s, tx, steps[1..], i);
      if Enabled(s, tx, steps[0]) { StepGetsNobodyBeyond(s, tx, steps[0], i); }
    }
  }

  lemma StepGetsNobodyBeyond(s: State, tx: nat, step: Step, i: nat)
    requires Bad(s) && Enabled(s, tx, step)
    ensures Bad(Apply(s, tx, step))
    ensures i < |Apply(s, tx, step).senders| && Beyond(Apply(s, tx, step).senders[i]) ==> i < |s.senders| && Beyond(s.senders[i])
  {}

  // ------------------------------------------------------------------ what is lost

  /** The step takes a permit away for good: a second check that finds the device in error, a URB that
      is refused, or no memory for the copy, in which case the buffer is gone too. */
  predicate Loses(s: State, step: Step) {
    (step.Check2? && Bad(s)) || (step.Submit? && !step.ok) || step.NoMemory?
  }

  predicate NeverLoses(s: State, tx: nat, steps: seq<Step>)
    decreases |steps|
  {
    steps != [] ==>
      && !(Enabled(s, tx, steps[0]) && Loses(s, steps[0]))
      && NeverLoses(if Enabled(s, tx, steps[0]) then Apply(s, tx, steps[0]) else s, tx, steps[1..])
  }

  lemma LossCounted(s: State, tx: nat, step: Step)
    requires Enabled(s, tx, step)
    ensures var s' := Apply(s, tx, step);
            s'.wasted + s'.lost == s.wasted + s.lost + if Loses(s, step) then 1 else 0
  {}

  lemma {:induction false} LossesCounted(s: State, tx: nat, steps: seq<Step>)
    ensures var s' := Run(s, tx, steps);
            && s.wasted + s.lost <= s'.wasted + s'.lost
            && (s'.wasted + s'.lost == s.wasted + s.lost <==> NeverLoses(s, tx, steps))
    decreases |steps|
  {
    if steps != [] {
      if Enabled(s, tx, steps[0]) { LossCounted(s, tx, steps[0]); }
      LossesCounted(if Enabled(s, tx, steps[0]) then Apply(s, tx, steps[0]) else s, tx, steps[1..]);
    }
  }

  /** Nobody is on the way: no sender holds a permit or a buffer, no URB is out, nothing comes back. */
  predicate AtRest(s: State) {
    && !s.stop && s.urbs == {} && s.returning == {} && s.ups == 0
    && forall i | 0 <= i < |s.senders| :: !s.senders[i].Holding? && !s.senders[i].Passed? && !s.senders[i].Owns?
  }

  lemma {:induction false} NoneTallied(senders: seq<Pc>)
    requires forall i | 0 <= i < |senders| :: !senders[i].Holding? && !senders[i].Passed? && !senders[i].Owns?
    ensures Tally(senders, Holding) == Tally(senders, Passed) == Owners(senders) == 0
  {
    if senders != [] { NoneTallied(senders[1..]); }
  }

  /** Whenever a device that has not been stopped comes to rest, in any run, all permits there were at
      the start are there, wasted or lost, all buffers free or lost; so all permits are back exactly
      if no step lost one. */
  lemma RestoredExactlyWithoutLoss(tx: nat, rx: nat, steps: seq<Step>)
    requires AtRest(Run(Start(tx, rx), tx, steps))
    ensures var s := Run(Start(tx, rx), tx, steps);
            && s.permits + s.wasted + s.lost == tx && |s.lists.txFree| + s.lost == tx
            && (s.permits == tx <==> NeverLoses(Start(tx, rx), tx, steps))
  {
    var s := Run(Start(tx, rx), tx, steps);
    StartHasInv(tx, rx);
    RunKeepsInv(Start(tx, rx), tx, rx, steps);
    NoneTallied(s.senders);
    LossesCounted(Start(tx, rx), tx, steps);
  }

  /** A packet that needs a copy, and no memory for it. */
  const ShortOfMemory: seq<Step> := [Enter, Check1(0), Down(0)] + [Check2(0), DeqTx(0), NoMemory(0)]

  /** Once is enough: of a pool with one buffer nothing is left, with nobody under way. */
  lemma OneBufferLost()
    ensures var s := Run(Start(1, 0), 1, ShortOfMemory);
            AtRest(s) && s.senders == [Finished] && s.permits == 0 && s.lists.txFree == [] && s.wasted == 0 && s.lost == 1
  {
    assert Range(0, 1) == [0];
    RunConcat(Start(1, 0), 1, [Enter, Check1(0), Down(0)], [Check2(0), DeqTx(0), NoMemory(0)]);
    TakesPermit(Start(1, 0));
    LosesBoth(Run(Start(1, 0), 1, [Enter, Check1(0), Down(0)]));
  }

  lemma TakesPermit(s: State)
    requires s.senders == [] && s.permits == 1 && !Bad(s)
    ensures Run(s, 1, [Enter, Check1(0), Down(0)]) == s.(senders := [Holding], permits := 0)
  {
    RunFirst(s, s.(senders := [Entered]), 1, Enter, [Check1(0), Down(0)]);
    RunFirst(s.(senders := [Entered]), s.(senders := [Waiting]), 1, Check1(0), [Down(0)]);
    RunFirst(s.(senders := [Waiting]), s.(senders := [Holding], permits := 0), 1, Down(0), []);
  }

  lemma LosesBoth(s: State)
    requires s.senders == [Holding] && !Bad(s) && s.lists.txFree == [0]
    ensures Run(s, 1, [Check2(0), DeqTx(0), NoMemory(0)])
         == s.(senders := [Finished], lists := Take(s.lists, false), completed := s.completed + [0], lost := s.lost + 1)
  {
    var s1 := s.(senders := [Passed]);
    var s2 := s.(senders := [Owns(0)], lists := Take(s.lists, false));
    var s3 := s2.(senders := [Finished], completed := s.completed + [0], lost := s.lost + 1);
    RunFirst(s, s1, 1, Check2(0), [DeqTx(0), NoMemory(0)]);
    RunFirst(s1, s2, 1, DeqTx(0), [NoMemory(0)]);
    RunFirst(s2, s3, 1, NoMemory(0), []);
  }

  lemma RunFirst(s: State, s': State, tx: nat, step: Step, rest: seq<Step>)
    requires Enabled(s, tx, step) && s' == Apply(s, tx, step)
    ensures Run(s, tx, [step] + rest) == Run(s', tx, rest)
  {
    assert ([step] + rest)[1..] == rest;
  }

  // ------------------------------------------------------------------ a sender undisturbed

  lemma {:induction false} RunConcat(s: State, tx: nat, a: seq<Step>, b: seq<Step>)
    ensures Run(s, tx, a + b) == Run(Run(s, tx, a), tx, b)
    decreases |a|
  {
    if a == [] {
      assert a + b == b;
    } else {
      assert (a + b)[1..] == a[1..] + b;
      RunConcat(if Enabled(s, tx, a[0]) then Apply(s, tx, a[0]) else s, tx, a[1..], b);
    }
  }

  lemma RunStep(s: State, tx: nat, steps: seq<Step>, step: Step)
    requires Enabled(Run(s, tx, steps), tx, step)
    ensures Run(s, tx, steps + [step]) == Apply(Run(s, tx, steps), tx, step)
  {
    var s', one := Run(s, tx, steps), [step];
    RunConcat(s, tx, steps, one);
    assert one[1..] == [];
    assert Run(s', tx, one) == Run(Apply(s', tx, step), tx, []);
  }

  method FilledPool(txCount: nat, rxCount: nat, txMemory: nat, rxMemory: nat) returns (p: Pool, n: nat, m: nat)
    ensures fresh(p) && n == (if txMemory < txCount then txMemory else txCount)
    ensures m == (if rxMemory < rxCount then rxMemory else rxCount)
    ensures p.Abs() == Lists(Range(0, n), Range(n, m), [], {})
  {
    p := new Pool();
    n := p.Qinit(0, txCount, false, txMemory);
    assert p.txFree == Range(0, n) && p.rxFree == [];
    m := p.Qinit(n, rxCount, true, rxMemory);
  }

  /** The device; rest adds to its fields where the senders and URBs are, and the history. */
  class Usb {
    const pool: Pool
    ghost const tx: nat
    var data: map<nat, nat>
    var permits: nat
    var stop: bool
    var err: bool
    ghost var rest: State

    /** All buffers free: as many of each kind as there is memory for. */
    constructor (txCount: nat, rxCount: nat, txMemory: nat, rxMemory: nat)
      ensures fresh(pool) && tx == (if txMemory < txCount then txMemory else txCount)
      ensures Abs() == Start(tx, if rxMemory < rxCount then rxMemory else rxCount)
    {
      var p, n, m := FilledPool(txCount, rxCount, txMemory, rxMemory);
      pool, tx := p, n;
      data, permits, stop, err := map[], n, false, false;
      rest := Start(n, m);
    }

    ghost function Abs(): State
      reads this, pool
    {
      State(pool.Abs(), rest.senders, data, rest.urbs, rest.returning, permits, rest.ups, rest.wasted,
            rest.lost, stop, rest.stopUps, err, rest.completed, rest.noBuffer)
    }

    /** What a step does to the senders, the URBs and the history. */
    ghost method Note(start: State, steps: seq<Step>, step: Step) returns (steps': seq<Step>)
      requires Abs() == Run(start, tx, steps) && Enabled(Abs(), tx, step)
      modifies this`rest
      ensures steps' == steps + [step] && rest == Apply(old(Abs()), tx, step) && Run(start, tx, steps') == rest
    {
      RunStep(start, tx, steps, step);
      rest := Apply(Abs(), tx, step);
      steps' := steps + [step];
    }

    /** Sends packet skb, numbered by its arrival: it is submitted, or reported as failed at once. A
        copy is needed for a packet that is not aligned; error is what the submission is refused
        with, or 0. */
    method TxPacket(skb: nat, needsCopy: bool, memory: bool, error: int) returns (ret: int, ghost steps: seq<Step>)
      requires skb == |Abs().senders|
      modifies this, pool
      ensures Abs() == Run(old(Abs()), tx, steps)
      ensures Settled(old(Abs()).completed, Abs(), skb, ret)
      ensures ret == if old(stop) || old(err) || old(permits) == 0 then -5
                     else if old(pool.txFree) == [] then -12
                     else if needsCopy && !memory then -1 else error
    {
      ghost var start := Abs();
      assert Run(start, tx, []) == start;
      steps := Note(start, [], Enter);
      steps := Note(start, steps, Check1(skb));
      if stop || err {
        steps := Report(start, steps, skb);
        return -EIO, steps;
      }
      ret, steps := Waits(start, steps, skb, needsCopy, memory, error);
    }

    /** Reports the packet as failed. */
    ghost method Report(start: State, before: seq<Step>, skb: nat) returns (steps: seq<Step>)
      requires Abs() == Run(start, tx, before) && At(Abs(), skb, Failing)
      modifies this`rest
      ensures Abs() == Run(start, tx, steps) && At(Abs(), skb, Finished) && Abs().completed == old(Abs()).completed + [skb]
    {
      steps := Note(start, before, Fail(skb));
    }

    /** The part from waiting for a permit on. */
    method Waits(ghost start: State, ghost before: seq<Step>, skb: nat, needsCopy: bool, memory: bool, error: int)
      returns (ret: int, ghost steps: seq<Step>)
      requires Abs() == Run(start, tx, before) && At(Abs(), skb, Waiting)
      modifies this, pool
      ensures Abs() == Run(start, tx, steps) && Settled(old(Abs()).completed, Abs(), skb, ret)
      ensures !stop && !err ==>
                ret == if old(permits) == 0 then -5 else if old(pool.txFree) == [] then -12
                       else if needsCopy && !memory then -1 else error
      ensures stop == old(stop) && err == old(err)
    {
      if permits == 0 {
        steps := Note(start, before, TimeOut(skb));
        steps := Report(start, steps, skb);
        return -EIO, steps;
      }
      steps := Note(start, before, Down(skb));
      permits := permits - 1;
      steps := Note(start, steps, Check2(skb));
      if stop || err {
        steps := Report(start, steps, skb);
        return -EIO, steps;
      }
      ret, steps := Submits(start, steps, skb, needsCopy, memory, error);
    }

    /** The part behind the second check. */
    method Submits(ghost start: State, ghost before: seq<Step>, skb: nat, needsCopy: bool, memory: bool, error: int)
      returns (ret: int, ghost steps: seq<Step>)
      requires Abs() == Run(start, tx, before) && At(Abs(), skb, Passed)
      modifies this`rest, this`data, pool
      ensures Abs() == Run(start, tx, steps) && Settled(old(Abs()).completed, Abs(), skb, ret)
      ensures ret == if old(pool.txFree) == [] then -12 else if needsCopy && !memory then -1 else error
    {
      steps := Note(start, before, DeqTx(skb));
      var buf := pool.Deq(false);
      if buf.None? {
        steps := Report(start, steps, skb);
        return -ENOMEM, steps;
      }
      if needsCopy && !memory {
        steps := Note(start, steps, NoMemory(skb));
        return -1, steps;
      }
      ret, steps := SubmitUrb(start, steps, skb, buf.value, error);
    }

    /** Submits the buffer, or gives it back. */
    method SubmitUrb(ghost start: State, ghost before: seq<Step>, skb: nat, b: nat, error: int)
      returns (ret: int, ghost steps: seq<Step>)
      requires Abs() == Run(start, tx, before) && At(Abs(), skb, Owns(b))
      modifies this`rest, this`data, pool
      ensures Abs() == Run(start, tx, steps) && Settled(old(Abs()).completed, Abs(), skb, ret) && ret == error
    {
      steps := Note(start, before, Submit(skb, error == 0));
      if error == 0 {
        data := data[b := skb];
        return 0, steps;
      }
      pool.Enq(b, false);
      steps := Report(start, steps, skb);
      ret := error;
    }

    /** The completion of a URB. */
    method TxComplete(b: nat) returns (ghost steps: seq<Step>)
      requires Enabled(Abs(), tx, Callback(b))
      modifies this, pool
      ensures Abs() == Run(old(Abs()), tx, steps)
      ensures Abs().completed == old(Abs()).completed + [old(Abs()).data[b]] && permits == old(permits) + 1
    {
      ghost var start := Abs();
      assert Run(start, tx, []) == start;
      steps := Note(start, [], Callback(b));
      data := data - {b};
      steps := Returns(start, steps, b);
    }

    /** Its second part: the buffer is free again, and the semaphore raised. */
    method Returns(ghost start: State, ghost before: seq<Step>, b: nat) returns (ghost steps: seq<Step>)
      requires Abs() == Run(start, tx, before) && b in Abs().returning
      modifies this`rest, this`permits, pool
      ensures Abs() == Run(start, tx, steps)
      ensures Abs().completed == old(Abs()).completed && permits == old(permits) + 1
    {
      steps := Note(start, before, GiveBack(b));
      pool.Enq(b, false);
      steps := Note(start, steps, Up);
      permits := permits + 1;
    }

    /** The disconnect up to the freeing. */
    method Disconnect() returns (ghost steps: seq<Step>)
      requires !Abs().stop && Abs().stopUps == 0
      modifies this
      ensures Abs() == Run(old(Abs()), tx, steps) && stop && permits == old(permits) + 1
    {
      ghost var start := Abs();
      assert Run(start, tx, []) == start;
      steps := Note(start, [], Stop);
      stop := true;
      steps := Note(start, steps, StopUp);
      permits := permits + 1;
    }
  }

  /** What has become of a packet when the sender returns: 0 means that its URB is under way. */
  predicate Settled(before: seq<nat>, s: State, skb: nat, ret: int) {
    && skb < |s.senders|
    && if ret == 0 then s.senders[skb].InFlight? && s.completed == before
       else s.senders[skb] == Finished && s.completed == before + [skb]
  }
}

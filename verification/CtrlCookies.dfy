/** Fresh cookies and late responses (utils/fwctrl.c): who shares a cookie with whom, and whom a
    response reaches. */
module CtrlCookies {
  import opened Basics
  import opened Machine
  import opened FwCtrl
  import opened CtrlBuffers

  /** All waiters, listed or about to be. */
  function Pending(s: State): seq<Waiter> {
    s.ready + s.pdList
  }

  /** Drawn cookies are numbered without repetition. */
  predicate Numbered(s: State) {
    && (forall i | 0 <= i < |Pending(s)| && Pending(s)[i].origin.Drawn? ::
          Pending(s)[i].origin.serial < s.drawn && Pending(s)[i].cookie == CookieOf(Pending(s)[i].origin.serial))
    && forall i, j | 0 <= i < j < |Pending(s)| && Pending(s)[i].origin.Drawn? :: Pending(s)[j].origin != Pending(s)[i].origin
  }

  lemma WithoutAt<T>(s: seq<T>, i: nat, j: nat)
    requires i < |s| && j < |s| - 1
    ensures Without(s, i)[j] == s[if j < i then j else j + 1]
  {}

  /** The place in the old list of the k-th waiter of the new one. */
  function WasAt(s: State, step: Step, k: nat): nat
    requires Enabled(s, step)
  {
    match step
    case Enlist(i) =>
      if k < |s.ready| - 1 then (if k < i then k else k + 1)
      else if k == |s.ready| - 1 then i else k
    case Leave(i) => if k < |s.ready| + i then k else k + 1
    case Draw => if k < |s.ready| then k else if k == |s.ready| then |Pending(s)| else k - 1
    case DrawUnused => if k < |s.ready| then k else if k == |s.ready| then |Pending(s)| else k - 1
    case Reuse(_) => if k < |s.ready| then k else if k == |s.ready| then |Pending(s)| else k - 1
    case _ => k
  }

  lemma StepMoves(s: State, step: Step, k: nat)
    requires Enabled(s, step) && k < |Pending(Apply(s, step))|
    ensures var was := WasAt(s, step, k);
            var w := Pending(Apply(s, step))[k];
            if was < |Pending(s)| then w.cookie == Pending(s)[was].cookie && w.origin == Pending(s)[was].origin
            else k == |s.ready| && w.origin == (if step.Draw? then Drawn(s.drawn) else Reused)
                 && (step.Draw? ==> w.cookie == CookieOf(s.drawn))
  {
    match step
    case Enlist(i) => EnlistMoves(s, i, k);
    case Leave(i) => LeaveMoves(s, i, k);
    case Handle => HandledKeepsPlaces(s.(rxq := s.rxq[1..]), s.rxq[0], k);
    case _ =>
  }

  lemma EnlistMoves(s: State, i: nat, k: nat)
    requires Enabled(s, Enlist(i)) && k < |Pending(Apply(s, Enlist(i)))|
    ensures var was := WasAt(s, Enlist(i), k);
            was < |Pending(s)| && Pending(Apply(s, Enlist(i)))[k] == Pending(s)[was]
  {
    if k < |s.ready| - 1 { WithoutAt(s.ready, i, k); }
  }

  lemma LeaveMoves(s: State, i: nat, k: nat)
    requires Enabled(s, Leave(i)) && k < |Pending(Apply(s, Leave(i)))|
    ensures var was := WasAt(s, Leave(i), k);
            was < |Pending(s)| && Pending(Apply(s, Leave(i)))[k] == Pending(s)[was]
  {
    if k >= |s.ready| { WithoutAt(s.pdList, i, k - |s.ready|); }
  }

  lemma HandledKeepsPlaces(s: State, b: Buffer, k: nat)
    requires k < |Pending(Handled(s, b))|
    ensures k < |Pending(s)| && Pending(Handled(s, b))[k].cookie == Pending(s)[k].cookie
    ensures Pending(Handled(s, b))[k].origin == Pending(s)[k].origin
  {}

  lemma StepKeepsNumbered(s: State, step: Step)
    requires Numbered(s) && Enabled(s, step)
    ensures Numbered(Apply(s, step))
  {
    var s' := Apply(s, step);
    forall i | 0 <= i < |Pending(s')| && Pending(s')[i].origin.Drawn?
      ensures Pending(s')[i].origin.serial < s'.drawn && Pending(s')[i].cookie == CookieOf(Pending(s')[i].origin.serial)
    {
      StepMoves(s, step, i);
    }
    forall i, j | 0 <= i < j < |Pending(s')| && Pending(s')[i].origin.Drawn?
      ensures Pending(s')[j].origin != Pending(s')[i].origin
    {
      StepMoves(s, step, i);
      StepMoves(s, step, j);
      DifferentPlaces(s, step, i, j);
    }
  }

  lemma DifferentPlaces(s: State, step: Step, i: nat, j: nat)
    requires Enabled(s, step) && i < j < |Pending(Apply(s, step))|
    ensures WasAt(s, step, i) != WasAt(s, step, j)
  {}

  lemma {:induction false} RunsKeepNumbered(s: State, steps: seq<Step>)
    requires Numbered(s)
    ensures Numbered(Run(s, steps))
    decreases |steps|
  {
    if steps != [] {
      if Enabled(s, steps[0]) { StepKeepsNumbered(s, steps[0]); }
      RunsKeepNumbered(if Enabled(s, steps[0]) then Apply(s, steps[0]) else s, steps[1..]);
    }
  }

  /** Fewer than k cookies have been drawn since the draw with this number. */
  predicate Young(s: State, serial: nat, k: nat) {
    serial < s.drawn <= serial + k
  }

  lemma SameCookieSameSerial(s: State, m: nat, n: nat, k: nat)
    requires k <= COOKIES && Young(s, m, k) && Young(s, n, k) && CookieOf(m) == CookieOf(n)
    ensures m == n
  {}

  /** While fewer than 32768 cookies are drawn during their lives, no two pending commands share a
      cookie. */
  lemma FreshCookiesDiffer(steps: seq<Step>, i: nat, j: nat)
    requires var s := Run(Start, steps);
             && i < j < |Pending(s)|
             && Pending(s)[i].origin.Drawn? && Young(s, Pending(s)[i].origin.serial, COOKIES)
             && Pending(s)[j].origin.Drawn? && Young(s, Pending(s)[j].origin.serial, COOKIES)
    ensures Pending(Run(Start, steps))[i].cookie != Pending(Run(Start, steps))[j].cookie
  {
    var s := Run(Start, steps);
    RunsKeepNumbered(Start, steps);
    assert Pending(s)[i].origin != Pending(s)[j].origin;
    if Pending(s)[i].cookie == Pending(s)[j].cookie {
      SameCookieSameSerial(s, Pending(s)[i].origin.serial, Pending(s)[j].origin.serial, COOKIES);
    }
  }

  // ------------------------------------------------------------------ late responses

  predicate ListedSerial(s: State, serial: nat) {
    exists i :: 0 <= i < |s.pdList| && s.pdList[i].origin == Drawn(serial)
  }

  predicate AllYoung(s: State) {
    forall i | 0 <= i < |s.pdList| && s.pdList[i].origin.Drawn? :: Young(s, s.pdList[i].origin.serial, COOKIES)
  }

  /** No OTA packet or data block among the first n of the list waits with the cookie. */
  predicate NoReuser(pdList: seq<Waiter>, n: nat, cookie: u16) {
    forall j | 0 <= j < n && j < |pdList| && pdList[j].origin.Reused? :: pdList[j].cookie != cookie
  }

  /** A response, carrying the cookie of the command it answers, reaches no other command; it reaches
      its own if that is still listed and no OTA packet or data block with the same cookie was listed
      later; after a time-out, with no such packet listed, it is freed. */
  lemma ResponseReachesItsCommand(s: State, b: Buffer)
    requires Numbered(s) && AllYoung(s)
    requires b.kind == Response && b.cookie == CookieOf(b.to) && Young(s, b.to, COOKIES)
    ensures var s' := Handled(s, b);
            && |s'.pdList| == |s.pdList|
            && (forall k | 0 <= k < |s.pdList| && s.pdList[k].origin.Drawn? && s.pdList[k].origin != Drawn(b.to) ::
                  s'.pdList[k] == s.pdList[k])
            && (forall k | 0 <= k < |s.pdList| && s.pdList[k].origin == Drawn(b.to) && NoReuser(s.pdList, k, b.cookie) ::
                  s'.pdList == s.pdList[k := s.pdList[k].(skb := Some(b))])
            && (!ListedSerial(s, b.to) && NoReuser(s.pdList, |s.pdList|, b.cookie) ==>
                  s'.pdList == s.pdList && s'.freed == s.freed + multiset{b})
  {
    forall k | 0 <= k < |s.pdList| && s.pdList[k].origin.Drawn?
      ensures (s.pdList[k].cookie == b.cookie) == (s.pdList[k].origin == Drawn(b.to))
    {
      assert s.pdList[k] == Pending(s)[|s.ready| + k];
      if s.pdList[k].cookie == b.cookie { SameCookieSameSerial(s, s.pdList[k].origin.serial, b.to, COOKIES); }
    }
    forall k | 0 <= k < |s.pdList| && s.pdList[k].origin == Drawn(b.to) && NoReuser(s.pdList, k, b.cookie)
      ensures Match(s.pdList, b.cookie) == k
    {
      OnlyOneDrawn(s, k, b.to);
      MatchIs(s.pdList, b.cookie, k);
    }
  }

  lemma OnlyOneDrawn(s: State, k: nat, serial: nat)
    requires Numbered(s) && k < |s.pdList| && s.pdList[k].origin == Drawn(serial)
    ensures forall j | 0 <= j < |s.pdList| && j != k :: s.pdList[j].origin != Drawn(serial)
  {
    forall j | 0 <= j < |s.pdList| && j != k
      ensures s.pdList[j].origin != Drawn(serial)
    {
      assert s.pdList[j] == Pending(s)[|s.ready| + j] && s.pdList[k] == Pending(s)[|s.ready| + k];
    }
  }

  // ------------------------------------------------------------------ over whole runs

  /** Whichever listed command has the response's cookie, no k cookies have been drawn since it and
      since the command that the response answers. */
  predicate TimelyResponse(s: State, b: Buffer, k: nat) {
    forall i | 0 <= i < |s.pdList| && s.pdList[i].origin.Drawn? && s.pdList[i].cookie == b.cookie ::
      b.cookie == CookieOf(b.to) && Young(s, b.to, k) && Young(s, s.pdList[i].origin.serial, k)
  }

  predicate TimelyStep(s: State, step: Step, k: nat) {
    step.Handle? && s.rxq != [] && s.rxq[0].kind == Response ==> TimelyResponse(s, s.rxq[0], k)
  }

  /** Every response is timely when it is handled. */
  predicate Timely(s: State, steps: seq<Step>, k: nat)
    decreases |steps|
  {
    steps != [] ==>
      && TimelyStep(s, steps[0], k)
      && Timely(if Enabled(s, steps[0]) then Apply(s, steps[0]) else s, steps[1..], k)
  }

  /** A command has the answer to itself, or none. */
  predicate RightAnswer(w: Waiter) {
    w.origin.Drawn? && w.skb.Some? ==> w.skb.value.to == w.origin.serial
  }

  predicate AllRight(ws: seq<Waiter>) {
    forall i | 0 <= i < |ws| :: RightAnswer(ws[i])
  }

  predicate RightAnswers(s: State) {
    AllRight(s.ready) && AllRight(s.pdList) && AllRight(s.returned)
  }

  lemma HandleKeepsRight(s: State)
    requires RightAnswers(s) && Numbered(s) && s.rxq != [] && TimelyStep(s, Handle, COOKIES)
    ensures RightAnswers(Apply(s, Handle))
  {
    var b := s.rxq[0];
    var i := Match(s.pdList, b.cookie);
    if b.kind == Response && i < |s.pdList| && s.pdList[i].origin.Drawn? {
      assert s.pdList[i] == Pending(s)[|s.ready| + i];
      SameCookieSameSerial(s, s.pdList[i].origin.serial, b.to, COOKIES);
    }
  }

  lemma StepKeepsRight(s: State, step: Step)
    requires RightAnswers(s) && Enabled(s, step) && !step.Handle?
    ensures RightAnswers(Apply(s, step))
  {}

  lemma {:induction false} RunsKeepRight(s: State, steps: seq<Step>)
    requires RightAnswers(s) && Numbered(s) && Timely(s, steps, COOKIES)
    ensures RightAnswers(Run(s, steps))
    decreases |steps|
  {
    if steps != [] {
      if Enabled(s, steps[0]) {
        StepKeepsNumbered(s, steps[0]);
        if steps[0].Handle? { HandleKeepsRight(s); } else { StepKeepsRight(s, steps[0]); }
      }
      RunsKeepRight(if Enabled(s, steps[0]) then Apply(s, steps[0]) else s, steps[1..]);
    }
  }

  // ------------------------------------------------------------------ without the bound

  /** A command that comes and goes without an answer. */
  const Unanswered: seq<Step> := [Draw, Enlist(0), MakeRoom(0), Queue(0), Leave(0)]

  function Timeouts(n: nat): seq<Step> {
    if n == 0 then [] else Timeouts(n - 1) + Unanswered
  }

  /** Nobody waits, and nothing is received. */
  predicate Quiet(s: State, drawn: nat) {
    s.drawn == drawn && s.ready == [] && s.pdList == [] && s.rxq == []
  }

  /** A caller alone goes from drawing to waiting. */
  lemma OneWaits(s: State, n: nat)
    requires Quiet(s, n)
    ensures var s' := Run(s, [Draw, Enlist(0), MakeRoom(0), Queue(0)]);
            && s'.drawn == n + 1 && s'.ready == [] && s'.rxq == []
            && s'.pdList == [Waiter(CookieOf(n), Drawn(n), Queued, None)]
  {
    var w := Waiter(CookieOf(n), Drawn(n), Listed, None);
    var s1 := Apply(s, Draw);
    assert s1.ready == [w];
    RunStep(s, Draw, [Enlist(0), MakeRoom(0), Queue(0)]);
    var s2 := Apply(s1, Enlist(0));
    assert s2.ready == [] && s2.pdList == [w];
    RunStep(s1, Enlist(0), [MakeRoom(0), Queue(0)]);
    var s3 := Apply(s2, MakeRoom(0));
    RunStep(s2, MakeRoom(0), [Queue(0)]);
    RunStep(s3, Queue(0), []);
  }

  lemma OneTimesOut(s: State, n: nat)
    requires Quiet(s, n)
    ensures Quiet(Run(s, Unanswered), n + 1)
  {
    var waits := [Draw, Enlist(0), MakeRoom(0), Queue(0)];
    OneWaits(s, n);
    assert Unanswered == waits + [Leave(0)];
    RunConcat(s, waits, [Leave(0)]);
    RunStep(Run(s, waits), Leave(0), []);
  }

  lemma {:induction false} TimeoutsAreQuiet(n: nat)
    ensures Quiet(Run(Start, Timeouts(n)), n)
  {
    if n > 0 {
      TimeoutsAreQuiet(n - 1);
      RunConcat(Start, Timeouts(n - 1), Unanswered);
      OneTimesOut(Run(Start, Timeouts(n - 1)), n - 1);
    }
  }

  /** The late response to command n, when 32768 cookies have been drawn since. */
  function Late(n: nat): Buffer {
    Buffer(0, Response, CookieOf(n), n)
  }

  /** m commands time out, the next one waits, and a buffer comes. */
  function LateRun(m: nat, b: Buffer): seq<Step> {
    Timeouts(m) + [Draw, Enlist(0), MakeRoom(0), Queue(0)] + [Arrive(b), Handle]
  }

  lemma LateRunDelivers(m: nat, b: Buffer)
    requires b.kind == Response && b.cookie == CookieOf(m)
    ensures Run(Start, LateRun(m, b)).pdList == [Waiter(CookieOf(m), Drawn(m), Queued, Some(b))]
  {
    var s, waits := Run(Start, Timeouts(m)), [Draw, Enlist(0), MakeRoom(0), Queue(0)];
    TimeoutsAreQuiet(m);
    OneWaits(s, m);
    RunConcat(Start, Timeouts(m), waits);
    RunConcat(Start, Timeouts(m) + waits, [Arrive(b), Handle]);
    WrongOneGets(Run(s, waits), b);
  }

  lemma DrawnAfter(m: nat)
    ensures Run(Start, Timeouts(m)).drawn == m && Run(Start, Timeouts(m) + [Draw]).drawn == m + 1
  {
    TimeoutsAreQuiet(m);
    RunConcat(Start, Timeouts(m), [Draw]);
    RunStep(Run(Start, Timeouts(m)), Draw, []);
  }

  /** Without the bound it is not so: command n times out, 32767 others do, and the late response to
      it goes to the next one. Up to the draw of that one command n was young; that draw made it
      old. */
  lemma LateResponseAfterWrap(n: nat)
    ensures var end := Run(Start, LateRun(n + COOKIES, Late(n)));
            end.pdList == [Waiter(CookieOf(n), Drawn(n + COOKIES), Queued, Some(Late(n)))] && !RightAnswers(end)
    ensures Young(Run(Start, Timeouts(n + COOKIES)), n, COOKIES)
    ensures !Young(Run(Start, Timeouts(n + COOKIES) + [Draw]), n, COOKIES)
  {
    CookieWraps(n);
    LateRunDelivers(n + COOKIES, Late(n));
    assert !RightAnswer(Run(Start, LateRun(n + COOKIES, Late(n))).pdList[0]);
    DrawnAfter(n + COOKIES);
  }

  lemma CookieWraps(n: nat)
    ensures CookieOf(n + COOKIES) == CookieOf(n)
  {}

  lemma WrongOneGets(s: State, b: Buffer)
    requires |s.pdList| == 1 && s.pdList[0].cookie == b.cookie && s.rxq == [] && b.kind == Response
    ensures Run(s, [Arrive(b), Handle]).pdList == [s.pdList[0].(skb := Some(b))]
  {
    var s1 := Apply(s, Arrive(b));
    assert s1.rxq == [b];
    RunStep(s, Arrive(b), [Handle]);
    RunStep(s1, Handle, []);
    assert Match(s.pdList, b.cookie) == 0;
  }

  // ------------------------------------------------------------------ exactly when

  lemma {:induction false} TimelyWithLess(s: State, steps: seq<Step>, k: nat, m: nat)
    requires k <= m && Timely(s, steps, k)
    ensures Timely(s, steps, m)
    decreases |steps|
  {
    if steps != [] { TimelyWithLess(if Enabled(s, steps[0]) then Apply(s, steps[0]) else s, steps[1..], k, m); }
  }

  /** A run that handles nothing before the last steps is as timely as they are. */
  lemma {:induction false} TimelyAtEnd(s: State, a: seq<Step>, b: seq<Step>, k: nat)
    requires (forall i | 0 <= i < |a| :: !a[i].Handle?) && Timely(Run(s, a), b, k)
    ensures Timely(s, a + b, k)
    decreases |a|
  {
    if a == [] {
      assert a + b == b;
    } else {
      assert (a + b)[0] == a[0] && (a + b)[1..] == a[1..] + b;
      TimelyAtEnd(if Enabled(s, a[0]) then Apply(s, a[0]) else s, a[1..], b, k);
    }
  }

  lemma {:induction false} TimeoutsHandleNothing(n: nat)
    ensures forall i | 0 <= i < |Timeouts(n)| :: !Timeouts(n)[i].Handle?
  {
    if n > 0 { TimeoutsHandleNothing(n - 1); }
  }

  /** The last response of the run is timely where one more draw than there are cookies is. */
  lemma LateRunTimely(k: nat)
    requires k > COOKIES
    ensures Timely(Start, LateRun(COOKIES, Late(0)), k)
  {
    var waits, b := [Draw, Enlist(0), MakeRoom(0), Queue(0)], Late(0);
    var s := Run(Start, Timeouts(COOKIES));
    TimeoutsAreQuiet(COOKIES);
    OneWaits(s, COOKIES);
    RunConcat(Start, Timeouts(COOKIES), waits);
    LateIsTimely(Run(s, waits), b, k);
    TimeoutsHandleNothing(COOKIES);
    TimelyAtEnd(Start, Timeouts(COOKIES) + waits, [Arrive(b), Handle], k);
  }

  lemma LateIsTimely(s: State, b: Buffer, k: nat)
    requires s.rxq == [] && TimelyResponse(s, b, k)
    ensures Timely(s, [Arrive(b), Handle], k)
  {
    var s1 := Apply(s, Arrive(b));
    assert s1.rxq == [b] && TimelyResponse(s1, b, k);
    assert [Arrive(b), Handle][1..] == [Handle] && [Handle][1..] == [];
    assert Timely(s1, [Handle], k);
  }

  /** That each command gets the answer to itself or none is so for all runs from the start, OTA
      packets and data blocks included, in which fewer than k cookies are drawn while a response is
      under way, exactly if k is at most 32768. */
  lemma CallersGetTheirAnswers(k: nat)
    ensures (forall steps | Timely(Start, steps, k) :: RightAnswers(Run(Start, steps))) <==> k <= 32768
  {
    if k <= COOKIES {
      forall steps | Timely(Start, steps, k) ensures RightAnswers(Run(Start, steps)) {
        TimelyWithLess(Start, steps, k, COOKIES);
        RunsKeepRight(Start, steps);
      }
    } else {
      LateRunTimely(k);
      LateResponseAfterWrap(0);
    }
  }

  // ------------------------------------------------------------------ one response a command

  /** No two responses received answer the same command. */
  ghost predicate OncePerCommand(received: multiset<Buffer>) {
    forall x, y | x in received && y in received && x.kind == Response && y.kind == Response && x.to == y.to ::
      x == y && received[x] == 1
  }

  /** The step replaces the response that a command has got. */
  predicate OverwritesCommand(s: State, step: Step) {
    Overwrites(s, step) && s.pdList[Match(s.pdList, s.rxq[0].cookie)].origin.Drawn?
  }

  predicate NoCommandOverwritten(s: State, steps: seq<Step>)
    decreases |steps|
  {
    steps != [] ==>
      && !OverwritesCommand(s, steps[0])
      && NoCommandOverwritten(if Enabled(s, steps[0]) then Apply(s, steps[0]) else s, steps[1..])
  }

  lemma StepHoldsResponses(s: State, step: Step)
    requires Enabled(s, step) && HoldResponses(s.pdList) && NothingHeld(s.ready)
    ensures HoldResponses(Apply(s, step).pdList)
  {}

  lemma {:induction false} HolderHolds(ws: seq<Waiter>, i: nat)
    requires i < |ws| && ws[i].skb.Some?
    ensures Held(ws, ws[i].skb.value) > 0
  {
    if i > 0 { HolderHolds(ws[1..], i - 1); }
  }

  lemma {:induction false} ReceivedGrows(s: State, steps: seq<Step>)
    ensures s.received <= Run(s, steps).received
    decreases |steps|
  {
    if steps != [] { ReceivedGrows(if Enabled(s, steps[0]) then Apply(s, steps[0]) else s, steps[1..]); }
  }

  lemma OnceBefore(earlier: multiset<Buffer>, later: multiset<Buffer>)
    requires earlier <= later && OncePerCommand(later)
    ensures OncePerCommand(earlier)
  {
    forall x, y | x in earlier && y in earlier && x.kind == Response && y.kind == Response && x.to == y.to
      ensures x == y && earlier[x] == 1
    {
      assert x in later && y in later && 0 < earlier[x] <= later[x];
    }
  }

  /** What a waiter holds and what comes next have both been received, twice if they are the same. */
  lemma BothReceived(s: State, i: nat)
    requires Conserved(s) && s.rxq != [] && i < |s.pdList| && s.pdList[i].skb.Some?
    ensures var x, b := s.pdList[i].skb.value, s.rxq[0];
            x in s.received && b in s.received && (x == b ==> s.received[x] >= 2)
  {
    var x, b := s.pdList[i].skb.value, s.rxq[0];
    HolderHolds(s.pdList, i);
    assert ConservedAt(s, x) && ConservedAt(s, b);
    QueueTakesOne(s.rxq);
  }

  /** The response that a command has, and the one that comes for it, would answer the same command. */
  lemma OverwritingIsTwice(s: State)
    requires RightAnswers(s) && Numbered(s) && HoldResponses(s.pdList) && Conserved(s) && OncePerCommand(s.received)
    requires TimelyStep(s, Handle, COOKIES)
    ensures !OverwritesCommand(s, Handle)
  {
    if OverwritesCommand(s, Handle) {
      var b, i := s.rxq[0], Match(s.pdList, s.rxq[0].cookie);
      var w, x := s.pdList[i], s.pdList[i].skb.value;
      assert w == Pending(s)[|s.ready| + i];
      SameCookieSameSerial(s, w.origin.serial, b.to, COOKIES);
      assert x.to == b.to;
      BothReceived(s, i);
    }
  }

  lemma {:induction false} NoneOverwritten(s: State, steps: seq<Step>)
    requires RightAnswers(s) && Numbered(s) && HoldResponses(s.pdList) && Conserved(s)
    requires Timely(s, steps, COOKIES) && OncePerCommand(Run(s, steps).received)
    ensures NoCommandOverwritten(s, steps)
    decreases |steps|
  {
    if steps != [] {
      ReceivedGrows(s, steps);
      OnceBefore(s.received, Run(s, steps).received);
      if steps[0].Handle? { OverwritingIsTwice(s); }
      var s' := if Enabled(s, steps[0]) then Apply(s, steps[0]) else s;
      if Enabled(s, steps[0]) {
        StepKeepsNumbered(s, steps[0]);
        StepConserves(s, steps[0]);
        StepHoldsResponses(s, steps[0]);
        if steps[0].Handle? { HandleKeepsRight(s); } else { StepKeepsRight(s, steps[0]); }
      }
      NoneOverwritten(s', steps[1..]);
    }
  }

  /** If the device answers no command twice, and in time, no command's answer is ever replaced. */
  lemma AnsweredOnceNeverOverwritten(steps: seq<Step>)
    requires Timely(Start, steps, COOKIES) && OncePerCommand(Run(Start, steps).received)
    ensures NoCommandOverwritten(Start, steps)
  {
    NoneOverwritten(Start, steps);
  }

  predicate OnlyDrawn(ws: seq<Waiter>) {
    forall i | 0 <= i < |ws| :: ws[i].origin.Drawn?
  }

  predicate NoReuse(steps: seq<Step>) {
    forall i | 0 <= i < |steps| :: !steps[i].DrawUnused? && !steps[i].Reuse?
  }

  lemma StepKeepsOnlyDrawn(s: State, step: Step)
    requires Enabled(s, step) && !step.DrawUnused? && !step.Reuse? && OnlyDrawn(s.ready) && OnlyDrawn(s.pdList)
    ensures OnlyDrawn(Apply(s, step).ready) && OnlyDrawn(Apply(s, step).pdList)
  {}

  lemma {:induction false} CommandsOnly(s: State, steps: seq<Step>)
    requires OnlyDrawn(s.ready) && OnlyDrawn(s.pdList) && NoReuse(steps) && NoCommandOverwritten(s, steps)
    ensures NeverOverwrites(s, steps)
    decreases |steps|
  {
    if steps != [] {
      if Enabled(s, steps[0]) { StepKeepsOnlyDrawn(s, steps[0]); }
      CommandsOnly(if Enabled(s, steps[0]) then Apply(s, steps[0]) else s, steps[1..]);
    }
  }

  /** And with commands only, nothing leaks. */
  lemma NothingLeaks(steps: seq<Step>)
    requires Timely(Start, steps, COOKIES) && OncePerCommand(Run(Start, steps).received) && NoReuse(steps)
    ensures Run(Start, steps).leaked == multiset{}
  {
    AnsweredOnceNeverOverwritten(steps);
    CommandsOnly(Start, steps);
    CtrlBuffers.EveryRunFromStart(steps);
  }
}

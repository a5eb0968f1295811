/** The credit window between host and device (hgic_fmac/core.c): the transmit worker looks at the
    window, asks for credit, looks again and takes one; the receive side sets the window to what
    the device grants, at any moment in between. */
module TxWindow {
  import opened Basics
  import opened Machine

  const TXWND_INIT_VAL := 3

  datatype Gate = Gate(softFc: bool, inBoot: bool, sleep: bool, suspend: bool, running: bool)

  class Window {
    var txwnd: int

    constructor ()
      ensures txwnd == TXWND_INIT_VAL
    {
      txwnd := TXWND_INIT_VAL;
    }

    /** One check. The grants are those that come in after the first look, and after the second. */
    method CheckTxwnd(g: Gate, minWnd: u8, first: Option<u16>, second: Option<u16>) returns (ret: int, requested: bool)
      modifies this
      ensures if !g.softFc || g.inBoot then ret == 0 && !requested && txwnd == old(txwnd)
              else if g.sleep || g.suspend || !g.running then ret == -1 && !requested && txwnd == old(txwnd)
              else (var seen := if first.Some? then first.value else old(txwnd);
                    && requested == (old(txwnd) < minWnd as int)
                    && (ret == 0 <==> seen >= minWnd as int) && (ret == 0 || ret == -1)
                    && txwnd == if seen < minWnd as int then seen
                                else (if second.Some? then second.value else seen) - 1)
    {
      requested := false;
      if !g.softFc || g.inBoot { return 0, requested; }
      if g.sleep || g.suspend || !g.running { return -1, requested; }
      if txwnd < minWnd as int { requested := true; }
      if first.Some? { txwnd := first.value; }
      if txwnd < minWnd as int { return -1, requested; }
      if second.Some? { txwnd := second.value; }
      txwnd := txwnd - 1;
      ret := 0;
    }
  }

  // ------------------------------------------------------------------ all the steps together

  /** Where the worker is: not looking; has found the window too small and asks for credit; is about
      to look again; has found it large enough; has taken a credit and may send a packet. */
  datatype Pc = Idle | Short | Again | Enough | Paid

  /** granted is the last grant (the initial window counts as one); taken the credits taken since;
      stale whether one of them was taken on a look from before that grant; looked whether the look
      that the worker relies on is from before it. credits and packets count over the whole run. */
  datatype State = State(
    txwnd: int,
    pc: Pc,
    granted: nat,
    taken: nat,
    stale: bool,
    looked: bool,
    requests: nat,
    credits: nat,
    packets: nat,
    frames: nat)

  const Start: State := State(TXWND_INIT_VAL, Idle, TXWND_INIT_VAL, 0, false, false, 0, 0, 0, 0)

  datatype Step =
    | Look1
    | Request
    | Look2
    | Take
    | Send(frames: nat)   // one packet to the bus: a frame, or an aggregate of any number
    | Skip                // the queue has been emptied meanwhile
    | Grant(w: u16)

  predicate Enabled(s: State, step: Step) {
    match step
    case Look1 => s.pc.Idle?
    case Request => s.pc.Short?
    case Look2 => s.pc.Again?
    case Take => s.pc.Enough?
    case Send(frames) => s.pc.Paid? && frames > 0
    case Skip => s.pc.Paid?
    case Grant(_) => true
  }

  function Apply(s: State, step: Step): State
    requires Enabled(s, step)
  {
    match step
    case Look1 => s.(pc := if s.txwnd < TXWND_INIT_VAL then Short else Again)
    case Request => s.(pc := Again, requests := s.requests + 1)
    case Look2 => s.(pc := if s.txwnd < TXWND_INIT_VAL then Idle else Enough, looked := false)
    case Take =>
      s.(pc := Paid, txwnd := s.txwnd - 1, taken := s.taken + 1, stale := s.stale || s.looked, credits := s.credits + 1)
    case Send(frames) => s.(pc := Idle, packets := s.packets + 1, frames := s.frames + frames)
    case Skip => s.(pc := Idle)
    case Grant(w) => s.(txwnd := w, granted := w, taken := 0, stale := false, looked := s.pc.Enough?)
  }

  /** A run: steps that cannot be taken are passed over. */
  function Run(s: State, steps: seq<Step>): State
    decreases |steps|
  {
    if steps == [] then s else Run(if Enabled(s, steps[0]) then Apply(s, steps[0]) else s, steps[1..])
  }

  function Max(a: int, b: int): int {
    if a > b then a else b
  }

  /** The window is the last grant less the credits taken since, of which there are at most two
      fewer than granted, and at least one only on a look from before the grant. */
  predicate Credited(s: State) {
    && s.txwnd == s.granted - s.taken
    && s.taken <= Max(if s.stale then 1 else 0, s.granted - 2) && (s.stale ==> s.taken >= 1)
    && (s.pc.Enough? && !s.looked ==> s.txwnd >= TXWND_INIT_VAL)
    && (s.pc.Enough? && s.looked ==> s.taken == 0)
    && s.credits >= s.packets + if s.pc.Paid? then 1 else 0
  }

  lemma StepKeepsCredited(s: State, step: Step)
    requires Credited(s) && Enabled(s, step)
    ensures Credited(Apply(s, step))
  {}

  lemma {:induction false} RunsKeepCredited(s: State, steps: seq<Step>)
    requires Credited(s)
    ensures Credited(Run(s, steps))
    decreases |steps|
  {
    if steps != [] {
      if Enabled(s, steps[0]) { StepKeepsCredited(s, steps[0]); }
      RunsKeepCredited(if Enabled(s, steps[0]) then Apply(s, steps[0]) else s, steps[1..]);
    }
  }

  lemma CreditBounds(s: State)
    requires Credited(s)
    ensures s.txwnd >= -1 && (s.txwnd < 0 <==> s.stale && s.granted == 0)
    ensures s.taken <= Max(1, s.granted - 2) && (!s.stale ==> s.taken <= Max(0, s.granted - 2))
    ensures s.packets <= s.credits
  {}

  /** In every interleaving the window never falls below -1, and is there exactly after a grant of 0
      with a credit taken on a look from before it; since a grant of w at most
      max(1, w - 2) credits have been taken, and at most max(0, w - 2) if no look relied on was older
      than the grant; every packet, however many frames are in it, has cost a credit of its own. */
  lemma WindowRespected(steps: seq<Step>)
    ensures var s := Run(Start, steps);
            && s.txwnd >= -1 && (s.txwnd < 0 <==> s.stale && s.granted == 0)
            && s.taken <= Max(1, s.granted - 2)
            && (!s.stale ==> s.taken <= Max(0, s.granted - 2))
            && s.packets <= s.credits
  {
    RunsKeepCredited(Start, steps);
    CreditBounds(Run(Start, steps));
  }

  /** The bound is reached: when the device takes its grant back between the look and the taking,
      the window goes to -1. */
  lemma BelowZero()
    ensures Run(Start, [Look1, Look2, Grant(0), Take]).txwnd == -1
    ensures Run(Start, [Look1, Look2, Grant(0), Take]).stale
  {
    var s1 := Apply(Start, Look1);
    var s2 := Apply(s1, Look2);
    var s3 := Apply(s2, Grant(0));
    var s4 := Apply(s3, Take);
    assert Run(s3, [Take]) == Run(s4, []) == s4;
    assert Run(s2, [Grant(0), Take]) == Run(s3, [Take]);
    assert Run(s1, [Look2, Grant(0), Take]) == Run(s2, [Grant(0), Take]);
  }

  // ------------------------------------------------------------------ one check

  function Grants(w: Option<u16>): seq<Step> {
    if w.Some? then [Grant(w.value)] else []
  }

  /** The state after a grant that may come in. */
  function Granted(s: State, w: Option<u16>): State {
    if w.Some? then Apply(s, Grant(w.value)) else s
  }

  lemma {:induction false} RunConcat(s: State, a: seq<Step>, b: seq<Step>)
    ensures Run(s, a + b) == Run(Run(s, a), b)
    decreases |a|
  {
    if a == [] {
      assert a + b == b;
    } else {
      assert (a + b)[1..] == a[1..] + b;
      RunConcat(if Enabled(s, a[0]) then Apply(s, a[0]) else s, a[1..], b);
    }
  }

  lemma RunOne(s: State, step: Step)
    requires Enabled(s, step)
    ensures Run(s, [step]) == Apply(s, step)
  {
    assert [step][1..] == [];
  }

  lemma RunGrants(s: State, w: Option<u16>)
    ensures Run(s, Grants(w)) == Granted(s, w)
  {
    if w.Some? { RunOne(s, Grant(w.value)); }
  }

  /** The steps of one check with the grants that come in between do what CheckTxwnd does. */
  lemma CheckIsSteps(s: State, first: Option<u16>, second: Option<u16>)
    requires s.pc.Idle?
    ensures var seen := if first.Some? then first.value else s.txwnd;
            var asking := s.txwnd < TXWND_INIT_VAL;
            var looks := [Look1] + (if asking then [Request] else []) + Grants(first) + [Look2];
            var s' := Run(s, if seen < TXWND_INIT_VAL then looks else looks + Grants(second) + [Take]);
            && s'.requests == s.requests + (if asking then 1 else 0)
            && (s'.pc == if seen < TXWND_INIT_VAL then Idle else Paid)
            && s'.txwnd == if seen < TXWND_INIT_VAL then seen else (if second.Some? then second.value else seen) - 1
  {
    var asking := s.txwnd < TXWND_INIT_VAL;
    var ask := if asking then [Request] else [];
    var s1 := Apply(s, Look1);
    var s2 := if asking then Apply(s1, Request) else s1;
    var s3 := Granted(s2, first);
    var s4 := Apply(s3, Look2);
    RunOne(s, Look1);
    if asking { RunOne(s1, Request); }
    RunGrants(s2, first);
    RunOne(s3, Look2);
    RunConcat(s, [Look1], ask);
    RunConcat(s, [Look1] + ask, Grants(first));
    RunConcat(s, [Look1] + ask + Grants(first), [Look2]);
    if s3.txwnd >= TXWND_INIT_VAL {
      var looks := [Look1] + ask + Grants(first) + [Look2];
      var s5 := Granted(s4, second);
      RunGrants(s4, second);
      RunOne(s5, Take);
      RunConcat(s, looks, Grants(second));
      RunConcat(s, looks + Grants(second), [Take]);
    }
  }
}

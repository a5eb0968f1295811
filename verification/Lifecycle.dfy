/** A device from probe to removal (hgic_fmac/core.c): boot download, first initialisation,
    detection of a lost device, reload and sleep, and the transmit worker that these gate. A step is
    one pass of the worker's loops, one exchange with the boot loader, or what a work item does in
    between; the work items' steps interleave freely. */
module Lifecycle {
  import opened Machine
  import BootDl

  const FW := BootDl.STATE_FW
  const BOOT := BootDl.STATE_BOOT

  /** The module parameters, and what the bus can do. */
  datatype Config = Config(noBootdl: bool, qcMode: bool, ifAgg: bool, canReinit: bool, noPoll: bool)

  /** A control packet: whether it belongs to the boot loader, and whether it reads as the command to
      enter sleep. */
  datatype Ctrl = Ctrl(boot: bool, sleep: bool)

  /** What is handed to the bus. */
  datatype Out = Data(frames: nat) | Control(c: Ctrl) | AskCredit

  /** Something handed to the bus, and the state at that moment. */
  datatype Event = Event(out: Out, sleep: bool, inBoot: bool, reloading: bool)

  /** Where the init work is: not running; downloading; asking a restarted device; about to record
      the state of the firmware; about to lift the suspension; about to ask for firmware data. */
  datatype Init =
    | NoInit
    | Booting(status: int, retry: int, err: int)
    | Restarting(status: int, retry: int)
    | Recording(status: int)
    | Recorded(ok: bool)
    | Asking(ok: bool)

  /** Where the detection work is: not running, or probing the device. */
  datatype Detect = NoDetect | Probing(status: int, retry: int)

  datatype Flags = Flags(running: bool, suspend: bool, inited: bool, sleep: bool, inBoot: bool, error: bool, softFc: bool)

  /** scheduled says that the init work is to run. */
  datatype Work = Work(scheduled: bool, init: Init, detect: Detect)

  /** What was handed to the bus; whether a reload has been decided on and running firmware not
      recorded since; whether the device has said that firmware runs since the download began; how
      often running firmware was recorded without that; how many interfaces have been created. */
  datatype Log = Log(bus: seq<Event>, reloading: bool, heard: bool, unheard: nat, interfaces: nat)

  /** fwState is what is left of the state in a byte; dataq counts the frames queued. */
  datatype State = State(flags: Flags, fwState: nat, ctrlq: seq<Ctrl>, dataq: nat, work: Work, log: Log)

  const Probed: State :=
    State(Flags(true, false, false, false, false, false, false), 255, [], 0, Work(true, NoInit, NoDetect),
          Log([], false, false, 0, 0))

  function Byte8(status: int): nat {
    status % 0x100
  }

  /** What a pass of the worker meets: whether the bus takes a packet, whether it has to ask for
      credit and gets it, how many of the queued frames go in one packet. */
  datatype Pass = Pass(accepted: bool, asks: bool, credit: bool, frames: nat)

  /** Steps of the init work; entered is what asking the device to enter its loader ends with. */
  datatype InitStep =
    | Begin
    | BootTry(entered: int, download: int)          // one turn of the download loop
    | BootEnd                                       // the download loop ends
    | Restart(entered: int, reinit: int)            // one turn of the loop after a download
    | RestartEnd
    | Record                                        // the state of the firmware is recorded
    | Resume                                        // the suspension is lifted
    | Ask(info: int, version: u32, created: bool)   // firmware data is asked for; an interface is created

  datatype DetectStep =
    | Look(silent: bool)        // the work begins
    | DetectTry(entered: int)   // one turn of its loop
    | Decide

  datatype Step =
    | Xmit                     // the network hands a frame down
    | QueueCtrl(c: Ctrl)       // a control packet is queued
    | TxPass(p: Pass)          // one pass of the transmit worker
    | TxDone(ok: bool, sleepCmd: bool)   // the bus reports a packet as sent or not
    | Awake                    // the device is woken
    | InitWork(i: InitStep)
    | DetectWork(d: DetectStep)
    | Remove                   // the device is removed

  // ------------------------------------------------------------------ the transmit worker

  function Hand(s: State, out: Out): State {
    s.(log := s.log.(bus := s.log.bus + [Event(out, s.flags.sleep, s.flags.inBoot, s.log.reloading)]))
  }

  /** One control packet: in the loader only its own go out. */
  function TxCtrl(s: State, p: Pass): State
    requires s.ctrlq != []
  {
    var c := s.ctrlq[0];
    var s' := s.(ctrlq := s.ctrlq[1..]);
    if s.flags.inBoot && !c.boot then s'
    else Hand(s', Control(c)).(flags := s.flags.(sleep := s.flags.sleep || (p.accepted && c.sleep)))
  }

  /** The check of the credit window: asking for credit is a packet of its own. */
  function Checked(s: State, p: Pass): State {
    var f := s.flags;
    if f.softFc && !f.inBoot && !f.sleep && !f.suspend && f.running && p.asks then Hand(s, AskCredit) else s
  }

  predicate Open(f: Flags, p: Pass) {
    !f.softFc || f.inBoot || (!f.sleep && !f.suspend && f.running && p.credit)
  }

  /** How many frames the packet of a pass takes: one, unless aggregation is on and more wait. */
  function Taken(cfg: Config, dataq: nat, p: Pass): nat {
    if cfg.ifAgg && dataq > 1 && p.frames <= dataq then p.frames else 1
  }

  function TxData(cfg: Config, s: State, p: Pass): State
    requires s.dataq > 0
  {
    var s1, n := Checked(s, p), Taken(cfg, s.dataq, p);
    if !Open(s.flags, p) || n == 0 then s1 else Hand(s1, Data(n)).(dataq := s.dataq - n)
  }

  function TxOnce(cfg: Config, s: State, p: Pass): State {
    if s.ctrlq != [] then
      if s.flags.sleep || !s.flags.running then s.(ctrlq := []) else TxCtrl(s, p)
    else if DataFlows(s) then
      if s.flags.sleep || s.flags.inBoot then s.(dataq := 0) else TxData(cfg, s, p)
    else s
  }

  predicate DataFlows(s: State) {
    s.dataq > 0 && s.fwState == FW && s.flags.running && !s.flags.suspend
  }

  // ------------------------------------------------------------------ the init work

  /** What asking the device can end with. */
  predicate EnterCode(entered: int) {
    -0x100 < entered < 0x100
  }

  predicate InitEnabled(s: State, step: InitStep) {
    var i := s.work.init;
    match step
    case Begin => s.work.scheduled && i.NoInit?
    case BootTry(entered, _) => EnterCode(entered) && i.Booting? && i.status != FW && i.retry > 0 && i.err != 0
    case BootEnd => i.Booting? && !(i.status != FW && i.retry > 0 && i.err != 0)
    case Restart(entered, _) => EnterCode(entered) && i.Restarting? && i.retry > 0 && s.flags.running && i.status != FW
    case RestartEnd => i.Restarting? && !(i.retry > 0 && s.flags.running && i.status != FW)
    case Record => i.Recording?
    case Resume => i.Recorded?
    case Ask(_, _, _) => i.Asking?
  }

  predicate TakenForGranted(cfg: Config) {
    cfg.noBootdl || cfg.qcMode
  }

  function InitNext(cfg: Config, s: State, step: InitStep): State
    requires InitEnabled(s, step)
  {
    var i := s.work.init;
    match step
    case Begin => Begun(cfg, s)
    case BootTry(entered, download) =>
      Heard(s, entered, Booting(entered, i.retry - 1, if entered == BOOT then download else i.err))
    case BootEnd =>
      At(s.(flags := s.flags.(inBoot := false)),
         if i.status == BOOT && i.err == 0 && cfg.canReinit && cfg.noPoll then Restarting(BOOT, 50) else Recording(i.status))
    case Restart(entered, reinit) =>
      if reinit == 0 then Heard(s, entered, Restarting(entered, i.retry - 1)) else At(s, Restarting(i.status, i.retry - 1))
    case RestartEnd => At(s, Recording(i.status))
    case Record => Noted(s, i.status)
    case Resume => At(s.(flags := s.flags.(suspend := false)), Asking(i.ok))
    case Ask(info, version, created) => Asked(cfg, At(s, NoInit), i.ok, info, version, created)
  }

  function At(s: State, i: Init): State {
    s.(work := s.work.(init := i))
  }

  function Begun(cfg: Config, s: State): State {
    if !s.flags.running then s.(work := s.work.(scheduled := false))
    else
      State(s.flags.(inBoot := true), s.fwState, s.ctrlq, s.dataq,
            Work(false, Booting(if TakenForGranted(cfg) then FW else -1, 10, -1), s.work.detect),
            s.log.(heard := TakenForGranted(cfg)))
  }

  function Heard(s: State, entered: int, i: Init): State {
    At(s, i).(log := s.log.(heard := s.log.heard || entered == FW))
  }

  function Noted(s: State, status: int): State {
    var fw := Byte8(status) == FW;
    At(s, Recorded(status == FW)).(
      fwState := Byte8(status),
      log := s.log.(reloading := s.log.reloading && !fw, unheard := if fw && !s.log.heard then s.log.unheard + 1 else s.log.unheard))
  }

  function Asked(cfg: Config, s: State, ok: bool, info: int, version: u32, created: bool): State {
    if !ok || info <= 0 then Again(cfg, s)
    else
      var s' := s.(flags := s.flags.(softFc := version < 0x200_0000));
      if s.flags.inited then s' else if created then Created(s') else Again(cfg, s')
  }

  function Created(s: State): State {
    s.(flags := s.flags.(inited := true), log := s.log.(interfaces := s.log.interfaces + 1))
  }

  function Again(cfg: Config, s: State): State {
    if cfg.canReinit && s.flags.running then s.(work := s.work.(scheduled := true)) else s
  }

  // ------------------------------------------------------------------ the detection work

  predicate DetectEnabled(s: State, step: DetectStep) {
    var d := s.work.detect;
    match step
    case Look(_) => d.NoDetect?
    case DetectTry(_) => d.Probing? && d.retry > 0 && d.status != FW
    case Decide => d.Probing? && !(d.retry > 0 && d.status != FW)
  }

  function DetectNext(s: State, step: DetectStep): State
    requires DetectEnabled(s, step)
  {
    var d, f := s.work.detect, s.flags;
    match step
    case Look(silent) =>
      if !f.sleep && f.running && (f.suspend || f.error || silent) then Detecting(s, Probing(-1, 4)) else s
    case DetectTry(entered) => Detecting(s, Probing(entered, d.retry - 1))
    case Decide => if d.status != FW || s.fwState != FW then Reload(Detecting(s, NoDetect)) else Detecting(s, NoDetect)
  }

  function Detecting(s: State, d: Detect): State {
    s.(work := s.work.(detect := d))
  }

  /** Both queues are emptied; unless the device is being removed, it is as good as not started. */
  function Reload(s: State): State {
    var s' := s.(ctrlq := [], dataq := 0, log := s.log.(reloading := true));
    if s.flags.running then
      s'.(flags := s.flags.(softFc := false, suspend := true), fwState := 255, work := s.work.(scheduled := true))
    else s'
  }

  // ------------------------------------------------------------------ all the steps together

  predicate Enabled(s: State, step: Step) {
    match step
    case InitWork(i) => InitEnabled(s, i)
    case DetectWork(d) => DetectEnabled(s, d)
    case _ => true
  }

  function Apply(cfg: Config, s: State, step: Step): State
    requires Enabled(s, step)
  {
    match step
    case TxPass(p) => TxOnce(cfg, s, p)
    case InitWork(i) => InitNext(cfg, s, i)
    case DetectWork(d) => DetectNext(s, d)
    case _ => Outside(s, step)
  }

  /** What happens around the work items. */
  function Outside(s: State, step: Step): State {
    match step
    case Xmit => if s.flags.running && !s.flags.sleep then s.(dataq := s.dataq + 1) else s
    case QueueCtrl(c) => s.(ctrlq := s.ctrlq + [c])
    case TxDone(ok, sleepCmd) => s.(flags := s.flags.(error := !ok, sleep := s.flags.sleep && (ok || !sleepCmd)))
    case Awake => s.(flags := s.flags.(sleep := false))
    case Remove => s.(flags := s.flags.(running := false))
    case _ => s
  }

  /** A run: steps that cannot be taken are passed over. */
  function Run(cfg: Config, s: State, steps: seq<Step>): State
    decreases |steps|
  {
    if steps == [] then s
    else Run(cfg, if Enabled(s, steps[0]) then Apply(cfg, s, steps[0]) else s, steps[1..])
  }

  // ------------------------------------------------------------------ what every step keeps

  /** Nothing goes out asleep; in the loader only its own packets; data only when no reload is
      under way. */
  predicate Allowed(e: Event) {
    && !e.sleep
    && (e.inBoot ==> e.out.Control? && e.out.c.boot)
    && (e.out.Data? ==> !e.reloading)
  }

  predicate AllAllowed(bus: seq<Event>) {
    forall i | 0 <= i < |bus| :: Allowed(bus[i])
  }

  /** The status that the init work is about to record. */
  function StatusOf(i: Init): int {
    match i
    case Booting(status, _, _) => status
    case Restarting(status, _) => status
    case Recording(status) => status
    case _ => -1
  }

  /** While a reload is under way, data does not flow. */
  predicate Stopped(s: State) {
    s.log.reloading ==> s.fwState != FW || !s.flags.running
  }

  predicate Honest(s: State) {
    && (StatusOf(s.work.init) == FW ==> s.log.heard) && EnterCode(StatusOf(s.work.init))
    && s.log.unheard == 0
    && s.log.interfaces == (if s.flags.inited then 1 else 0)
  }

  predicate Inv(s: State) {
    AllAllowed(s.log.bus) && Stopped(s) && Honest(s)
  }

  lemma ByteIsState(status: int)
    requires EnterCode(status)
    ensures Byte8(status) == FW <==> status == FW
  {}

  lemma HandKeepsAllowed(s: State, out: Out)
    requires AllAllowed(s.log.bus) && Allowed(Event(out, s.flags.sleep, s.flags.inBoot, s.log.reloading))
    ensures AllAllowed(Hand(s, out).log.bus)
  {}

  lemma TxKeepsInv(cfg: Config, s: State, p: Pass)
    requires Inv(s)
    ensures Inv(TxOnce(cfg, s, p))
  {
    if s.ctrlq != [] {
      if !s.flags.sleep && s.flags.running && (!s.flags.inBoot || s.ctrlq[0].boot) {
        HandKeepsAllowed(s.(ctrlq := s.ctrlq[1..]), Control(s.ctrlq[0]));
      }
    } else if DataFlows(s) && !s.flags.sleep && !s.flags.inBoot {
      HandKeepsAllowed(s, AskCredit);
      HandKeepsAllowed(Checked(s, p), Data(Taken(cfg, s.dataq, p)));
    }
  }

  lemma InitKeepsInv(cfg: Config, s: State, step: InitStep)
    requires Inv(s) && InitEnabled(s, step)
    ensures Inv(InitNext(cfg, s, step))
  {
    if step.Record? { ByteIsState(s.work.init.status); }
  }

  lemma DetectKeepsInv(s: State, step: DetectStep)
    requires Inv(s) && DetectEnabled(s, step)
    ensures Inv(DetectNext(s, step))
  {}

  lemma OutsideKeepsInv(s: State, step: Step)
    requires Inv(s)
    ensures Inv(Outside(s, step))
  {}

  lemma StepKeepsInv(cfg: Config, s: State, step: Step)
    requires Inv(s) && Enabled(s, step)
    ensures Inv(Apply(cfg, s, step))
  {
    match step
    case TxPass(p) => TxKeepsInv(cfg, s, p);
    case InitWork(i) => InitKeepsInv(cfg, s, i);
    case DetectWork(d) => DetectKeepsInv(s, d);
    case _ => OutsideKeepsInv(s, step);
  }

  lemma {:induction false} RunKeepsInv(cfg: Config, s: State, steps: seq<Step>)
    requires Inv(s)
    ensures Inv(Run(cfg, s, steps))
    decreases |steps|
  {
    if steps != [] {
      if Enabled(s, steps[0]) { StepKeepsInv(cfg, s, steps[0]); }
      RunKeepsInv(cfg, if Enabled(s, steps[0]) then Apply(cfg, s, steps[0]) else s, steps[1..]);
    }
  }

  /** Over every run from the probe on: nothing is handed to the bus while the device sleeps, only
      the loader's packets while it is in the loader, and no data from the decision to reload until
      running firmware is recorded; that is never recorded unless the device has said so, or the
      parameters take it for granted; and at most one interface is created. */
  lemma LifecycleIsSafe(cfg: Config, steps: seq<Step>)
    ensures var s := Run(cfg, Probed, steps);
            AllAllowed(s.log.bus) && s.log.unheard == 0 && s.log.interfaces <= 1
  {
    RunKeepsInv(cfg, Probed, steps);
  }

  // ------------------------------------------------------------------ progress

  /** What the packets handed to the bus carry: control packets in order, and frames. */
  function Controls(bus: seq<Event>): seq<Ctrl> {
    if bus == [] then []
    else Controls(bus[..|bus| - 1]) + match bus[|bus| - 1].out case Control(c) => [c] case _ => []
  }

  function Frames(bus: seq<Event>): nat {
    if bus == [] then 0
    else Frames(bus[..|bus| - 1]) + match bus[|bus| - 1].out case Data(n) => n case _ => 0
  }

  function Requests(bus: seq<Event>): nat {
    if bus == [] then 0 else Requests(bus[..|bus| - 1]) + if bus[|bus| - 1].out.AskCredit? then 1 else 0
  }

  lemma HandedOn(s: State, out: Out)
    ensures Requests(Hand(s, out).log.bus) == Requests(s.log.bus) + if out.AskCredit? then 1 else 0
    ensures Controls(Hand(s, out).log.bus) == Controls(s.log.bus) + match out case Control(c) => [c] case _ => []
    ensures Frames(Hand(s, out).log.bus) == Frames(s.log.bus) + match out case Data(n) => n case _ => 0
  {
    var bus := Hand(s, out).log.bus;
    assert bus[..|bus| - 1] == s.log.bus;
  }

  /** Running firmware, awake, neither in the loader nor suspended. */
  predicate Ready(s: State) {
    s.fwState == 0 && s.flags.running && !s.flags.suspend && !s.flags.sleep && !s.flags.inBoot
  }

  /** The first control packet goes out exactly if the device is awake and running, and the packet is
      not a foreign one in the loader; asleep or stopped, all of them are thrown away. */
  lemma ControlGoesOut(cfg: Config, s: State, p: Pass)
    requires s.ctrlq != []
    ensures var s', c := TxOnce(cfg, s, p), s.ctrlq[0];
            && s'.dataq == s.dataq && Frames(s'.log.bus) == Frames(s.log.bus)
            && (if s.flags.sleep || !s.flags.running then s'.ctrlq == [] && s'.log == s.log
                else (s'.ctrlq == s.ctrlq[1..]
                      && Controls(s'.log.bus) == Controls(s.log.bus) + if s.flags.inBoot && !c.boot then [] else [c]))
            && (s'.flags.sleep <==> s.flags.sleep
                                    || (s.flags.running && p.accepted && c.sleep && (c.boot || !s.flags.inBoot)))
  {
    HandedOn(s.(ctrlq := s.ctrlq[1..]), Control(s.ctrlq[0]));
  }

  /** Data goes out of a device that is ready, unless credit is needed and not there, or the first
      frame does not fit an aggregate; as many frames leave the queue as the bus gets, one without
      aggregation. Of any other device none does; they are thrown away asleep and in the loader, and
      kept while the device is suspended or its firmware not running. */
  lemma DataGoesOut(cfg: Config, s: State, p: Pass)
    requires s.ctrlq == [] && s.dataq > 0
    ensures var s' := TxOnce(cfg, s, p);
            && Controls(s'.log.bus) == Controls(s.log.bus) && s'.ctrlq == [] && s'.flags == s.flags
            && (Ready(s) && (!s.flags.softFc || p.credit) && !(cfg.ifAgg && s.dataq > 1 && p.frames == 0) ==>
                  s'.dataq < s.dataq && Frames(s'.log.bus) == Frames(s.log.bus) + (s.dataq - s'.dataq)
                  && (!cfg.ifAgg ==> s'.dataq == s.dataq - 1))
            && (!Ready(s) || (s.flags.softFc && !p.credit) ==> Frames(s'.log.bus) == Frames(s.log.bus))
            && Requests(s'.log.bus) == Requests(s.log.bus) + (if Ready(s) && s.flags.softFc && p.asks then 1 else 0)
            && (s.fwState == 0 && s.flags.running && !s.flags.suspend && (s.flags.sleep || s.flags.inBoot) ==> s'.dataq == 0)
            && (s.fwState != 0 || !s.flags.running || s.flags.suspend ==> s' == s)
  {
    if Ready(s) { ReadyPass(cfg, s, p); }
  }

  lemma ReadyPass(cfg: Config, s: State, p: Pass)
    requires s.ctrlq == [] && s.dataq > 0 && Ready(s)
    ensures TxOnce(cfg, s, p) == TxData(cfg, s, p)
    ensures var s', n := TxData(cfg, s, p), Taken(cfg, s.dataq, p);
            && 0 <= n <= s.dataq && (n == 0 ==> cfg.ifAgg && s.dataq > 1 && p.frames == 0)
            && (!cfg.ifAgg ==> n == 1)
            && Controls(s'.log.bus) == Controls(s.log.bus) && s'.ctrlq == [] && s'.flags == s.flags
            && Requests(s'.log.bus) == Requests(s.log.bus) + (if s.flags.softFc && p.asks then 1 else 0)
            && (if s.flags.softFc && !p.credit then s'.dataq == s.dataq && Frames(s'.log.bus) == Frames(s.log.bus)
                else s'.dataq == s.dataq - n && Frames(s'.log.bus) == Frames(s.log.bus) + n)
  {
    AskingIsNoData(s, p);
    HandedOn(Checked(s, p), Data(Taken(cfg, s.dataq, p)));
  }

  lemma AskingIsNoData(s: State, p: Pass)
    ensures var s' := Checked(s, p);
            && s' == s.(log := s'.log) && Controls(s'.log.bus) == Controls(s.log.bus) && Frames(s'.log.bus) == Frames(s.log.bus)
            && (Ready(s) ==> Requests(s'.log.bus) == Requests(s.log.bus) + if s.flags.softFc && p.asks then 1 else 0)
  {
    HandedOn(s, AskCredit);
    assert Controls(s.log.bus) + [] == Controls(s.log.bus);
  }

  /** The bus takes packets, there is credit, and the first frame fits. */
  predicate Smooth(p: Pass) {
    p.accepted && p.credit && p.frames > 0
  }

  /** With a device that is ready and no command to sleep in the queue, a pass for each packet is
      enough to hand everything over: the control packets in order, and every frame. */
  lemma {:induction false} WorkerDrains(cfg: Config, s: State, passes: seq<Pass>)
    requires Ready(s) && (forall i | 0 <= i < |s.ctrlq| :: !s.ctrlq[i].sleep)
    requires |passes| >= |s.ctrlq| + s.dataq && forall i | 0 <= i < |passes| :: Smooth(passes[i])
    ensures var end := Passes(cfg, s, passes);
            && end.ctrlq == [] && end.dataq == 0
            && Controls(end.log.bus) == Controls(s.log.bus) + s.ctrlq && Frames(end.log.bus) == Frames(s.log.bus) + s.dataq
    decreases |passes|
  {
    if s.ctrlq == [] && s.dataq == 0 {
      NothingToDo(cfg, s, passes);
    } else {
      var s' := TxOnce(cfg, s, passes[0]);
      if s.ctrlq != [] {
        ControlGoesOut(cfg, s, passes[0]);
        assert Controls(s.log.bus) + [s.ctrlq[0]] + s.ctrlq[1..] == Controls(s.log.bus) + s.ctrlq;
      } else {
        DataGoesOut(cfg, s, passes[0]);
      }
      WorkerDrains(cfg, s', passes[1..]);
    }
  }

  // ------------------------------------------------------------------ the work items, undisturbed

  lemma {:induction false} RunConcat(cfg: Config, s: State, a: seq<Step>, b: seq<Step>)
    ensures Run(cfg, s, a + b) == Run(cfg, Run(cfg, s, a), b)
    decreases |a|
  {
    if a == [] {
      assert a + b == b;
    } else {
      assert (a + b)[1..] == a[1..] + b;
      RunConcat(cfg, if Enabled(s, a[0]) then Apply(cfg, s, a[0]) else s, a[1..], b);
    }
  }

  lemma RunFirst(cfg: Config, s: State, s': State, step: Step, rest: seq<Step>)
    requires Enabled(s, step) && s' == Apply(cfg, s, step)
    ensures Run(cfg, s, [step] + rest) == Run(cfg, s', rest)
  {
    assert ([step] + rest)[1..] == rest;
  }

  // ------------------------------------------------------------------ sleep

  /** A device that is ready and takes the command to sleep gets nothing more from the network; it is
      ready again when it is woken, or when the bus reports that the command was not sent. */
  lemma SleepAndWake(cfg: Config, s: State, boot: bool, p: Pass)
    requires Ready(s) && s.ctrlq == [] && p.accepted
    ensures var asleep := Run(cfg, s, [QueueCtrl(Ctrl(boot, true)), TxPass(p)]);
            && Controls(asleep.log.bus) == Controls(s.log.bus) + [Ctrl(boot, true)]
            && asleep == s.(flags := s.flags.(sleep := true), log := asleep.log)
            && Apply(cfg, asleep, Xmit) == asleep && TxOnce(cfg, asleep, p).log == asleep.log
            && Ready(Apply(cfg, asleep, Awake)) && Ready(Apply(cfg, asleep, TxDone(false, true)))
            && !Ready(Apply(cfg, asleep, TxDone(true, true))) && !Ready(Apply(cfg, asleep, TxDone(false, false)))
  {
    var c := Ctrl(boot, true);
    var s1 := s.(ctrlq := [c]);
    RunFirst(cfg, s, s1, QueueCtrl(c), [TxPass(p)]);
    RunFirst(cfg, s1, TxOnce(cfg, s1, p), TxPass(p), []);
    ControlGoesOut(cfg, s1, p);
  }

  // ------------------------------------------------------------------ a device lost and found

  /** A packet fails, and four questions stay unanswered. */
  const Losing: seq<Step> :=
    [TxDone(false, false), DetectWork(Look(false))]
    + [DetectWork(DetectTry(-1)), DetectWork(DetectTry(-1)), DetectWork(DetectTry(-1)), DetectWork(DetectTry(-1))]
    + [DetectWork(Decide)]

  /** The device answers the first question that its firmware runs, and gives its data. */
  function Answering(info: int, version: u32, created: bool): seq<Step> {
    [InitWork(Begin), InitWork(BootTry(0, 0)), InitWork(BootEnd)]
    + [InitWork(Record), InitWork(Resume), InitWork(Ask(info, version, created))]
  }

  lemma LookAgain(cfg: Config, s: State, rest: seq<Step>)
    requires s.flags.running && !s.flags.sleep && s.work.detect.NoDetect?
    ensures Run(cfg, s, [TxDone(false, false), DetectWork(Look(false))])
         == s.(flags := s.flags.(error := true), work := s.work.(detect := Probing(-1, 4)))
  {
    var s1 := s.(flags := s.flags.(error := true));
    RunFirst(cfg, s, s1, TxDone(false, false), [DetectWork(Look(false))]);
    RunFirst(cfg, s1, s1.(work := s.work.(detect := Probing(-1, 4))), DetectWork(Look(false)), []);
  }

  lemma {:induction false} FourTries(cfg: Config, s: State, tries: seq<Step>)
    requires s.work.detect.Probing? && s.work.detect == Probing(-1, |tries|)
    requires forall i | 0 <= i < |tries| :: tries[i] == DetectWork(DetectTry(-1))
    ensures Run(cfg, s, tries) == s.(work := s.work.(detect := Probing(-1, 0)))
    decreases |tries|
  {
    if tries != [] {
      var s' := s.(work := s.work.(detect := Probing(-1, |tries| - 1)));
      assert tries == [tries[0]] + tries[1..];
      RunFirst(cfg, s, s', tries[0], tries[1..]);
      FourTries(cfg, s', tries[1..]);
    }
  }

  /** After that the queues are empty, the device is suspended, and the init work is to run. */
  lemma LostDeviceReloads(cfg: Config, s: State)
    requires s.flags.running && !s.flags.sleep && s.work.detect.NoDetect?
    ensures var end := Run(cfg, s, Losing);
            && end.ctrlq == [] && end.dataq == 0 && end.fwState == 255 && end.flags.suspend && end.work.scheduled
            && end.flags.running && !end.flags.sleep && end.work.detect.NoDetect? && end.work.init == s.work.init
            && end.flags.inited == s.flags.inited && end.log == s.log.(reloading := true)
  {
    var a, b, c := Losing[..2], Losing[2..6], [DetectWork(Decide)];
    assert Losing == a + b + c && a == [TxDone(false, false), DetectWork(Look(false))];
    var s1 := s.(flags := s.flags.(error := true), work := s.work.(detect := Probing(-1, 4)));
    var s2 := s1.(work := s.work.(detect := Probing(-1, 0)));
    LookAgain(cfg, s, []);
    RunConcat(cfg, s, a + b, c);
    RunConcat(cfg, s, a, b);
    FourTries(cfg, s1, b);
    RunFirst(cfg, s2, Apply(cfg, s2, DetectWork(Decide)), DetectWork(Decide), []);
  }

  lemma AsksLoader(cfg: Config, s: State)
    requires s.flags.running && s.work.scheduled && s.work.init.NoInit?
    ensures var end := Run(cfg, s, [InitWork(Begin), InitWork(BootTry(0, 0)), InitWork(BootEnd)]);
            end == s.(flags := s.flags.(inBoot := false), work := Work(false, Recording(0), s.work.detect), log := s.log.(heard := true))
  {
    var s1 := Begun(cfg, s);
    RunFirst(cfg, s, s1, InitWork(Begin), [InitWork(BootTry(0, 0)), InitWork(BootEnd)]);
    if TakenForGranted(cfg) {
      Skipped(cfg, s1, InitWork(BootTry(0, 0)), [InitWork(BootEnd)]);
      LeavesLoader(cfg, s1);
    } else {
      var s2 := s1.(work := s1.work.(init := Booting(0, 9, -1)), log := s1.log.(heard := true));
      RunFirst(cfg, s1, s2, InitWork(BootTry(0, 0)), [InitWork(BootEnd)]);
      LeavesLoader(cfg, s2);
    }
  }

  lemma Skipped(cfg: Config, s: State, step: Step, rest: seq<Step>)
    requires !Enabled(s, step)
    ensures Run(cfg, s, [step] + rest) == Run(cfg, s, rest)
  {
    assert ([step] + rest)[1..] == rest;
  }

  lemma LeavesLoader(cfg: Config, s: State)
    requires s.work.init.Booting? && s.work.init.status == 0
    ensures Run(cfg, s, [InitWork(BootEnd)])
         == s.(flags := s.flags.(inBoot := false), work := s.work.(init := Recording(0)))
  {
    RunFirst(cfg, s, s.(flags := s.flags.(inBoot := false), work := s.work.(init := Recording(0))), InitWork(BootEnd), []);
  }

  lemma RecordsFirmware(cfg: Config, s: State, info: int, version: u32, created: bool)
    requires s.work.init == Recording(0) && s.flags.running && s.log.heard && info > 0 && (created || s.flags.inited)
    ensures var end := Run(cfg, s, [InitWork(Record), InitWork(Resume), InitWork(Ask(info, version, created))]);
            && end.fwState == 0 && end.flags.running && !end.flags.suspend && end.flags.inited && !end.log.reloading
            && end.flags.softFc == (version < 0x200_0000) && end.flags.sleep == s.flags.sleep && end.flags.inBoot == s.flags.inBoot
            && end.ctrlq == s.ctrlq && end.dataq == s.dataq && end.log.bus == s.log.bus && end.work.init.NoInit?
  {
    var s1 := Apply(cfg, s, InitWork(Record));
    assert s1 == s.(fwState := 0, work := s.work.(init := Recorded(true)), log := s1.log);
    var s2 := s1.(flags := s1.flags.(suspend := false), work := s.work.(init := Asking(true)));
    RunFirst(cfg, s, s1, InitWork(Record), [InitWork(Resume), InitWork(Ask(info, version, created))]);
    RunFirst(cfg, s1, s2, InitWork(Resume), [InitWork(Ask(info, version, created))]);
    RunFirst(cfg, s2, Apply(cfg, s2, InitWork(Ask(info, version, created))), InitWork(Ask(info, version, created)), []);
  }

  /** A device that answers is ready after the init work; only firmware before version 2 needs credit. */
  lemma AnsweringMakesReady(cfg: Config, s: State, info: int, version: u32, created: bool)
    requires s.flags.running && s.work.scheduled && s.work.init.NoInit? && info > 0 && (created || s.flags.inited)
    ensures var end := Run(cfg, s, Answering(info, version, created));
            && (Ready(end) <==> !s.flags.sleep) && end.flags.softFc == (version < 0x200_0000)
            && end.flags.inited && !end.log.reloading && end.work.init.NoInit?
            && end.ctrlq == s.ctrlq && end.dataq == s.dataq && end.log.bus == s.log.bus
  {
    var a := [InitWork(Begin), InitWork(BootTry(0, 0)), InitWork(BootEnd)];
    RunConcat(cfg, s, a, [InitWork(Record), InitWork(Resume), InitWork(Ask(info, version, created))]);
    AsksLoader(cfg, s);
    RecordsFirmware(cfg, Run(cfg, s, a), info, version, created);
  }

  /** A device that is lost, and found again, carries data again. */
  lemma LostAndFound(cfg: Config, s: State, info: int, version: u32, created: bool, p: Pass)
    requires s.flags.running && !s.flags.sleep && s.work.detect.NoDetect? && s.work.init.NoInit?
    requires info > 0 && (created || s.flags.inited) && Smooth(p)
    ensures var end := Run(cfg, s, Losing + Answering(info, version, created) + [Xmit, TxPass(p)]);
            end.dataq == 0 && Frames(end.log.bus) == Frames(s.log.bus) + 1
  {
    var lost := Run(cfg, s, Losing);
    var found := Run(cfg, lost, Answering(info, version, created));
    LostDeviceReloads(cfg, s);
    AnsweringMakesReady(cfg, lost, info, version, created);
    RunConcat(cfg, s, Losing, Answering(info, version, created));
    RunConcat(cfg, s, Losing + Answering(info, version, created), [Xmit, TxPass(p)]);
    var queued := found.(dataq := 1);
    RunFirst(cfg, found, queued, Xmit, [TxPass(p)]);
    RunFirst(cfg, queued, TxOnce(cfg, queued, p), TxPass(p), []);
    DataGoesOut(cfg, queued, p);
  }

  lemma RunInit(cfg: Config, s: State, steps: seq<Step>, step: InitStep)
    requires InitEnabled(Run(cfg, s, steps), step)
    ensures Run(cfg, s, steps + [InitWork(step)]) == InitNext(cfg, Run(cfg, s, steps), step)
  {
    var s', one := Run(cfg, s, steps), [InitWork(step)];
    RunConcat(cfg, s, steps, one);
    assert one[1..] == [];
    assert Run(cfg, s', one) == Run(cfg, Apply(cfg, s', InitWork(step)), []);
  }

  lemma RunDetect(cfg: Config, s: State, steps: seq<Step>, step: DetectStep)
    requires DetectEnabled(Run(cfg, s, steps), step)
    ensures Run(cfg, s, steps + [DetectWork(step)]) == DetectNext(Run(cfg, s, steps), step)
  {
    var s', one := Run(cfg, s, steps), [DetectWork(step)];
    RunConcat(cfg, s, steps, one);
    assert one[1..] == [];
    assert Run(cfg, s', one) == Run(cfg, Apply(cfg, s', DetectWork(step)), []);
  }

  /** Passes of the worker, one after the other. */
  function Passes(cfg: Config, s: State, passes: seq<Pass>): State
    decreases |passes|
  {
    if passes == [] then s else Passes(cfg, TxOnce(cfg, s, passes[0]), passes[1..])
  }

  lemma {:induction false} NothingToDo(cfg: Config, s: State, passes: seq<Pass>)
    requires s.ctrlq == [] && !DataFlows(s)
    ensures Passes(cfg, s, passes) == s
    decreases |passes|
  {
    if passes != [] { NothingToDo(cfg, s, passes[1..]); }
  }

  /** An exchange with the boot loader: whether there is memory for it, the answer, and what a
      download after it would end with. */
  datatype Try = Try(memory: bool, reply: BootDl.Reply, download: int)

  /** The driver's data; work says where the work items are. */
  class Device {
    const cfg: Config
    var flags: Flags
    var fwState: nat
    var ctrlq: seq<Ctrl>
    var dataq: nat
    ghost var work: Work
    ghost var log: Log

    constructor (cfg: Config)
      ensures this.cfg == cfg && Abs() == Probed
    {
      this.cfg := cfg;
      flags := Flags(true, false, false, false, false, false, false);
      fwState, ctrlq, dataq := 255, [], 0;
      work, log := Work(true, NoInit, NoDetect), Log([], false, false, 0, 0);
    }

    ghost function Abs(): State
      reads this
    {
      State(flags, fwState, ctrlq, dataq, work, log)
    }

    method TxPacket(out: Out)
      modifies this`log
      ensures Abs() == Hand(old(Abs()), out)
    {
      log := log.(bus := log.bus + [Event(out, flags.sleep, flags.inBoot, log.reloading)]);
    }

    method TxCtrlFrm(p: Pass)
      requires ctrlq != []
      modifies this`log, this`ctrlq, this`flags
      ensures Abs() == TxCtrl(old(Abs()), p)
    {
      var c := ctrlq[0];
      ctrlq := ctrlq[1..];
      if !flags.inBoot || c.boot {
        TxPacket(Control(c));
        if p.accepted && c.sleep { flags := flags.(sleep := true); }
      }
    }

    /** A pass of the worker that finds data to send. */
    method TxDataFrm(p: Pass)
      requires dataq > 0
      modifies this`log, this`dataq
      ensures Abs() == TxData(cfg, old(Abs()), p)
    {
      if flags.softFc && !flags.inBoot {
        if flags.sleep || flags.suspend || !flags.running { return; }
        if p.asks { TxPacket(AskCredit); }
        if !p.credit { return; }
      }
      var n := Taken(cfg, dataq, p);
      if n > 0 {
        TxPacket(Data(n));
        dataq := dataq - n;
      }
    }

    /** The transmit worker, with what its passes meet. It ends when there is nothing to do. */
    method TxWork(passes: seq<Pass>)
      modifies this`log, this`ctrlq, this`dataq, this`flags
      ensures Abs() == Passes(cfg, old(Abs()), passes)
    {
      var i := 0;
      assert passes[0..] == passes;
      while i < |passes|
        invariant i <= |passes| && Passes(cfg, Abs(), passes[i..]) == Passes(cfg, old(Abs()), passes)
      {
        ghost var before := Abs();
        assert passes[i..][1..] == passes[i + 1..];
        if ctrlq != [] {
          if flags.sleep || !flags.running { ctrlq := []; } else { TxCtrlFrm(passes[i]); }
        } else if dataq > 0 && fwState == FW && flags.running && !flags.suspend {
          if flags.sleep || flags.inBoot { dataq := 0; } else { TxDataFrm(passes[i]); }
        } else {
          NothingToDo(cfg, Abs(), passes[i..]);
          return;
        }
        assert Abs() == TxOnce(cfg, before, passes[i]);
        i := i + 1;
      }
    }

    /** What a step of the init work does to the history and to where it is. */
    ghost method Note(start: State, steps: seq<Step>, step: InitStep) returns (steps': seq<Step>)
      requires Abs() == Run(cfg, start, steps) && InitEnabled(Abs(), step)
      modifies this`work, this`log
      ensures steps' == steps + [InitWork(step)] && Run(cfg, start, steps') == InitNext(cfg, old(Abs()), step)
      ensures work == InitNext(cfg, old(Abs()), step).work && log == InitNext(cfg, old(Abs()), step).log
    {
      RunInit(cfg, start, steps, step);
      var s := InitNext(cfg, Abs(), step);
      work, log := s.work, s.log;
      steps' := steps + [InitWork(step)];
    }

    /** The download loop and what comes after it; tries are the exchanges with the device. It comes
        out with running firmware only if that is taken for granted or one of the answers says so. */
    method DownloadFw(tries: nat -> Try, reinits: nat -> int) returns (status: int, ghost steps: seq<Step>)
      requires flags.running && work.init.NoInit? && work.scheduled
      modifies this`flags, this`fwState, this`work, this`log
      ensures Abs() == Run(cfg, old(Abs()), steps) && work.init == Recorded(status == FW) && !work.scheduled
      ensures status == FW ==> TakenForGranted(cfg) || exists k :: SaysRunning(tries, k)
      ensures TakenForGranted(cfg) || Answers(tries, 10) ==> status == 0
      ensures cfg.canReinit && cfg.noPoll && Restarts(tries, reinits) ==> status == 0
      ensures fwState == Byte8(status) && flags == old(flags).(inBoot := false) && EnterCode(status)
    {
      ghost var start := Abs();
      var err, k;
      status := if cfg.noBootdl || cfg.qcMode then FW else -1;
      assert Run(cfg, start, []) == start;
      steps := Note(start, [], Begin);
      flags := flags.(inBoot := true);
      status, err, k, steps := BootLoop(start, steps, tries, status);
      steps := Note(start, steps, BootEnd);
      flags := flags.(inBoot := false);
      if status == BOOT && err == 0 && cfg.canReinit && cfg.noPoll {
        status, steps := AfterDownload(start, steps, tries, reinits, k);
      }
      steps := Note(start, steps, Record);
      fwState := Byte8(status);
    }

    /** Asks the device, and downloads the firmware when it is in its loader, up to ten times. */
    method BootLoop(ghost start: State, ghost before: seq<Step>, tries: nat -> Try, first: int)
      returns (status: int, err: int, k: nat, ghost steps: seq<Step>)
      requires Abs() == Run(cfg, start, before) && work.init == Booting(first, 10, -1) && EnterCode(first)
      requires first == FW ==> TakenForGranted(cfg)
      modifies this`work, this`log
      ensures Abs() == Run(cfg, start, steps) && work.init.Booting? && work.init.status == status && work.init.err == err
      ensures InitEnabled(Abs(), BootEnd) && EnterCode(status) && work.scheduled == old(work.scheduled)
      ensures status == FW ==> TakenForGranted(cfg) || exists k :: SaysRunning(tries, k)
      ensures first == FW || Answers(tries, 10) ==> status == FW
      ensures forall n: nat | first != FW && DownloadsFirst(tries, n) :: status == BOOT && err == 0 && k == n + 1
    {
      var retry := 10;
      status, err, k, steps := first, -1, 0, before;
      while status != FW && retry > 0 && err != 0
        invariant Abs() == Run(cfg, start, steps) && work.init == Booting(status, retry, err) && retry >= 0 && EnterCode(status)
        invariant work.scheduled == old(work.scheduled)
        invariant status == FW ==> TakenForGranted(cfg) || exists k :: SaysRunning(tries, k)
        invariant k == 10 - retry && (status == FW || (first != FW && forall j: nat | j < k :: !SaysRunning(tries, j)))
        invariant err == 0 ==> status == BOOT && k > 0 && Downloads(tries, k - 1)
        invariant status == FW ==> first == FW || (k > 0 && SaysRunning(tries, k - 1))
        invariant forall j: nat | j < k && Downloads(tries, j) :: err == 0 && j == k - 1
        decreases retry
      {
        retry := retry - 1;
        status := Enter(tries, k);
        steps := Note(start, steps, BootTry(status, tries(k).download));
        if status == BOOT { err := tries(k).download; }
        k := k + 1;
      }
    }

    method Enter(tries: nat -> Try, k: nat) returns (status: int)
      ensures EnterCode(status) && (status == FW <==> SaysRunning(tries, k))
      ensures status == BOOT && tries(k).download == 0 <==> Downloads(tries, k)
    {
      BootDl.EnterMeans(tries(k).memory, tries(k).reply);
      status := BootDl.CmdEnter(tries(k).memory, tries(k).reply);
    }

    /** Asks the restarted device until it runs its firmware. */
    method AfterDownload(ghost start: State, ghost before: seq<Step>, tries: nat -> Try, reinits: nat -> int, from: nat)
      returns (status: int, ghost steps: seq<Step>)
      requires Abs() == Run(cfg, start, before) && work.init == Restarting(BOOT, 50)
      modifies this`work, this`log
      ensures Abs() == Run(cfg, start, steps) && work.init == Recording(status) && EnterCode(status)
      ensures work.scheduled == old(work.scheduled)
      ensures status == FW ==> exists k :: SaysRunning(tries, k)
      ensures flags.running && (exists k: nat :: from <= k < from + 50 && reinits(k) == 0 && SaysRunning(tries, k)) ==> status == FW
    {
      var retry, k := 50, from;
      status := BOOT;
      steps := before;
      while retry > 0 && flags.running && status != FW
        invariant Abs() == Run(cfg, start, steps) && work.init == Restarting(status, retry) && retry >= 0 && work.scheduled == old(work.scheduled)
        invariant EnterCode(status) && (status == FW ==> exists k :: SaysRunning(tries, k))
        invariant k == from + 50 - retry
        invariant status == FW || forall j: nat | from <= j < k && reinits(j) == 0 :: !SaysRunning(tries, j)
        decreases retry
      {
        retry := retry - 1;
        if reinits(k) == 0 { status := Enter(tries, k); }
        steps := Note(start, steps, Restart(status, reinits(k)));
        k := k + 1;
      }
      steps := Note(start, steps, RestartEnd);
    }

    /** The init work. */
    method DelayInit(tries: nat -> Try, reinits: nat -> int, info: int, version: u32, created: bool) returns (ghost steps: seq<Step>)
      requires work.init.NoInit? && work.scheduled
      modifies this
      ensures Abs() == Run(cfg, old(Abs()), steps) && work.init.NoInit?
      ensures old(flags.running) && (TakenForGranted(cfg) || Answers(tries, 10)) && info > 0 && (created || old(flags.inited)) ==>
                && fwState == 0 && flags.running && flags.inited && !flags.suspend && !flags.inBoot
                && flags.softFc == (version < 0x200_0000)
      ensures work.scheduled <==> old(flags.running) && cfg.canReinit && !(fwState == 0 && info > 0 && flags.inited)
    {
      ghost var start := Abs();
      assert Run(cfg, start, []) == start;
      if !flags.running {
        steps := Note(start, [], Begin);
        return;
      }
      var status;
      status, steps := DownloadFw(tries, reinits);
      ByteIsState(status);
      steps := Note(start, steps, Resume);
      flags := flags.(suspend := false);
      steps := Note(start, steps, Ask(info, version, created));
      if status == FW && info > 0 {
        flags := flags.(softFc := version < 0x200_0000);
        if !flags.inited && created { flags := flags.(inited := true); }
      }
    }

    /** The detection work. */
    method Detect(silent: bool, tries: nat -> Try) returns (ghost steps: seq<Step>)
      requires work.detect.NoDetect?
      modifies this
      ensures Abs() == Run(cfg, old(Abs()), steps) && work.detect.NoDetect?
      ensures var f := old(flags);
              if f.sleep || !f.running || !(f.suspend || f.error || silent)
                 || (old(fwState) == 0 && exists k: nat :: k < 4 && SaysRunning(tries, k)) then
                flags == f && ctrlq == old(ctrlq) && dataq == old(dataq) && fwState == old(fwState)
              else
                flags == f.(softFc := false, suspend := true) && ctrlq == [] && dataq == 0 && fwState == 255 && work.scheduled
    {
      ghost var start := Abs();
      assert Run(cfg, start, []) == start;
      steps := NoteDetect(start, [], Look(silent));
      if flags.sleep || !flags.running || !(flags.suspend || flags.error || silent) { return; }
      var status;
      status, steps := ProbeLoop(start, steps, tries);
      steps := NoteDetect(start, steps, Decide);
      if status != FW || fwState != FW {
        ctrlq, dataq := [], 0;
        if flags.running {
          flags := flags.(softFc := false, suspend := true);
          fwState := 255;
        }
      }
    }

    /** Asks the device up to four times. */
    method ProbeLoop(ghost start: State, ghost before: seq<Step>, tries: nat -> Try) returns (status: int, ghost steps: seq<Step>)
      requires Abs() == Run(cfg, start, before) && work.detect == Probing(-1, 4)
      modifies this`work, this`log
      ensures Abs() == Run(cfg, start, steps) && work.detect.Probing? && work.detect.status == status
      ensures DetectEnabled(Abs(), Decide)
      ensures status == FW <==> exists k: nat :: k < 4 && SaysRunning(tries, k)
    {
      var retry, k := 4, 0;
      status, steps := -1, before;
      while retry > 0 && status != FW
        invariant Abs() == Run(cfg, start, steps) && work.detect == Probing(status, retry) && retry >= 0
        invariant k == 4 - retry && (if status == FW then k > 0 && SaysRunning(tries, k - 1)
                                     else forall j: nat | j < k :: !SaysRunning(tries, j))
        decreases retry
      {
        retry := retry - 1;
        status := Enter(tries, k);
        steps := NoteDetect(start, steps, DetectTry(status));
        k := k + 1;
      }
    }

    ghost method NoteDetect(start: State, steps: seq<Step>, step: DetectStep) returns (steps': seq<Step>)
      requires Abs() == Run(cfg, start, steps) && DetectEnabled(Abs(), step)
      modifies this`work, this`log
      ensures steps' == steps + [DetectWork(step)] && Run(cfg, start, steps') == DetectNext(old(Abs()), step)
      ensures work == DetectNext(old(Abs()), step).work && log == DetectNext(old(Abs()), step).log
    {
      RunDetect(cfg, start, steps, step);
      var s := DetectNext(Abs(), step);
      work, log := s.work, s.log;
      steps' := steps + [DetectWork(step)];
    }
  }

  /** The k-th answer says that firmware runs. */
  predicate SaysRunning(tries: nat -> Try, k: nat) {
    tries(k).memory && tries(k).reply == BootDl.Reply(0xFD, 0, 0xFF)
  }

  /** The k-th answer comes from a device in its loader, which then takes the firmware. */
  predicate Downloads(tries: nat -> Try, k: nat) {
    tries(k).memory && (tries(k).reply == BootDl.Reply(0xFD, 0, 0) || tries(k).reply == BootDl.Reply(0xFD, 0, 1))
    && tries(k).download == 0
  }

  /** The first firmware is downloaded after one of the first ten answers, and one of the 50 questions
      after that, to the restarted device, is answered that it runs. */
  ghost predicate Restarts(tries: nat -> Try, reinits: nat -> int) {
    exists k: nat, m: nat :: DownloadsFirst(tries, k) && k < m <= k + 50 && reinits(m) == 0 && SaysRunning(tries, m)
  }

  ghost predicate DownloadsFirst(tries: nat -> Try, k: nat) {
    k < 10 && Downloads(tries, k) && forall j: nat | j < k :: !Downloads(tries, j) && !SaysRunning(tries, j)
  }

  /** One of the first n answers says that firmware runs, before any firmware has been downloaded. */
  ghost predicate Answers(tries: nat -> Try, n: nat) {
    exists k: nat :: k < n && SaysRunning(tries, k) && forall j: nat | j < k :: !Downloads(tries, j)
  }
}

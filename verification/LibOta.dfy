/** The upload tool: its station table (tools/test_app/libota.c) and the loop that sends an image
    over a network that loses, repeats and delays (tools/test_app/hgota.c). */
module LibOta {
  import opened Basics
  import opened Machine
  import opened Checksum
  import opened Ota

  const STA_COUNT := 32
  const PAYLOAD := 1460
  const REJECTED: u8 := 0xFF

  const NOTHING := 0
  const NEW_STA := 1
  const FW_STATUS := 2
  const CONFIG_GOT := 3
  const CONFIG_UPDATED := 4

  /** A station; its configuration is left out. */
  datatype Sta = Sta(addr: nat, chipId: u16, version: u32, svnVersion: u32, online: bool, nextOff: u32)

  datatype FwInfo = FwInfo(chipId: u16, version: u32, svnVersion: u32)

  /** A packet of the OTA protocol as it is received. */
  datatype Rx =
    | ScanReport(src: nat, chipId: u16, version: u32, svnVersion: u32)
    | FwDataResponse(src: nat, status: u8, off: u32, len: u16)
    | ConfigReport(src: nat, sumRight: bool)
    | ConfigResponse(src: nat, status: u8)
    | Other(src: nat)

  // ------------------------------------------------------------------ the station table

  /** The first station with the address, or the size of the table. */
  function Find(stas: seq<Sta>, mac: nat): (i: nat)
    ensures i <= |stas| && (i < |stas| ==> stas[i].addr == mac)
    ensures forall j | 0 <= j < i :: stas[j].addr != mac
  {
    if stas == [] then 0
    else if stas[0].addr == mac then 0
    else
      assert forall j | 1 <= j < |stas| :: stas[j] == stas[1..][j - 1];
      1 + Find(stas[1..], mac)
  }

  function FirstOffline(stas: seq<Sta>): (i: nat)
    ensures i <= |stas| && (i < |stas| ==> !stas[i].online)
    ensures forall j | 0 <= j < i :: stas[j].online
  {
    if stas == [] then 0
    else if !stas[0].online then 0
    else
      assert forall j | 1 <= j < |stas| :: stas[j] == stas[1..][j - 1];
      1 + FirstOffline(stas[1..])
  }

  predicate Known(stas: seq<Sta>, mac: nat) {
    Find(stas, mac) < |stas|
  }

  /** A report of the station is taken in. */
  predicate HasRoom(stas: seq<Sta>, mac: nat) {
    Known(stas, mac) || FirstOffline(stas) < |stas|
  }

  function NextOff(stas: seq<Sta>, mac: nat): u32 {
    if Known(stas, mac) then stas[Find(stas, mac)].nextOff else 0
  }

  function WithNextOff(stas: seq<Sta>, mac: nat, off: u32): seq<Sta> {
    if Known(stas, mac) then stas[Find(stas, mac) := stas[Find(stas, mac)].(nextOff := off)] else stas
  }

  function Added(stas: seq<Sta>, r: Rx): seq<Sta>
    requires r.ScanReport?
  {
    var sta := Sta(r.src, r.chipId, r.version, r.svnVersion, true, NextOff(stas, r.src));
    if Known(stas, r.src) then stas[Find(stas, r.src) := sta]
    else if FirstOffline(stas) < |stas| then stas[FirstOffline(stas) := sta]
    else stas
  }

  /** The table after a packet. */
  function Received(stas: seq<Sta>, rx: Rx): seq<Sta> {
    match rx
    case ScanReport(_, _, _, _) => Added(stas, rx)
    case FwDataResponse(src, status, off, len) =>
      if status != REJECTED then WithNextOff(stas, src, Word(off + len)) else stas
    case _ => stas
  }

  /** What a packet counts as. */
  function Status(stas: seq<Sta>, rx: Rx): int {
    match rx
    case ScanReport(src, _, _, _) => if HasRoom(stas, src) then NEW_STA else NOTHING
    case FwDataResponse(_, _, _, _) => FW_STATUS
    case ConfigReport(src, sumRight) => if sumRight && Known(stas, src) then CONFIG_GOT else NOTHING
    case ConfigResponse(src, status) => if Known(stas, src) && status != REJECTED then CONFIG_UPDATED else NOTHING
    case Other(_) => NOTHING
  }

  lemma FindIs(stas: seq<Sta>, mac: nat, i: nat)
    requires i <= |stas| && (i < |stas| ==> stas[i].addr == mac)
    requires forall j | 0 <= j < i :: stas[j].addr != mac
    ensures Find(stas, mac) == i
  {}

  lemma FirstOfflineIs(stas: seq<Sta>, i: nat)
    requires i <= |stas| && (i < |stas| ==> !stas[i].online)
    requires forall j | 0 <= j < i :: stas[j].online
    ensures FirstOffline(stas) == i
  {}

  class Libota {
    const stas: array<Sta>
    var staCount: nat

    constructor ()
      ensures fresh(stas) && stas.Length == STA_COUNT && staCount == 0
      ensures forall i | 0 <= i < STA_COUNT :: stas[i] == Sta(0, 0, 0, 0, false, 0)
    {
      stas := new Sta[STA_COUNT](_ => Sta(0, 0, 0, 0, false, 0));
      staCount := 0;
    }

    method FindSta(mac: nat) returns (i: nat)
      ensures i == Find(stas[..], mac)
    {
      i := 0;
      while i < stas.Length
        invariant i <= stas.Length && forall j | 0 <= j < i :: stas[j].addr != mac
      {
        if stas[i].addr == mac {
          FindIs(stas[..], mac, i);
          return;
        }
        i := i + 1;
      }
      FindIs(stas[..], mac, i);
    }

    method NewSta() returns (i: nat)
      ensures i == FirstOffline(stas[..])
    {
      i := 0;
      while i < stas.Length
        invariant i <= stas.Length && forall j | 0 <= j < i :: stas[j].online
      {
        if !stas[i].online {
          FirstOfflineIs(stas[..], i);
          return;
        }
        i := i + 1;
      }
      FirstOfflineIs(stas[..], i);
    }

    method StaNextOff(mac: nat) returns (off: u32)
      ensures off == NextOff(stas[..], mac)
    {
      var i := FindSta(mac);
      off := if i < stas.Length then stas[i].nextOff else 0;
    }

    method AddSta(r: Rx) returns (ok: bool)
      requires r.ScanReport?
      modifies this, stas
      ensures stas[..] == Added(old(stas[..]), r)
      ensures ok == HasRoom(old(stas[..]), r.src)
      ensures staCount == old(staCount) + (if ok && !Known(old(stas[..]), r.src) then 1 else 0)
    {
      var i := FindSta(r.src);
      if i < stas.Length {
        stas[i] := stas[i].(chipId := r.chipId, version := r.version, svnVersion := r.svnVersion, online := true);
        return true;
      }
      i := NewSta();
      if i < stas.Length {
        stas[i] := Sta(r.src, r.chipId, r.version, r.svnVersion, true, 0);
        staCount := staCount + 1;
        return true;
      }
      ok := false;
    }

    /** Sends one piece of the image; nothing is sent without memory. */
    method SendFwData(mac: nat, info: FwInfo, total: nat, off: nat, data: seq<u8>, charSigned: bool, memory: bool)
      returns (sent: seq<Packet>)
      requires |data| <= 0xFFFF
      modifies stas
      ensures stas[..] == WithNextOff(old(stas[..]), mac, 0)
      ensures sent == if memory then [Piece(info, total, off, data, charSigned)] else []
      ensures memory ==> |sent| == 1 && sent[0].data == data && SentRight(info, total, charSigned, sent[0]) && sent[0].off == off
    {
      var i := FindSta(mac);
      if i < stas.Length { stas[i] := stas[i].(nextOff := 0); }
      LibotaVerifies(data, charSigned);
      sent := [];
      if memory {
        var sum := LibotaCheckSum(data, charSigned);
        sent := [Packet(info.version, off, total, sum, info.chipId, data)];
      }
    }

    method RxProc(rx: Rx) returns (status: int)
      modifies this, stas
      ensures stas[..] == Received(old(stas[..]), rx)
      ensures status == Status(old(stas[..]), rx)
    {
      status := NOTHING;
      var sta := FindSta(rx.src);
      match rx
      case ScanReport(_, _, _, _) =>
        var ok := AddSta(rx);
        if ok { status := NEW_STA; }
      case FwDataResponse(src, st, off, len) =>
        if sta < stas.Length && st != REJECTED {
          stas[sta] := stas[sta].(nextOff := Word(off + len));
        }
        status := FW_STATUS;
      case ConfigReport(_, sumRight) =>
        if sumRight && sta < stas.Length { status := CONFIG_GOT; }
      case ConfigResponse(_, st) =>
        if sta < stas.Length && st != REJECTED { status := CONFIG_UPDATED; }
      case Other(_) =>
    }

    /** The upload loop, over the rounds the network has in store. */
    method OtaDevice(mac: nat, info: FwInfo, image: seq<u8>, charSigned: bool, rounds: seq<Round>)
      returns (off: nat, sent: seq<Packet>)
      modifies this, stas
      ensures var start := Host(old(stas[..]), 0, 0, []);
              if Known(start.stas, mac) && start.stas[Find(start.stas, mac)].svnVersion == info.svnVersion
              then off == 0 && sent == [] && stas[..] == start.stas
              else var end := Run(mac, info, image, charSigned, start, rounds);
                   off == end.off && sent == end.sent && stas[..] == end.stas
    {
      off, sent := 0, [];
      var i := FindSta(mac);
      if i < stas.Length && stas[i].svnVersion == info.svnVersion { return; }
      off, sent := Loop(mac, info, image, charSigned, rounds);
    }

    /** Sends pieces until the image is sent or ten turns have gone unanswered. */
    method Loop(mac: nat, info: FwInfo, image: seq<u8>, charSigned: bool, rounds: seq<Round>)
      returns (off: nat, sent: seq<Packet>)
      modifies this, stas
      ensures var end := Run(mac, info, image, charSigned, Host(old(stas[..]), 0, 0, []), rounds);
              off == end.off && sent == end.sent && stas[..] == end.stas
    {
      off, sent := 0, [];
      var retry: nat := 0;
      var left := rounds;
      ghost var end := Run(mac, info, image, charSigned, Host(stas[..], 0, 0, []), rounds);
      while off < |image| && retry < 10 && left != []
        invariant Run(mac, info, image, charSigned, Host(stas[..], off, retry, sent), left) == end
        decreases |left|
      {
        off, retry, sent := Turn(mac, info, image, charSigned, off, retry, sent, left[0]);
        left := left[1..];
      }
    }

    /** Sends the piece at the offset and waits for an answer. */
    method Turn(mac: nat, info: FwInfo, image: seq<u8>, charSigned: bool, off: nat, retry: nat, sent: seq<Packet>, round: Round)
      returns (off': nat, retry': nat, sent': seq<Packet>)
      requires off < |image|
      modifies this, stas
      ensures Host(stas[..], off', retry', sent')
           == Step(mac, info, image, charSigned, Host(old(stas[..]), off, retry, sent), round)
    {
      var n := if |image| - off > PAYLOAD then PAYLOAD else |image| - off;
      var more := SendFwData(mac, info, |image|, off, image[off..off + n], charSigned, round.memory);
      sent' := sent + more;
      var status := NOTHING;
      if round.received.Some? { status := RxProc(round.received.value); }
      if status == FW_STATUS { retry' := 0; } else { retry' := retry + 1; }
      off' := StaNextOff(mac);
    }
  }

  // ------------------------------------------------------------------ the upload as steps

  /** One turn of the loop: whether there is memory for the packet, which of the packets sent so
      far the device stores now, and what comes back before the timeout. */
  datatype Round = Round(memory: bool, stores: seq<nat>, received: Option<Rx>)

  /** The tool: its table, the offset it has reached, turns without an answer, packets sent. */
  datatype Host = Host(stas: seq<Sta>, off: nat, retry: nat, sent: seq<Packet>)

  function Piece(info: FwInfo, total: nat, off: nat, data: seq<u8>, charSigned: bool): Packet {
    Packet(info.version, off, total, LibotaSum(data, charSigned), info.chipId, data)
  }

  function PieceLength(left: nat): nat {
    if left > PAYLOAD then PAYLOAD else left
  }

  function Sent(info: FwInfo, image: seq<u8>, charSigned: bool, h: Host, memory: bool): seq<Packet>
    requires h.off < |image|
  {
    if memory
    then h.sent + [Piece(info, |image|, h.off, image[h.off..h.off + PieceLength(|image| - h.off)], charSigned)]
    else h.sent
  }

  function Step(mac: nat, info: FwInfo, image: seq<u8>, charSigned: bool, h: Host, r: Round): Host
    requires h.off < |image|
  {
    var cleared := WithNextOff(h.stas, mac, 0);
    var stas := if r.received.Some? then Received(cleared, r.received.value) else cleared;
    var answered := r.received.Some? && r.received.value.FwDataResponse?;
    Host(stas, NextOff(stas, mac), if answered then 0 else h.retry + 1, Sent(info, image, charSigned, h, r.memory))
  }

  predicate Going(image: seq<u8>, h: Host) {
    h.off < |image| && h.retry < 10
  }

  function Run(mac: nat, info: FwInfo, image: seq<u8>, charSigned: bool, h: Host, rounds: seq<Round>): Host
    decreases |rounds|
  {
    if rounds == [] || !Going(image, h) then h
    else Run(mac, info, image, charSigned, Step(mac, info, image, charSigned, h, rounds[0]), rounds[1..])
  }

  // ------------------------------------------------------------------ the device

  /** The device: its flash, and which of the packets sent it has stored. */
  datatype Device = Device(flash: map<nat, u8>, stored: set<nat>)

  function Stores(d: Device, sent: seq<Packet>, which: seq<nat>): Device
    decreases |which|
  {
    if which == [] then d
    else if which[0] < |sent|
    then Stores(Device(Store(d.flash, sent[which[0]]), d.stored + {which[0]}), sent, which[1..])
    else Stores(d, sent, which[1..])
  }

  /** The device only acknowledges what it has stored, giving back its offset and length. */
  ghost predicate Honest(mac: nat, sent: seq<Packet>, stored: set<nat>, received: Option<Rx>) {
    received.Some? && received.value.FwDataResponse? && received.value.src == mac && received.value.status != REJECTED ==>
      exists j: nat :: Acknowledges(sent, stored, received.value, j)
  }

  predicate Acknowledges(sent: seq<Packet>, stored: set<nat>, rx: Rx, j: nat)
    requires rx.FwDataResponse?
  {
    j in stored && j < |sent| && rx.off == sent[j].off && rx.len == |sent[j].data|
  }

  /** The device over the same rounds, which come from one that is honest throughout. */
  function DeviceRun(mac: nat, info: FwInfo, image: seq<u8>, charSigned: bool, h: Host, d: Device, rounds: seq<Round>): Device
    decreases |rounds|
  {
    if rounds == [] || !Going(image, h) then d
    else
      var h' := Step(mac, info, image, charSigned, h, rounds[0]);
      DeviceRun(mac, info, image, charSigned, h', Stores(d, h'.sent, rounds[0].stores), rounds[1..])
  }

  ghost predicate HonestRun(mac: nat, info: FwInfo, image: seq<u8>, charSigned: bool, h: Host, d: Device, rounds: seq<Round>)
    decreases |rounds|
  {
    rounds != [] && Going(image, h) ==>
      var h' := Step(mac, info, image, charSigned, h, rounds[0]);
      var d' := Stores(d, h'.sent, rounds[0].stores);
      && Honest(mac, h'.sent, d'.stored, rounds[0].received)
      && HonestRun(mac, info, image, charSigned, h', d', rounds[1..])
  }

  // ------------------------------------------------------------------ safety

  function End(p: Packet): nat {
    p.off + |p.data|
  }

  /** A packet of the image, sent when everything below it was in the flash. */
  predicate GoodPacket(image: seq<u8>, flash: map<nat, u8>, p: Packet) {
    && 1 <= |p.data| <= PAYLOAD && End(p) <= |image| && p.data == image[p.off..End(p)]
    && p.totLen == |image| && Holds(flash, image, p.off)
  }

  /** The offset is 0 or the end of a fragment the device has stored. */
  ghost predicate AtFragmentEnd(h: Host, d: Device) {
    h.off == 0 || exists j: nat :: j in d.stored && j < |h.sent| && End(h.sent[j]) == h.off
  }

  ghost predicate AllGood(image: seq<u8>, h: Host, d: Device) {
    && (forall j | 0 <= j < |h.sent| :: GoodPacket(image, d.flash, h.sent[j]))
    && (forall j: nat | j in d.stored :: j < |h.sent| && Holds(d.flash, image, End(h.sent[j])))
  }

  /** What an upload promises: the offset is 0 or the end of a stored fragment, and everything below
      it is stored. */
  ghost predicate Sound(image: seq<u8>, h: Host, d: Device) {
    h.off <= |image| && Holds(d.flash, image, h.off) && AtFragmentEnd(h, d)
  }

  /** What every turn of the loop keeps. */
  ghost predicate Safe(mac: nat, image: seq<u8>, h: Host, d: Device) {
    Shielded(h.stas, mac) && Sound(image, h, d) && AllGood(image, h, d)
  }

  /** Storing a piece of the image never spoils it. */
  lemma StoreKeeps(image: seq<u8>, flash: map<nat, u8>, p: Packet, n: nat)
    requires GoodPacket(image, flash, p) && n <= |image|
    ensures Holds(flash, image, n) ==> Holds(Store(flash, p), image, n)
    ensures Holds(Store(flash, p), image, End(p))
  {
    var flash' := Store(flash, p);
    forall a: nat | p.off <= a < End(p)
      ensures a in flash' && flash'[a] == image[a]
    {
      assert p.data[a - p.off] == image[p.off..End(p)][a - p.off];
    }
  }

  lemma {:induction false} StoresKeep(image: seq<u8>, h: Host, d: Device, which: seq<nat>, n: nat)
    requires AllGood(image, h, d) && n <= |image| && Holds(d.flash, image, n)
    ensures AllGood(image, h, Stores(d, h.sent, which)) && Holds(Stores(d, h.sent, which).flash, image, n)
    ensures d.stored <= Stores(d, h.sent, which).stored
    decreases |which|
  {
    if which != [] {
      if which[0] < |h.sent| {
        var p := h.sent[which[0]];
        var d' := Device(Store(d.flash, p), d.stored + {which[0]});
        StoreKeeps(image, d.flash, p, n);
        forall j | 0 <= j < |h.sent|
          ensures GoodPacket(image, d'.flash, h.sent[j])
        {
          StoreKeeps(image, d.flash, p, h.sent[j].off);
        }
        forall j: nat | j in d'.stored
          ensures j < |h.sent| && Holds(d'.flash, image, End(h.sent[j]))
        {
          if j in d.stored { StoreKeeps(image, d.flash, p, End(h.sent[j])); }
        }
        StoresKeep(image, h, d', which[1..], n);
      } else {
        StoresKeep(image, h, d, which[1..], n);
      }
    }
  }

  /** An entry of the station behind its first one has no offset, or an online entry of the station
      before it, which is never given to another station. */
  predicate Shielded(stas: seq<Sta>, mac: nat) {
    forall j | Find(stas, mac) < j < |stas| && stas[j].addr == mac && stas[j].nextOff != 0 :: OnlineBefore(stas, mac, j)
  }

  predicate OnlineBefore(stas: seq<Sta>, mac: nat, j: nat) {
    exists k :: 0 <= k < j && k < |stas| && stas[k].addr == mac && stas[k].online
  }

  lemma WithNextOffKeepsShielded(stas: seq<Sta>, mac: nat, src: nat, off: u32)
    requires Shielded(stas, mac)
    ensures Shielded(WithNextOff(stas, src, off), mac)
    ensures forall other :: Find(WithNextOff(stas, src, off), other) == Find(stas, other)
    ensures src != mac ==> NextOff(WithNextOff(stas, src, off), mac) == NextOff(stas, mac)
  {
    SameFind(stas, src, off);
    var after := WithNextOff(stas, src, off);
    forall j | Find(after, mac) < j < |after| && after[j].addr == mac && after[j].nextOff != 0
      ensures OnlineBefore(after, mac, j)
    {
      assert OnlineBefore(stas, mac, j);
      var k :| 0 <= k < j && k < |stas| && stas[k].addr == mac && stas[k].online;
      assert after[k].addr == mac && after[k].online;
    }
  }

  lemma SameFind(stas: seq<Sta>, src: nat, off: u32)
    ensures forall other :: Find(WithNextOff(stas, src, off), other) == Find(stas, other)
  {
    forall other: nat
      ensures Find(WithNextOff(stas, src, off), other) == Find(stas, other)
    {
      FindIs(WithNextOff(stas, src, off), other, Find(stas, other));
    }
  }

  /** A report of another station leaves the station's first entry alone, or takes it away with no
      offset to be seen behind it. */
  lemma ReportKeepsShielded(stas: seq<Sta>, mac: nat, r: Rx)
    requires Shielded(stas, mac) && r.ScanReport?
    ensures Shielded(Added(stas, r), mac)
    ensures NextOff(stas, mac) == 0 ==> NextOff(Added(stas, r), mac) == 0
  {
    var after := Added(stas, r);
    if Known(stas, r.src) {
      UpdateKeepsShielded(stas, mac, r.src, after);
    } else if FirstOffline(stas) < |stas| {
      ReplacedKeepsShielded(stas, mac, FirstOffline(stas), after);
    }
  }

  lemma UpdateKeepsShielded(stas: seq<Sta>, mac: nat, src: nat, after: seq<Sta>)
    requires Shielded(stas, mac) && Known(stas, src) && |after| == |stas|
    requires var i := Find(stas, src);
             && after == stas[i := after[i]] && after[i].addr == src && after[i].online && after[i].nextOff == stas[i].nextOff
    ensures Shielded(after, mac) && NextOff(after, mac) == NextOff(stas, mac)
  {
    FindIs(after, mac, Find(stas, mac));
    forall j | Find(after, mac) < j < |after| && after[j].addr == mac && after[j].nextOff != 0
      ensures OnlineBefore(after, mac, j)
    {
      assert OnlineBefore(stas, mac, j);
      var k :| 0 <= k < j && k < |stas| && stas[k].addr == mac && stas[k].online;
      assert after[k].addr == mac && after[k].online;
    }
  }

  lemma ReplacedKeepsShielded(stas: seq<Sta>, mac: nat, i: nat, after: seq<Sta>)
    requires Shielded(stas, mac) && i < |stas| && !stas[i].online
    requires |after| == |stas| && after == stas[i := after[i]] && after[i].nextOff == 0
    requires after[i].addr == mac ==> !Known(stas, mac)
    ensures Shielded(after, mac) && (NextOff(stas, mac) == 0 ==> NextOff(after, mac) == 0)
  {
    forall j | 0 <= j < |after| && after[j].addr == mac && after[j].nextOff != 0 && (j > Find(stas, mac))
      ensures OnlineBefore(after, mac, j)
    {
      assert OnlineBefore(stas, mac, j);
      var k :| 0 <= k < j && k < |stas| && stas[k].addr == mac && stas[k].online;
      assert after[k].addr == mac && after[k].online;
    }
    assert Find(after, mac) < |after| && after[i].addr != mac ==> Find(stas, mac) <= Find(after, mac);
  }

  lemma ReceivedKeepsShielded(stas: seq<Sta>, mac: nat, rx: Rx)
    requires Shielded(stas, mac)
    ensures Shielded(Received(stas, rx), mac)
  {
    match rx
    case ScanReport(_, _, _, _) => ReportKeepsShielded(stas, mac, rx);
    case FwDataResponse(src, _, off, len) => WithNextOffKeepsShielded(stas, mac, src, Word(off + len));
    case _ =>
  }

  /** What a received packet does to the tool's offset for the station. */
  lemma OffsetAfter(mac: nat, stas: seq<Sta>, rx: Rx)
    requires Shielded(stas, mac) && NextOff(stas, mac) == 0
    ensures NextOff(Received(stas, rx), mac) ==
      if rx.FwDataResponse? && rx.src == mac && rx.status != REJECTED && Known(stas, mac) then Word(rx.off + rx.len) else 0
  {
    match rx
    case ScanReport(_, _, _, _) => ReportKeepsShielded(stas, mac, rx);
    case FwDataResponse(src, _, off, len) => WithNextOffKeepsShielded(stas, mac, src, Word(off + len));
    case _ =>
  }

  lemma ClearedOffset(mac: nat, stas: seq<Sta>)
    requires Shielded(stas, mac)
    ensures NextOff(WithNextOff(stas, mac, 0), mac) == 0 && Shielded(WithNextOff(stas, mac, 0), mac)
  {
    WithNextOffKeepsShielded(stas, mac, mac, 0);
  }

  lemma StepKeepsSafe(mac: nat, info: FwInfo, image: seq<u8>, charSigned: bool, h: Host, d: Device, r: Round)
    requires |image| < 0x1_0000_0000 && Going(image, h) && Safe(mac, image, h, d)
    requires var sent := Sent(info, image, charSigned, h, r.memory);
             Honest(mac, sent, Stores(d, sent, r.stores).stored, r.received)
    ensures var h' := Step(mac, info, image, charSigned, h, r);
            Safe(mac, image, h', Stores(d, h'.sent, r.stores))
  {
    var h' := Step(mac, info, image, charSigned, h, r);
    var d' := Stores(d, h'.sent, r.stores);
    SentIsGood(mac, info, image, charSigned, h, d, r.memory);
    assert AllGood(image, h', d);
    StoresKeep(image, h', d, r.stores, 0);
    TableAfter(mac, h.stas, r.received);
    if h'.off != 0 { AcknowledgedEnd(mac, image, h', d', r.received.value); }
  }

  lemma AcknowledgedEnd(mac: nat, image: seq<u8>, h: Host, d: Device, rx: Rx)
    requires |image| < 0x1_0000_0000 && AllGood(image, h, d) && Honest(mac, h.sent, d.stored, Some(rx))
    requires rx.FwDataResponse? && rx.src == mac && rx.status != REJECTED && h.off == Word(rx.off + rx.len)
    ensures h.off <= |image| && Holds(d.flash, image, h.off) && AtFragmentEnd(h, d)
  {
    var j: nat :| Acknowledges(h.sent, d.stored, rx, j);
    assert GoodPacket(image, d.flash, h.sent[j]);
    WordSmall(End(h.sent[j]));
    assert h.off == End(h.sent[j]);
  }

  /** The piece sent is a good packet, as those sent before are. */
  lemma SentIsGood(mac: nat, info: FwInfo, image: seq<u8>, charSigned: bool, h: Host, d: Device, memory: bool)
    requires Going(image, h) && Safe(mac, image, h, d)
    ensures AllGood(image, h.(sent := Sent(info, image, charSigned, h, memory)), d)
  {}

  /** The packet is the station's acknowledgement of a piece that ends at off. */
  predicate Answers(rx: Rx, mac: nat, off: u32) {
    rx.FwDataResponse? && rx.src == mac && rx.status != REJECTED && off == Word(rx.off + rx.len)
  }

  /** The table after a turn, and the offset in it. */
  lemma TableAfter(mac: nat, stas: seq<Sta>, received: Option<Rx>)
    requires Shielded(stas, mac)
    ensures var cleared := WithNextOff(stas, mac, 0);
            var after := if received.Some? then Received(cleared, received.value) else cleared;
            && Shielded(after, mac)
            && (NextOff(after, mac) != 0 ==> received.Some? && Answers(received.value, mac, NextOff(after, mac)))
  {
    ClearedOffset(mac, stas);
    if received.Some? {
      OffsetAfter(mac, WithNextOff(stas, mac, 0), received.value);
      ReceivedKeepsShielded(WithNextOff(stas, mac, 0), mac, received.value);
    }
  }

  /** Over every run, whatever is lost, repeated, delayed or rejected, and whatever other stations
      send: the offset is 0 or the end of a stored fragment, and everything below it is stored. */
  lemma {:induction false} RunIsSafe(mac: nat, info: FwInfo, image: seq<u8>, charSigned: bool, h: Host, d: Device, rounds: seq<Round>)
    requires |image| < 0x1_0000_0000 && Safe(mac, image, h, d)
    requires HonestRun(mac, info, image, charSigned, h, d, rounds)
    ensures Safe(mac, image, Run(mac, info, image, charSigned, h, rounds), DeviceRun(mac, info, image, charSigned, h, d, rounds))
    decreases |rounds|
  {
    if rounds != [] && Going(image, h) {
      StepKeepsSafe(mac, info, image, charSigned, h, d, rounds[0]);
      var h' := Step(mac, info, image, charSigned, h, rounds[0]);
      RunIsSafe(mac, info, image, charSigned, h', Stores(d, h'.sent, rounds[0].stores), rounds[1..]);
    }
  }

  /** Leaving the loop with the offset at the end means that the whole image is stored. */
  lemma FinishedIsStored(mac: nat, info: FwInfo, image: seq<u8>, charSigned: bool, stas: seq<Sta>, flash: map<nat, u8>, rounds: seq<Round>)
    requires |image| < 0x1_0000_0000 && Shielded(stas, mac)
    requires HonestRun(mac, info, image, charSigned, Host(stas, 0, 0, []), Device(flash, {}), rounds)
    requires Run(mac, info, image, charSigned, Host(stas, 0, 0, []), rounds).off >= |image|
    ensures Holds(DeviceRun(mac, info, image, charSigned, Host(stas, 0, 0, []), Device(flash, {}), rounds).flash, image, |image|)
  {
    RunIsSafe(mac, info, image, charSigned, Host(stas, 0, 0, []), Device(flash, {}), rounds);
  }

  // ------------------------------------------------------------------ what is sent

  /** The packet says what image it belongs to, and its data and checksum together sum to all ones,
      unless char is signed and the data end in an odd byte of 0x80 or more. */
  predicate SentRight(info: FwInfo, total: nat, charSigned: bool, p: Packet) {
    && p.version == info.version && p.chipId == info.chipId && p.totLen == total
    && (OnesAdd(OnesSum(p.data), p.checksum) == 0xFFFF
        <==> !(charSigned && |p.data| % 2 == 1 && p.data[|p.data| - 1] >= 0x80))
  }

  /** It carries up to 1460 bytes of the image. */
  predicate CarriesPiece(image: seq<u8>, p: Packet) {
    1 <= |p.data| <= 1460 && p.off + |p.data| <= |image| && p.data == image[p.off..p.off + |p.data|]
    && (|p.data| < 1460 ==> p.off + |p.data| == |image|)
  }

  predicate AllRight(info: FwInfo, image: seq<u8>, charSigned: bool, sent: seq<Packet>) {
    forall i | 0 <= i < |sent| :: SentRight(info, |image|, charSigned, sent[i]) && CarriesPiece(image, sent[i])
  }

  lemma StepSendsRight(mac: nat, info: FwInfo, image: seq<u8>, charSigned: bool, h: Host, r: Round)
    requires h.off < |image| && AllRight(info, image, charSigned, h.sent)
    ensures AllRight(info, image, charSigned, Step(mac, info, image, charSigned, h, r).sent)
  {
    LibotaVerifies(image[h.off..h.off + PieceLength(|image| - h.off)], charSigned);
  }

  lemma {:induction false} RunSendsRight(mac: nat, info: FwInfo, image: seq<u8>, charSigned: bool, h: Host, rounds: seq<Round>)
    requires AllRight(info, image, charSigned, h.sent)
    ensures AllRight(info, image, charSigned, Run(mac, info, image, charSigned, h, rounds).sent)
    decreases |rounds|
  {
    if rounds != [] && Going(image, h) {
      StepSendsRight(mac, info, image, charSigned, h, rounds[0]);
      RunSendsRight(mac, info, image, charSigned, Step(mac, info, image, charSigned, h, rounds[0]), rounds[1..]);
    }
  }

  /** In every run each packet sent carries a piece of the image, of 1460 bytes unless it is the last,
      with the image's version, chip and length, and a checksum that verifies exactly if not char is
      signed and the piece ends in an odd byte of 0x80 or more. */
  lemma PacketsAreRight(mac: nat, info: FwInfo, image: seq<u8>, charSigned: bool, stas: seq<Sta>, rounds: seq<Round>)
    ensures AllRight(info, image, charSigned, Run(mac, info, image, charSigned, Host(stas, 0, 0, []), rounds).sent)
  {
    RunSendsRight(mac, info, image, charSigned, Host(stas, 0, 0, []), rounds);
  }

  predicate NoAnswer(r: Round) {
    r.memory && (r.received.Some? ==> !r.received.value.FwDataResponse? && !r.received.value.ScanReport?)
  }

  /** Without an answer the tool sends the first piece ten times, and no more. */
  lemma {:induction false} GivesUpAfterTen(mac: nat, info: FwInfo, image: seq<u8>, charSigned: bool, h: Host, rounds: seq<Round>)
    requires image != [] && h.off == 0 && h.retry <= 10 && forall i | 0 <= i < |rounds| :: NoAnswer(rounds[i])
    ensures var end := Run(mac, info, image, charSigned, h, rounds);
            end.off == 0 && |end.sent| == |h.sent| + if |rounds| < 10 - h.retry then |rounds| else 10 - h.retry
    decreases |rounds|
  {
    if rounds != [] && h.retry < 10 {
      SameFind(h.stas, mac, 0);
      GivesUpAfterTen(mac, info, image, charSigned, Step(mac, info, image, charSigned, h, rounds[0]), rounds[1..]);
    }
  }

  /** A report that is taken in leaves one entry of its station up to date and online, at the offset it
      had, and no other entry changed. */
  lemma ReportRecorded(stas: seq<Sta>, r: Rx)
    requires r.ScanReport? && HasRoom(stas, r.src)
    ensures var after, i := Added(stas, r), Find(Added(stas, r), r.src);
            && |after| == |stas| && i < |stas|
            && after[i] == Sta(r.src, r.chipId, r.version, r.svnVersion, true, if Known(stas, r.src) then stas[i].nextOff else 0)
            && (forall j | 0 <= j < |stas| && j != i :: after[j] == stas[j])
            && (if Known(stas, r.src) then i == Find(stas, r.src) else !stas[i].online)
  {
    if Known(stas, r.src) {
      FindIs(Added(stas, r), r.src, Find(stas, r.src));
    } else {
      FindIs(Added(stas, r), r.src, FirstOffline(stas));
    }
  }

  /** Which packets give which status. */
  lemma StatusMeans(stas: seq<Sta>, rx: Rx)
    ensures Status(stas, rx) == 1 <==> rx.ScanReport? && (rx.src in Addresses(stas) || exists i :: 0 <= i < |stas| && !stas[i].online)
    ensures Status(stas, rx) == 2 <==> rx.FwDataResponse?
    ensures Status(stas, rx) == 3 <==> rx.ConfigReport? && rx.sumRight && rx.src in Addresses(stas)
    ensures Status(stas, rx) == 4 <==> rx.ConfigResponse? && rx.status != 0xFF && rx.src in Addresses(stas)
    ensures Status(stas, rx) in {0, 1, 2, 3, 4}
  {}

  function Addresses(stas: seq<Sta>): set<nat> {
    set i | 0 <= i < |stas| :: stas[i].addr
  }

  // ------------------------------------------------------------------ which tables are safe

  /** Of stations with the same address only the first has an offset: so it is in a cleared table,
      and so it stays. */
  predicate Tidy(stas: seq<Sta>) {
    forall i, j | 0 <= i < j < |stas| && stas[i].addr == stas[j].addr :: stas[j].nextOff == 0
  }

  /** The table after a number of packets. */
  function AllReceived(stas: seq<Sta>, packets: seq<Rx>): seq<Sta>
    decreases |packets|
  {
    if packets == [] then stas else AllReceived(Received(stas, packets[0]), packets[1..])
  }

  lemma ReceivedKeepsTidy(stas: seq<Sta>, rx: Rx)
    requires Tidy(stas)
    ensures Tidy(Received(stas, rx))
  {
    if rx.FwDataResponse? { SameFind(stas, rx.src, Word(rx.off + rx.len)); }
  }

  /** Every table the tool builds from a tidy one, as the cleared one is, is safe for every station. */
  lemma {:induction false} TablesAreTidy(stas: seq<Sta>, packets: seq<Rx>)
    requires Tidy(stas)
    ensures Tidy(AllReceived(stas, packets)) && forall mac :: Shielded(AllReceived(stas, packets), mac)
    decreases |packets|
  {
    if packets != [] {
      ReceivedKeepsTidy(stas, packets[0]);
      TablesAreTidy(Received(stas, packets[0]), packets[1..]);
    }
  }

  /** An entry of the station whose offset comes into sight once the entries of the station before it,
      all offline, have been given to others. */
  predicate Exposed(stas: seq<Sta>, mac: nat, j: nat) {
    && Find(stas, mac) < j < |stas| && stas[j].addr == mac && stas[j].nextOff != 0
    && forall k | 0 <= k < j && stas[k].addr == mac ::
         !stas[k].online && (k != Find(stas, mac) ==> stas[k].nextOff == 0)
  }

  lemma {:induction false} FirstExposed(stas: seq<Sta>, mac: nat, j: nat) returns (first: nat)
    requires Find(stas, mac) < j < |stas| && stas[j].addr == mac && stas[j].nextOff != 0 && !OnlineBefore(stas, mac, j)
    ensures Exposed(stas, mac, first)
    decreases j
  {
    if k: nat :| Find(stas, mac) < k < j && stas[k].addr == mac && stas[k].nextOff != 0 {
      first := FirstExposed(stas, mac, k);
    } else {
      first := j;
    }
  }

  /** The table without the stations with the address. */
  function Others(stas: seq<Sta>, a: nat): (rest: seq<Sta>)
    ensures |rest| <= |stas| && (Known(stas, a) ==> |rest| < |stas|)
    ensures forall i | 0 <= i < |stas| && stas[i].addr != a :: stas[i] in rest
  {
    if stas == [] then []
    else if stas[0].addr == a then Others(stas[1..], a)
    else [stas[0]] + Others(stas[1..], a)
  }

  /** An address no station has, from a on. */
  function Unused(stas: seq<Sta>, a: nat): (u: nat)
    ensures a <= u <= a + |stas| && !Known(stas, u)
    decreases |stas|
  {
    if Known(stas, a) then
      var u := Unused(Others(stas, a), a + 1);
      StillUnknown(stas, a, u);
      u
    else a
  }

  lemma StillUnknown(stas: seq<Sta>, a: nat, u: nat)
    requires u != a && !Known(Others(stas, a), u)
    ensures !Known(stas, u)
  {
    forall i | 0 <= i < |stas|
      ensures stas[i].addr != u
    {
      if stas[i].addr != a { assert stas[i] in Others(stas, a); }
    }
  }

  function OfflineBefore(stas: seq<Sta>, j: nat): nat
    requires j <= |stas|
  {
    if j == 0 then 0 else OfflineBefore(stas, j - 1) + if stas[j - 1].online then 0 else 1
  }

  lemma {:induction false} OneFewer(stas: seq<Sta>, i: nat, sta: Sta, j: nat)
    requires i < |stas| && j <= |stas| && !stas[i].online && sta.online
    ensures OfflineBefore(stas[i := sta], j) == OfflineBefore(stas, j) - if i < j then 1 else 0
  {
    if j > 0 { OneFewer(stas, i, sta, j - 1); }
  }

  lemma {:induction false} SameOffline(stas: seq<Sta>, mac: nat, off: u32, j: nat)
    requires j <= |stas|
    ensures OfflineBefore(WithNextOff(stas, mac, off), j) == OfflineBefore(stas, j)
  {
    if j > 0 { SameOffline(stas, mac, off, j - 1); }
  }

  /** The report of a station the table does not know. */
  function Stranger(stas: seq<Sta>): Round {
    Round(true, [], Some(ScanReport(Unused(stas, 0), 0, 0, 0)))
  }

  /** A rejection from some other station: it changes nothing but that the tool starts counting
      again. */
  function Distraction(mac: nat): Round {
    Round(true, [], Some(FwDataResponse(if mac == 0 then 1 else 0, REJECTED, 0, 0)))
  }

  /** One report evicts the first offline entry: either the exposed entry is now the station's first,
      or it is still exposed, with one offline entry fewer before it. */
  lemma Evicts(stas: seq<Sta>, mac: nat, j: nat, r: Rx)
    requires Exposed(stas, mac, j) && NextOff(stas, mac) == 0 && r.ScanReport? && !Known(stas, r.src)
    ensures var after := Added(stas, r);
            && |after| == |stas| && after[j] == stas[j] && OfflineBefore(after, j) < OfflineBefore(stas, j)
            && (Find(after, mac) == j || (Exposed(after, mac, j) && NextOff(after, mac) == 0))
  {
    var i, first := FirstOffline(stas), Find(stas, mac);
    assert !stas[first].online;
    assert i <= first;
    OneFewer(stas, i, Sta(r.src, r.chipId, r.version, r.svnVersion, true, 0), j);
    var after := Added(stas, r);
    assert after[j].addr == mac && r.src != mac;
    assert Find(after, mac) <= j;
    assert forall k | 0 <= k < j && after[k].addr == mac :: after[k] == stas[k] && k != i;
    if Find(after, mac) < j { assert first <= Find(after, mac); }
  }

  lemma ClearedStaysExposed(stas: seq<Sta>, mac: nat, j: nat)
    requires Exposed(stas, mac, j)
    ensures var cleared := WithNextOff(stas, mac, 0);
            && Exposed(cleared, mac, j) && NextOff(cleared, mac) == 0 && OfflineBefore(cleared, j) == OfflineBefore(stas, j)
            && cleared[j] == stas[j]
  {
    SameFind(stas, mac, 0);
    SameOffline(stas, mac, 0, j);
  }

  lemma StrangerTurn(mac: nat, info: FwInfo, image: seq<u8>, charSigned: bool, h: Host, j: nat)
    requires image != [] && h.off == 0 && Exposed(h.stas, mac, j)
    ensures var h' := Step(mac, info, image, charSigned, h, Stranger(h.stas));
            && h'.retry == h.retry + 1
            && (h'.off != 0 || (h'.off == 0 && Exposed(h'.stas, mac, j) && OfflineBefore(h'.stas, j) < OfflineBefore(h.stas, j)))
  {
    var cleared, r := WithNextOff(h.stas, mac, 0), Stranger(h.stas).received.value;
    ClearedStaysExposed(h.stas, mac, j);
    SameFind(h.stas, mac, 0);
    Evicts(cleared, mac, j, r);
  }

  lemma DistractionTurn(mac: nat, info: FwInfo, image: seq<u8>, charSigned: bool, h: Host, j: nat)
    requires image != [] && h.off == 0 && Exposed(h.stas, mac, j)
    ensures var h' := Step(mac, info, image, charSigned, h, Distraction(mac));
            && h'.retry == 0 && h'.off == 0 && Exposed(h'.stas, mac, j)
            && OfflineBefore(h'.stas, j) == OfflineBefore(h.stas, j)
  {
    ClearedStaysExposed(h.stas, mac, j);
  }

  lemma Unstored(image: seq<u8>, h: Host, d: Device)
    requires h.off != 0 && d.stored == {}
    ensures !Sound(image, h, d)
  {}

  lemma NothingStored(d: Device, sent: seq<Packet>)
    ensures Stores(d, sent, []) == d
  {}

  /** One round of a run, in which the device stores nothing and the station itself is silent. */
  lemma SilentRound(mac: nat, info: FwInfo, image: seq<u8>, charSigned: bool, h: Host, d: Device, r: Round, rest: seq<Round>)
    requires Going(image, h) && r.stores == []
    requires r.received.Some? && (r.received.value.FwDataResponse? ==> r.received.value.src != mac)
    ensures var h' := Step(mac, info, image, charSigned, h, r);
            && Run(mac, info, image, charSigned, h, [r] + rest) == Run(mac, info, image, charSigned, h', rest)
            && DeviceRun(mac, info, image, charSigned, h, d, [r] + rest) == DeviceRun(mac, info, image, charSigned, h', d, rest)
            && (HonestRun(mac, info, image, charSigned, h, d, [r] + rest) <==> HonestRun(mac, info, image, charSigned, h', d, rest))
  {
    var h' := Step(mac, info, image, charSigned, h, r);
    assert ([r] + rest)[0] == r && ([r] + rest)[1..] == rest;
    NothingStored(d, h'.sent);
  }

  /** Strangers report one after the other, and once the exposed entry is in sight the tool skips to
      an offset at which nothing was ever stored. */
  lemma {:induction false} ExposedIsUnsafe(mac: nat, info: FwInfo, image: seq<u8>, charSigned: bool, h: Host, d: Device, j: nat)
      returns (rounds: seq<Round>)
    requires image != [] && h.off == 0 && h.retry <= 8 && d.stored == {} && Exposed(h.stas, mac, j)
    ensures HonestRun(mac, info, image, charSigned, h, d, rounds)
    ensures !Sound(image, Run(mac, info, image, charSigned, h, rounds), DeviceRun(mac, info, image, charSigned, h, d, rounds))
    decreases OfflineBefore(h.stas, j)
  {
    var r1, r2 := Stranger(h.stas), Distraction(mac);
    var h1 := Step(mac, info, image, charSigned, h, r1);
    StrangerTurn(mac, info, image, charSigned, h, j);
    if h1.off != 0 {
      rounds := [r1] + [];
      SilentRound(mac, info, image, charSigned, h, d, r1, []);
      Unstored(image, h1, d);
    } else {
      var h2 := Step(mac, info, image, charSigned, h1, r2);
      DistractionTurn(mac, info, image, charSigned, h1, j);
      var more := ExposedIsUnsafe(mac, info, image, charSigned, h2, d, j);
      rounds := [r1] + ([r2] + more);
      SilentRound(mac, info, image, charSigned, h1, d, r2, more);
      SilentRound(mac, info, image, charSigned, h, d, r1, [r2] + more);
    }
  }

  /** Every honest run of an upload to the station is sound. */
  ghost predicate AlwaysSound(mac: nat, info: FwInfo, image: seq<u8>, charSigned: bool, h: Host, d: Device) {
    forall rounds | HonestRun(mac, info, image, charSigned, h, d, rounds) ::
      Sound(image, Run(mac, info, image, charSigned, h, rounds), DeviceRun(mac, info, image, charSigned, h, d, rounds))
  }

  /** The tables for which uploads to a station are safe are exactly the shielded ones. */
  lemma SafeExactlyWhenShielded(mac: nat, info: FwInfo, image: seq<u8>, charSigned: bool, stas: seq<Sta>, flash: map<nat, u8>)
    requires 0 < |image| < 0x1_0000_0000
    ensures AlwaysSound(mac, info, image, charSigned, Host(stas, 0, 0, []), Device(flash, {})) <==> Shielded(stas, mac)
  {
    var h, d := Host(stas, 0, 0, []), Device(flash, {});
    if Shielded(stas, mac) {
      forall rounds | HonestRun(mac, info, image, charSigned, h, d, rounds)
        ensures Sound(image, Run(mac, info, image, charSigned, h, rounds), DeviceRun(mac, info, image, charSigned, h, d, rounds))
      {
        RunIsSafe(mac, info, image, charSigned, h, d, rounds);
      }
    } else {
      var j :| Find(stas, mac) < j < |stas| && stas[j].addr == mac && stas[j].nextOff != 0 && !OnlineBefore(stas, mac, j);
      var first := FirstExposed(stas, mac, j);
      var rounds := ExposedIsUnsafe(mac, info, image, charSigned, h, d, first);
      assert HonestRun(mac, info, image, charSigned, h, d, rounds);
    }
  }

  /** A table of 32 entries that is not: the station twice, first offline, then with an offset. */
  function ForeignTable(): (stas: seq<Sta>)
    ensures |stas| == STA_COUNT
  {
    seq(STA_COUNT, i => if i == 0 then Sta(1, 0, 0, 0, false, 0) else if i == 1 then Sta(1, 0, 0, 0, true, 7)
                        else Sta(0, 0, 0, 0, false, 0))
  }

  /** One report of another station makes the tool skip seven bytes that were never sent. */
  lemma ForeignTableSkips(info: FwInfo, image: seq<u8>)
    requires |image| > 7
    ensures !Shielded(ForeignTable(), 1)
    ensures Step(1, info, image, false, Host(ForeignTable(), 0, 0, []), Round(true, [], Some(ScanReport(2, 0, 0, 0)))).off == 7
  {
    var stas := ForeignTable();
    FindIs(stas, 1, 0);
    FindIs(stas, 2, STA_COUNT);
    FirstOfflineIs(stas, 0);
    assert !OnlineBefore(stas, 1, 1);
    assert stas[0 := stas[0]] == stas;
    FindIs(Added(stas, ScanReport(2, 0, 0, 0)), 1, 1);
  }

  // ------------------------------------------------------------------ progress

  /** A network that loses nothing: every packet is stored and acknowledged at once. */
  function Lossless(mac: nat, image: seq<u8>, off: nat, k: nat): seq<Round>
    requires off <= |image|
    decreases |image| - off
  {
    if off == |image| then []
    else
      var n := PieceLength(|image| - off);
      [Round(true, [k], Some(FwDataResponse(mac, 0, Word(off), n)))] + Lossless(mac, image, off + n, k + 1)
  }

  lemma WordSmall(a: nat)
    requires a < 0x1_0000_0000
    ensures Word(a) == a
  {}

  lemma LosslessTurn(mac: nat, info: FwInfo, image: seq<u8>, charSigned: bool, h: Host, r: Round)
    requires |image| < 0x1_0000_0000 && Known(h.stas, mac) && h.off < |image|
    requires r == Round(true, [|h.sent|], Some(FwDataResponse(mac, 0, h.off, PieceLength(|image| - h.off))))
    ensures var h' := Step(mac, info, image, charSigned, h, r);
            && Known(h'.stas, mac) && h'.retry == 0
            && h'.off == h.off + PieceLength(|image| - h.off) && |h'.sent| == |h.sent| + 1
  {
    var n := PieceLength(|image| - h.off);
    var cleared := WithNextOff(h.stas, mac, 0);
    WordSmall(h.off + n);
    SameFind(h.stas, mac, 0);
    SameFind(cleared, mac, h.off + n);
  }

  /** Without loss the device is honest, and the upload ends at the end of the image. */
  lemma {:induction false} LosslessFinishes(mac: nat, info: FwInfo, image: seq<u8>, charSigned: bool, h: Host, d: Device)
    requires |image| < 0x1_0000_0000 && Known(h.stas, mac) && h.off <= |image| && h.retry == 0
    ensures Run(mac, info, image, charSigned, h, Lossless(mac, image, h.off, |h.sent|)).off == |image|
    ensures HonestRun(mac, info, image, charSigned, h, d, Lossless(mac, image, h.off, |h.sent|))
    decreases |image| - h.off
  {
    if h.off < |image| {
      var rounds := Lossless(mac, image, h.off, |h.sent|);
      var h' := Step(mac, info, image, charSigned, h, rounds[0]);
      WordSmall(h.off);
      LosslessTurn(mac, info, image, charSigned, h, rounds[0]);
      assert rounds[1..] == Lossless(mac, image, h'.off, |h'.sent|);
      var d' := Stores(d, h'.sent, rounds[0].stores);
      StoredNow(d, h'.sent, |h.sent|);
      assert Acknowledges(h'.sent, d'.stored, rounds[0].received.value, |h.sent|);
      LosslessFinishes(mac, info, image, charSigned, h', d');
    }
  }

  lemma StoredNow(d: Device, sent: seq<Packet>, k: nat)
    requires k < |sent|
    ensures k in Stores(d, sent, [k]).stored
  {
    assert [k][1..] == [];
  }

  /** Packets only of stations the table does not know. */
  predicate NoReportOf(mac: nat, rounds: seq<Round>) {
    forall i | 0 <= i < |rounds| && rounds[i].received.Some? && rounds[i].received.value.ScanReport? ::
      rounds[i].received.value.src != mac
  }

  /** An upload to a station the table does not know never gets past the first piece, whatever
      the station answers. */
  lemma {:induction false} UnknownStaysAtZero(mac: nat, info: FwInfo, image: seq<u8>, charSigned: bool, h: Host, rounds: seq<Round>)
    requires !Known(h.stas, mac) && h.off == 0 && NoReportOf(mac, rounds)
    ensures Run(mac, info, image, charSigned, h, rounds).off == 0
    decreases |rounds|
  {
    if rounds != [] && Going(image, h) {
      var h' := Step(mac, info, image, charSigned, h, rounds[0]);
      assert !Known(h'.stas, mac) by {
        if rounds[0].received.Some? { StaysUnknown(h.stas, rounds[0].received.value, mac); }
      }
      UnknownStaysAtZero(mac, info, image, charSigned, h', rounds[1..]);
    }
  }

  lemma StaysUnknown(stas: seq<Sta>, rx: Rx, mac: nat)
    requires !Known(stas, mac) && (rx.ScanReport? ==> rx.src != mac)
    ensures !Known(Received(stas, rx), mac)
  {}
}

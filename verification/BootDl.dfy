/** Downloading the firmware through the chip's boot loader (utils/fwdl.c), in the check mode
    both buses select, where every check byte is 0xFD. */
module BootDl {
  import opened Basics
  import opened Machine
  import opened Firmware

  const STATE_FW := 0
  const STATE_BOOT := 1
  const IN_FIRMWARE := 0xFF
  const BAD_PACKET := 2
  const CHECK: u8 := 0xFD

  /** The configurations the buses give the loader. */
  datatype Bus = Sdio | SdioOverSpi | Usb

  function FragSize(bus: Bus): nat {
    match bus
    case Sdio => 32704
    case SdioOverSpi => 4096
    case Usb => 2048
  }

  const BLOCK := 64

  /** A length rounded up to whole blocks. */
  function Align(n: nat): nat {
    if n == 0 then 0 else if n <= BLOCK then BLOCK else BLOCK + Align(n - BLOCK)
  }

  lemma {:induction false} AlignIsRounding(n: nat)
    ensures Align(n) == (n + BLOCK - 1) / BLOCK * BLOCK
  {
    if n > BLOCK { AlignIsRounding(n - BLOCK); }
  }

  /** What goes to the device, and what comes back. */
  datatype Frame =
    | Enter
    | Write(addr: u32, len: nat)
    | Data(bytes: seq<u8>)
    | Run(addr: u32, word: nat)

  datatype Reply = NoReply | Reply(check: u8, cmd: u8, rsp: u8)

  function Command(f: Frame): u8 {
    match f
    case Enter => 0
    case Write(_, _) => 2
    case Run(_, _) => 4
    case Data(_) => 0
  }

  /** The result of one exchange: a command's reply must carry the check byte and the command, a
      data block's reply only counts by its response code. */
  function Result(f: Frame, reply: Reply): int {
    match reply
    case NoReply => if f.Data? then -EFAULT else -1
    case Reply(check, cmd, rsp) =>
      if !f.Data? && (check != CHECK || cmd != Command(f)) then BAD_PACKET
      else rsp as int
  }

  /** Which answers acknowledge a frame: to a command, its check byte and number with code 0; to a data
      block, code 0. */
  lemma AcknowledgedExactly(f: Frame, reply: Reply)
    ensures Result(f, reply) == 0 <==>
              match f
              case Enter => reply == Reply(0xFD, 0, 0)
              case Write(_, _) => reply == Reply(0xFD, 2, 0)
              case Run(_, _) => reply == Reply(0xFD, 4, 0)
              case Data(_) => reply.Reply? && reply.rsp == 0
    ensures reply.NoReply? ==> Result(f, reply) < 0
    ensures reply.Reply? ==> Result(f, reply) == reply.rsp as int || (Result(f, reply) == 2 && !f.Data?)
  {}

  // ------------------------------------------------------------------ entering

  function EnterState(ret: int): int {
    if ret == 0 then STATE_BOOT else if ret == IN_FIRMWARE then STATE_FW else ret
  }

  /** What asking the loader to come in ends with. */
  function EnterResult(memory: bool, reply: Reply): int {
    if memory then EnterState(Result(Enter, reply)) else -ENOMEM
  }

  method CmdEnter(memory: bool, reply: Reply) returns (state: int)
    ensures state == EnterResult(memory, reply)
  {
    if !memory { return -ENOMEM; }
    state := Result(Enter, reply);
    if state == 0 || state == IN_FIRMWARE {
      if state == IN_FIRMWARE { state := STATE_FW; } else { state := STATE_BOOT; }
    }
  }

  /** Only the answer 0xFF to the command means running firmware; a device in its loader answers 0,
      and one that reports error 1 looks the same. */
  lemma EnterMeans(memory: bool, reply: Reply)
    ensures EnterResult(memory, reply) == STATE_FW <==> memory && reply == Reply(CHECK, 0, 0xFF)
    ensures EnterResult(memory, reply) == STATE_BOOT <==> memory && (reply == Reply(CHECK, 0, 0) || reply == Reply(CHECK, 0, 1))
    ensures EnterResult(memory, reply) < 0 <==> !memory || reply == NoReply
    ensures -0x100 < EnterResult(memory, reply) < 0x100
  {}

  // ------------------------------------------------------------------ fragments

  method FragmentProc(bus: Bus, copyLen: nat) returns (xferLen: nat)
    requires copyLen > 0
    ensures xferLen == FragmentLen(bus, copyLen) && xferLen > 0
  {
    FragmentBounds(bus, copyLen);
    if bus != Usb {
      AlignIsRounding(copyLen);
      if copyLen < FragSize(bus) { xferLen := (copyLen + BLOCK - 1) / BLOCK * BLOCK; } else { xferLen := FragSize(bus); }
    } else {
      xferLen := if copyLen > FragSize(bus) then FragSize(bus) else copyLen;
    }
  }

  function FragmentLen(bus: Bus, copyLen: nat): nat {
    if copyLen >= FragSize(bus) then FragSize(bus)
    else if bus == Usb then copyLen else Align(copyLen)
  }

  lemma AlignBounds(n: nat)
    ensures n <= Align(n) < n + BLOCK && Align(n) % BLOCK == 0
  {
    AlignIsRounding(n);
  }

  /** A fragment makes progress, is no longer than the bus allows, overshoots the image by less
      than a block and only on SDIO, and only when it is the last; on SDIO it is whole blocks. */
  lemma FragmentBounds(bus: Bus, left: nat)
    requires left > 0
    ensures 0 < FragmentLen(bus, left) <= FragSize(bus)
    ensures FragmentLen(bus, left) < left + (if bus == Usb then 1 else BLOCK)
    ensures FragmentLen(bus, left) >= left || FragmentLen(bus, left) == FragSize(bus)
    ensures FragSize(bus) == if bus == Sdio then 32704 else if bus == Usb then 2048 else 4096
    ensures bus != Usb ==> FragmentLen(bus, left) % BLOCK == 0
  {
    AlignBounds(left);
    if bus != Usb && left < FragSize(bus) { AlignMonotone(left, FragSize(bus)); }
  }

  lemma AlignMonotone(n: nat, m: nat)
    requires n <= m && m % BLOCK == 0
    ensures Align(n) <= m
  {
    AlignIsRounding(n);
  }

  /** How far the fragments of left bytes reach: on SDIO, to the end of the last block. */
  function Reach(bus: Bus, left: int): nat {
    if left <= 0 then 0 else if bus == Usb then left else Align(left)
  }

  lemma ReachStep(bus: Bus, left: nat)
    requires left > 0
    ensures var n := FragmentLen(bus, left);
            Reach(bus, left) == n + Reach(bus, left - n) && left <= Reach(bus, left) < left + BLOCK
  {
    AlignBounds(left);
    if bus != Usb && left >= FragSize(bus) { AlignMinus(left, FragSize(bus)); }
  }

  lemma AlignMinus(n: nat, m: nat)
    requires n >= m && m % BLOCK == 0
    ensures Align(n) == m + Align(n - m)
  {
    AlignIsRounding(n);
    AlignIsRounding(n - m);
  }

  /** The fragment lengths for left bytes. */
  function Cut(bus: Bus, left: int): seq<nat>
    decreases if left > 0 then left else 0
  {
    if left <= 0 then []
    else
      FragmentBounds(bus, left);
      [FragmentLen(bus, left)] + Cut(bus, left - FragmentLen(bus, left))
  }

  function Sum(ns: seq<nat>): nat {
    if ns == [] then 0 else ns[0] + Sum(ns[1..])
  }

  /** Every fragment has at least a byte and at most what the bus allows; on SDIO it is whole
      blocks. */
  predicate GoodCut(bus: Bus, ns: seq<nat>) {
    forall i | 0 <= i < |ns| :: 0 < ns[i] <= FragSize(bus) && (bus != Usb ==> ns[i] % BLOCK == 0)
  }

  lemma {:induction false} CutReaches(bus: Bus, left: int)
    ensures Sum(Cut(bus, left)) == Reach(bus, left) && GoodCut(bus, Cut(bus, left))
    ensures left > 0 ==> left <= Reach(bus, left) < left + (if bus == Usb then 1 else BLOCK)
    decreases if left > 0 then left else 0
  {
    if left > 0 {
      FragmentBounds(bus, left);
      ReachStep(bus, left);
      CutReaches(bus, left - FragmentLen(bus, left));
    }
  }

  // ------------------------------------------------------------------ the run word

  const AES_FLAG := 0x8000_0000
  const CRC_FLAG := 0x4000_0000
  const SP_FLAG := 0x2000_0000

  method RunWord(fwLen: u32, aes: bool, crc: bool, sp: bool) returns (word: nat)
    ensures word == RunWordOf(fwLen, aes, crc, sp)
  {
    word := fwLen;
    if aes { word := Or(word, AES_FLAG); }
    if crc { word := Or(word, CRC_FLAG); }
    if sp { word := Or(word, SP_FLAG); }
  }

  function RunWordOf(fwLen: nat, aes: bool, crc: bool, sp: bool): nat {
    var a := if aes then Or(fwLen, AES_FLAG) else fwLen;
    var b := if crc then Or(a, CRC_FLAG) else a;
    if sp then Or(b, SP_FLAG) else b
  }

  /** The word the boot loader takes apart: 29 bits of length under three flags. */
  predicate RunWordDecodes(word: nat, fwLen: nat, aes: bool, crc: bool, sp: bool) {
    && word % 0x2000_0000 == fwLen
    && (word / 0x8000_0000 % 2 == 1) == aes
    && (word / 0x4000_0000 % 2 == 1) == crc
    && (word / 0x2000_0000 % 2 == 1) == sp
  }

  /** Length and flags come back from the run word exactly for images below 512 MB. */
  lemma RunWordRoundTrip(fwLen: u32, aes: bool, crc: bool, sp: bool)
    ensures RunWordDecodes(RunWordOf(fwLen, aes, crc, sp), fwLen, aes, crc, sp) <==> fwLen < SP_FLAG
  {
    if fwLen < SP_FLAG {
      RunWordIsSum(fwLen, aes, crc, sp);
      FlagsDecode(fwLen, aes, crc, sp, RunWordOf(fwLen, aes, crc, sp));
    }
  }

  function If(c: bool, flag: nat): nat {
    if c then flag else 0
  }

  lemma RunWordIsSum(fwLen: nat, aes: bool, crc: bool, sp: bool)
    requires fwLen < SP_FLAG
    ensures RunWordOf(fwLen, aes, crc, sp) == fwLen + If(aes, AES_FLAG) + If(crc, CRC_FLAG) + If(sp, SP_FLAG)
  {
    FlagRooms(fwLen, If(aes, AES_FLAG), If(crc, CRC_FLAG));
    PowerThirty();
    OrFlag(fwLen, 31, AES_FLAG);
    OrFlag(fwLen + If(aes, AES_FLAG), 30, CRC_FLAG);
    OrFlag(fwLen + If(aes, AES_FLAG) + If(crc, CRC_FLAG), 29, SP_FLAG);
  }

  lemma PowerThirty()
    ensures Pow2(29) == SP_FLAG && Pow2(30) == CRC_FLAG && Pow2(31) == AES_FLAG
  {
    PowerValues();
    PowAdd(29, 1);
  }

  lemma FlagRooms(fwLen: nat, a: nat, b: nat)
    requires fwLen < SP_FLAG && (a == 0 || a == AES_FLAG) && (b == 0 || b == CRC_FLAG)
    ensures fwLen / AES_FLAG % 2 == 0 && (fwLen + a) / CRC_FLAG % 2 == 0 && (fwLen + a + b) / SP_FLAG % 2 == 0
  {}

  lemma FlagsDecode(fwLen: nat, aes: bool, crc: bool, sp: bool, c: nat)
    requires fwLen < SP_FLAG
    requires c == fwLen + If(aes, AES_FLAG) + If(crc, CRC_FLAG) + If(sp, SP_FLAG)
    ensures RunWordDecodes(c, fwLen, aes, crc, sp)
  {}

  lemma OrFlag(a: nat, n: nat, flag: nat)
    requires flag == Pow2(n) && a / flag % 2 == 0
    ensures Or(a, flag) == a + flag
  {
    UpIsProduct(1, n);
    DownIsDiv(a, n);
    DivIs(a, Down(a, n), Low(a, n), flag);
    OrBit(a, n);
  }

  lemma {:induction false} OrBit(a: nat, n: nat)
    requires Down(a, n) % 2 == 0
    ensures Or(a, Up(1, n)) == a + Up(1, n)
  {
    if n == 0 {
      OrZero(a / 2);
    } else {
      OrBit(a / 2, n - 1);
      assert Up(1, n) == 2 * Up(1, n - 1) && Up(1, n - 1) > 0 by { UpIsProduct(1, n - 1); }
    }
  }

  // ------------------------------------------------------------------ downloading

  /** The address n past base: 32-bit arithmetic, a byte at a time. */
  function Cell(base: u32, n: nat): u32
    decreases n
  {
    if n == 0 then base else Cell(if base == 0xFFFF_FFFF then 0 else base + 1, n - 1)
  }

  lemma {:induction false} CellIsWord(base: u32, n: nat)
    ensures Cell(base, n) == Word(base + n)
    decreases n
  {
    if n > 0 {
      var next := if base == 0xFFFF_FFFF then 0 else base + 1;
      CellIsWord(next, n - 1);
      WordWraps(base, next, n);
    }
  }

  lemma WordWraps(base: nat, next: nat, n: nat)
    requires n > 0 && (next == base + 1 || next == base + 1 - 0x1_0000_0000)
    ensures Word(next + (n - 1)) == Word(base + n)
  {}

  function Announced(bus: Bus, n: nat): nat {
    if bus == Usb then n + 1024 else n
  }

  /** What is sent for fragments of lengths ns at offset off of the memory the image lies in, to
      be stored from addr on, ending with the run command. */
  function Plan(bus: Bus, addr: u32, source: seq<u8>, off: nat, ns: seq<nat>, run: Frame): (plan: seq<Frame>)
    requires off + Sum(ns) <= |source|
    ensures |plan| == 2 * |ns| + 1
    decreases |ns|
  {
    if ns == [] then [run]
    else
      [Write(addr, Announced(bus, ns[0])), Data(source[off..off + ns[0]])]
      + Plan(bus, Cell(addr, ns[0]), source, off + ns[0], ns[1..], run)
  }

  function CodeLength(image: Image): int {
    |image.data| - image.header.codeOffset
  }

  function RunFrame(image: Image): Frame {
    Run(image.header.writeAddr, RunWordOf(CodeLength(image) % 0x1_0000_0000, image.header.aesEnabled, image.header.crcEnabled, true))
  }

  /** All the frames for an image that lies in memory before the bytes beyond. */
  function FullPlan(bus: Bus, image: Image, beyond: seq<u8>): seq<Frame>
    requires |beyond| >= BLOCK
  {
    var left := CodeLength(image);
    CutReaches(bus, left);
    Plan(bus, image.header.writeAddr, image.data + beyond, if left > 0 then image.header.codeOffset else 0, Cut(bus, left),
         RunFrame(image))
  }

  /** The position of the first frame that is not answered with success. */
  function FirstFailure(plan: seq<Frame>, reply: nat -> Reply, i: nat): (k: nat)
    requires i <= |plan|
    ensures i <= k <= |plan| && forall j | i <= j < k :: Result(plan[j], reply(j)) == 0
    ensures k < |plan| ==> Result(plan[k], reply(k)) != 0
    decreases |plan| - i
  {
    if i == |plan| || Result(plan[i], reply(i)) != 0 then i else FirstFailure(plan, reply, i + 1)
  }

  lemma {:induction false} FailsFirstAt(plan: seq<Frame>, reply: nat -> Reply, i: nat, k: nat)
    requires i <= k && AllGood(plan, reply, k)
    requires k < |plan| ==> Result(plan[k], reply(k)) != 0
    ensures FirstFailure(plan, reply, i) == k
    decreases k - i
  {
    if i < k { FailsFirstAt(plan, reply, i + 1, k); }
  }

  /** How many frames memory buffers are enough for: a fragment takes two at once. */
  function Affordable(frames: nat, memory: nat): nat {
    if memory >= frames then frames else memory / 2 * 2
  }

  /** What sending a plan comes to: it stops at the first frame that is not answered with success
      or that memory is short for. */
  predicate Outcome(plan: seq<Frame>, memory: nat, reply: nat -> Reply, ret: int, sent: seq<Frame>) {
    var k := FirstFailure(plan, reply, 0);
    var m := Affordable(|plan|, memory);
    if k < m then ret == Result(plan[k], reply(k)) && sent == plan[..k + 1]
    else if m < |plan| then ret == -ENOMEM && sent == plan[..m]
    else ret == 0 && sent == plan
  }

  /** It ends with 0 exactly if all of it was sent and each frame answered with success; in any case what
      was sent is the beginning of it, and all but its last frame were answered with success; an error
      is the one of the last frame, or that memory was short. */
  lemma OutcomeMeans(plan: seq<Frame>, memory: nat, reply: nat -> Reply, ret: int, sent: seq<Frame>)
    requires Outcome(plan, memory, reply, ret, sent) && |plan| % 2 == 1
    ensures ret == 0 <==> sent == plan && forall j | 0 <= j < |plan| :: Result(plan[j], reply(j)) == 0
    ensures sent <= plan && |sent| <= memory && forall j | 0 <= j < |sent| - 1 :: Result(plan[j], reply(j)) == 0
    ensures ret != 0 ==> (sent != [] && ret == Result(plan[|sent| - 1], reply(|sent| - 1))) || (ret == -12 && |sent| < |plan|)
  {}

  /** Loads an image. reply(i) is the answer to the i-th frame; sent records what was handed to
      the device. */
  method Download(bus: Bus, request: int, image: Image, beyond: seq<u8>, memory: nat, reply: nat -> Reply)
    returns (ret: int, sent: seq<Frame>)
    requires Loadable(image) && |beyond| >= BLOCK
    ensures if request != 0 then ret == request && sent == []
            else if CheckHeader(image.header) != 0 then ret == CheckHeader(image.header) && sent == []
            else Outcome(FullPlan(bus, image, beyond), memory, reply, ret, sent)
  {
    if request != 0 { return request, []; }
    ret := CheckHeader(image.header);
    if ret != 0 { return ret, []; }
    var h := image.header;
    var fwLen := CodeLength(image) % 0x1_0000_0000;
    var word := RunWord(fwLen, h.aesEnabled, h.crcEnabled, true);
    CutReaches(bus, CodeLength(image));
    ret, sent := SendImage(bus, h.writeAddr, image.data + beyond, if CodeLength(image) > 0 then h.codeOffset else 0, CodeLength(image),
                           Run(h.writeAddr, word), memory, reply);
  }

  /** The download loop and the run command at its end. */
  method SendImage(bus: Bus, addr: u32, source: seq<u8>, start: nat, length: int, run: Frame, memory: nat, reply: nat -> Reply)
    returns (ret: int, sent: seq<Frame>)
    requires start + Sum(Cut(bus, length)) <= |source|
    ensures Outcome(Plan(bus, addr, source, start, Cut(bus, length), run), memory, reply, ret, sent)
  {
    sent := [];
    var copyLen, writeAddr := length, addr;
    var offset: nat := start;
    ghost var ns := Cut(bus, length);
    ghost var plan := Plan(bus, addr, source, start, ns, run);
    assert [] + plan == plan;
    while copyLen > 0
      invariant Stage(bus, writeAddr, source, offset, copyLen, ns, run, plan, sent)
      invariant Progress(plan, reply, sent, memory)
      decreases copyLen
    {
      ret, sent, writeAddr, offset, copyLen, ns :=
        SendNext(bus, writeAddr, source, offset, copyLen, run, memory, reply, sent, ns, plan);
      if ret != 0 { return; }
    }
    ret, sent := SendRun(run, memory, reply, sent, plan);
  }

  /** Sends the next fragment of the image, and counts address, offset and the bytes left on. */
  method SendNext(bus: Bus, addr: u32, source: seq<u8>, off: nat, left: int, ghost run: Frame, memory: nat,
                  reply: nat -> Reply, before: seq<Frame>, ghost ns: seq<nat>, ghost plan: seq<Frame>)
    returns (ret: int, sent: seq<Frame>, next: u32, behind: nat, less: int, ghost more: seq<nat>)
    requires left > 0
    requires Stage(bus, addr, source, off, left, ns, run, plan, before) && Progress(plan, reply, before, memory)
    ensures ret != 0 ==> Outcome(plan, memory, reply, ret, sent)
    ensures ret == 0 ==> Stage(bus, next, source, behind, less, more, run, plan, sent)
    ensures ret == 0 ==> Progress(plan, reply, sent, memory)
    ensures less < left
  {
    var xferLen := FragmentProc(bus, left);
    more := CutNext(bus, left, ns);
    next := NextAddr(addr, xferLen);
    behind, less := off + xferLen, left - xferLen;
    ghost var todo := Plan(bus, next, source, behind, more, run);
    ret, sent := SendFragment(bus, addr, source[off..behind], memory, reply, before, plan, todo);
  }

  /** Ends the download with the run command. */
  method SendRun(run: Frame, memory: nat, reply: nat -> Reply, before: seq<Frame>, ghost plan: seq<Frame>)
    returns (ret: int, sent: seq<Frame>)
    requires plan == before + [run] && Progress(plan, reply, before, memory)
    ensures Outcome(plan, memory, reply, ret, sent)
  {
    if memory < |before| + 1 {
      StopsShort(plan, memory, reply, before);
      return -ENOMEM, before;
    }
    RunEnds(plan, memory, reply, before, run);
    ret := Result(run, reply(|before|));
    sent := before + [run];
  }

  /** The fragments ns of the rest of the code are what is left of the plan. */
  predicate Stage(bus: Bus, addr: u32, source: seq<u8>, off: nat, left: int, ns: seq<nat>, run: Frame, plan: seq<Frame>, sent: seq<Frame>) {
    && ns == Cut(bus, left) && off + Sum(ns) <= |source|
    && plan == sent + Plan(bus, addr, source, off, ns, run)
  }

  /** Everything sent so far was answered with success, and is whole fragments. */
  predicate Progress(plan: seq<Frame>, reply: nat -> Reply, sent: seq<Frame>, memory: nat) {
    |sent| % 2 == 0 && |sent| <= memory && AllGood(plan, reply, |sent|)
  }

  /** The 32-bit sum. */
  method NextAddr(addr: u32, n: nat) returns (next: u32)
    ensures next == Cell(addr, n)
  {
    CellIsWord(addr, n);
    next := Word(addr + n);
  }

  lemma RunEnds(plan: seq<Frame>, memory: nat, reply: nat -> Reply, sent: seq<Frame>, run: Frame)
    requires plan == sent + [run] && |sent| % 2 == 0 && |sent| < memory && AllGood(plan, reply, |sent|)
    ensures Outcome(plan, memory, reply, Result(run, reply(|sent|)), sent + [run])
  {
    if Result(run, reply(|sent|)) != 0 {
      StopsAt(plan, memory, reply, |sent|, |sent|);
    } else {
      FailsFirstAt(plan, reply, 0, |plan|);
    }
  }

  lemma StopsShort(plan: seq<Frame>, memory: nat, reply: nat -> Reply, sent: seq<Frame>)
    requires |plan| % 2 == 1 && |sent| % 2 == 0 && |sent| < |plan| && sent == plan[..|sent|]
    requires AllGood(plan, reply, |sent|)
    requires |sent| <= memory < |sent| + (if |sent| + 1 == |plan| then 1 else 2)
    ensures Outcome(plan, memory, reply, -ENOMEM, sent)
  {
    FailsAfter(plan, reply, |sent|);
  }

  lemma TwoGood(plan: seq<Frame>, reply: nat -> Reply, k: nat)
    requires k + 1 < |plan| && AllGood(plan, reply, k)
    requires Result(plan[k], reply(k)) == 0 && Result(plan[k + 1], reply(k + 1)) == 0
    ensures AllGood(plan, reply, k + 2)
  {}

  lemma StopsInFragment(plan: seq<Frame>, memory: nat, reply: nat -> Reply, k: nat)
    requires k + 2 < |plan| && AllGood(plan, reply, k) && |plan| % 2 == 1 && k % 2 == 0 && k + 2 <= memory
    requires Result(plan[k], reply(k)) != 0 || Result(plan[k + 1], reply(k + 1)) != 0
    ensures Result(plan[k], reply(k)) != 0 ==> Outcome(plan, memory, reply, Result(plan[k], reply(k)), plan[..k + 1])
    ensures Result(plan[k], reply(k)) == 0 ==> Outcome(plan, memory, reply, Result(plan[k + 1], reply(k + 1)), plan[..k + 2])
  {
    StopsAt(plan, memory, reply, if Result(plan[k], reply(k)) != 0 then k else k + 1, k);
  }

  lemma StopsAt(plan: seq<Frame>, memory: nat, reply: nat -> Reply, k: nat, base: nat)
    requires k < |plan| && AllGood(plan, reply, k) && Result(plan[k], reply(k)) != 0
    requires |plan| % 2 == 1 && base % 2 == 0 && base <= k <= base + 1
    requires if base + 1 == |plan| then base + 1 <= memory else base + 2 <= memory
    ensures Outcome(plan, memory, reply, Result(plan[k], reply(k)), plan[..k + 1])
  {
    FailsFirstAt(plan, reply, 0, k);
  }

  lemma CutNext(bus: Bus, left: nat, ns: seq<nat>) returns (more: seq<nat>)
    requires left > 0 && ns == Cut(bus, left)
    ensures FragmentLen(bus, left) <= Sum(ns) && more == Cut(bus, left - FragmentLen(bus, left))
    ensures ns == [FragmentLen(bus, left)] + more
  {
    more := ns[1..];
  }

  /** Sends the next fragment of the plan: the write command, and the data if that was accepted. */
  method SendFragment(bus: Bus, addr: u32, payload: seq<u8>, memory: nat, reply: nat -> Reply, before: seq<Frame>,
                      ghost plan: seq<Frame>, ghost rest: seq<Frame>)
    returns (ret: int, sent: seq<Frame>)
    requires plan == before + ([Write(addr, Announced(bus, |payload|)), Data(payload)] + rest)
    requires |plan| % 2 == 1 && Progress(plan, reply, before, memory)
    ensures ret != 0 ==> Outcome(plan, memory, reply, ret, sent)
    ensures ret == 0 ==> plan == sent + rest && Progress(plan, reply, sent, memory)
  {
    var write := Write(addr, Announced(bus, |payload|));
    PlanStep(bus, plan, before, addr, payload, rest);
    sent := before;
    if memory < |sent| + 2 {
      StopsShort(plan, memory, reply, before);
      return -ENOMEM, sent;
    }
    ret := Result(write, reply(|sent|));
    sent := before + [write];
    if ret != 0 {
      StopsInFragment(plan, memory, reply, |before|);
      return;
    }
    ret := Result(Data(payload), reply(|sent|));
    sent := before + [write, Data(payload)];
    if ret != 0 {
      StopsInFragment(plan, memory, reply, |before|);
    } else {
      TwoGood(plan, reply, |before|);
    }
  }

  predicate AllGood(plan: seq<Frame>, reply: nat -> Reply, k: nat) {
    k <= |plan| && forall j | 0 <= j < k :: Result(plan[j], reply(j)) == 0
  }

  lemma FailsAfter(plan: seq<Frame>, reply: nat -> Reply, k: nat)
    requires AllGood(plan, reply, k)
    ensures FirstFailure(plan, reply, 0) >= k
  {
    if FirstFailure(plan, reply, 0) < k { assert false; }
  }

  lemma PlanStep(bus: Bus, plan: seq<Frame>, sent: seq<Frame>, addr: u32, payload: seq<u8>, rest: seq<Frame>)
    requires var write := Write(addr, Announced(bus, |payload|)); plan == sent + ([write, Data(payload)] + rest)
    ensures var write := Write(addr, Announced(bus, |payload|));
            && plan == (sent + [write, Data(payload)]) + rest
            && plan[|sent|] == write && plan[|sent| + 1] == Data(payload)
            && sent + [write] == plan[..|sent| + 1] && sent + [write, Data(payload)] == plan[..|sent| + 2]
  {}

  // ------------------------------------------------------------------ what the device ends up with

  /** A boot loader: its memory, and where the next data block goes. */
  datatype Loader = Loader(memory: map<u32, u8>, next: u32)

  /** One frame the loader acknowledged. */
  function Obey(d: Loader, f: Frame): Loader {
    match f
    case Write(addr, _) => d.(next := addr)
    case Data(bytes) => d.(memory := StoreBytes(d.memory, d.next, bytes))
    case _ => d
  }

  function StoreBytes(memory: map<u32, u8>, addr: u32, bytes: seq<u8>): map<u32, u8>
    decreases |bytes|
  {
    if bytes == [] then memory else StoreBytes(memory[addr := bytes[0]], Cell(addr, 1), bytes[1..])
  }

  function ObeyAll(d: Loader, frames: seq<Frame>): Loader
    decreases |frames|
  {
    if frames == [] then d else ObeyAll(Obey(d, frames[0]), frames[1..])
  }

  lemma {:induction false} CellNext(base: u32, i: nat, n: nat)
    ensures Cell(Cell(base, i), n) == Cell(base, i + n)
    decreases i
  {
    if i > 0 { CellNext(Cell(base, 1), i - 1, n); }
  }

  /** How far address a lies past base, in 32-bit arithmetic. */
  function Distance(base: u32, a: u32): nat {
    (a - base) % 0x1_0000_0000
  }

  lemma CellDistance(base: u32, i: nat)
    requires i < 0x1_0000_0000
    ensures Distance(base, Cell(base, i)) == i
  {
    CellIsWord(base, i);
    WordDistance(base, i);
  }

  lemma WordDistance(base: u32, i: nat)
    requires i < 0x1_0000_0000
    ensures (Word(base + i) - base) % 0x1_0000_0000 == i
  {
    assert base + i < 0x1_0000_0000 || Word(base + i) == base + i - 0x1_0000_0000;
  }

  /** The memory holds the first n bytes of data from base on. */
  predicate Holds(memory: map<u32, u8>, base: u32, data: seq<u8>, n: nat) {
    n <= |data| && forall i | 0 <= i < n :: Cell(base, i) in memory && memory[Cell(base, i)] == data[i]
  }

  /** Nothing outside the n cells from base on has changed. */
  predicate OnlyCells(before: map<u32, u8>, after: map<u32, u8>, base: u32, n: nat) {
    forall a: u32 :: Distance(base, a) >= n ==> (a in before) == (a in after) && (a in before ==> before[a] == after[a])
  }

  lemma {:induction false} StoreBytesHolds(memory: map<u32, u8>, base: u32, data: seq<u8>, off: nat)
    requires off <= |data| < 0x1_0000_0000
    requires Holds(memory, base, data, off)
    ensures Holds(StoreBytes(memory, Cell(base, off), data[off..]), base, data, |data|)
    decreases |data| - off
  {
    if off < |data| {
      var memory' := memory[Cell(base, off) := data[off]];
      CellDistance(base, off);
      forall i | 0 <= i < off ensures Cell(base, i) != Cell(base, off) { CellDistance(base, i); }
      CellNext(base, off, 1);
      StoreBytesHolds(memory', base, data, off + 1);
    }
  }

  lemma {:induction false} StoreBytesOnly(memory: map<u32, u8>, base: u32, off: nat, data: seq<u8>)
    requires off + |data| < 0x1_0000_0000
    ensures OnlyCells(memory, StoreBytes(memory, Cell(base, off), data), base, off + |data|)
    decreases |data|
  {
    if data != [] {
      CellDistance(base, off);
      CellNext(base, off, 1);
      StoreBytesOnly(memory[Cell(base, off) := data[0]], base, off + 1, data[1..]);
    }
  }

  /** A plan carries bytes to addr: every write command announces the data that follows it, at the
      address where the fragment before ended; fragments keep to what the bus allows, and one
      after the other they are bytes. */
  predicate Carries(bus: Bus, plan: seq<Frame>, addr: u32, bytes: seq<u8>)
    decreases |plan|
  {
    if |plan| <= 1 then |plan| == 1 && plan[0].Run? && bytes == []
    else
      && plan[1].Data?
      && var n := |plan[1].bytes|;
      && 0 < n <= (if bus == Sdio then 32704 else if bus == Usb then 2048 else 4096) && (bus != Usb ==> n % 64 == 0)
      && plan[0] == Write(addr, if bus == Usb then n + 1024 else n)
      && n <= |bytes| && plan[1].bytes == bytes[..n]
      && Carries(bus, plan[2..], Cell(addr, n), bytes[n..])
  }

  lemma {:induction false} PlanCarries(bus: Bus, addr: u32, source: seq<u8>, off: nat, ns: seq<nat>, run: Frame, bytes: seq<u8>)
    requires off + Sum(ns) <= |source| && run.Run? && GoodCut(bus, ns)
    requires bytes == source[off..off + Sum(ns)]
    ensures Carries(bus, Plan(bus, addr, source, off, ns, run), addr, bytes)
    decreases |ns|
  {
    if ns != [] {
      var n := ns[0];
      var rest := Plan(bus, Cell(addr, n), source, off + n, ns[1..], run);
      GoodTail(bus, ns);
      SliceSplit(source, off, n, Sum(ns[1..]));
      PlanCarries(bus, Cell(addr, n), source, off + n, ns[1..], run, bytes[n..]);
      assert Plan(bus, addr, source, off, ns, run) == [Write(addr, Announced(bus, n)), Data(bytes[..n])] + rest;
      CarriesMore(bus, addr, bytes, n, rest);
    }
  }

  lemma SliceSplit(s: seq<u8>, off: nat, n: nat, m: nat)
    requires off + n + m <= |s|
    ensures s[off..off + n + m][..n] == s[off..off + n] && s[off..off + n + m][n..] == s[off + n..off + n + m]
  {}

  lemma GoodTail(bus: Bus, ns: seq<nat>)
    requires GoodCut(bus, ns) && ns != []
    ensures 0 < ns[0] <= FragSize(bus) && (bus != Usb ==> ns[0] % BLOCK == 0) && GoodCut(bus, ns[1..])
  {}

  lemma CarriesMore(bus: Bus, addr: u32, bytes: seq<u8>, n: nat, rest: seq<Frame>)
    requires 0 < n <= |bytes| && n <= FragSize(bus) && (bus != Usb ==> n % BLOCK == 0)
    requires Carries(bus, rest, Cell(addr, n), bytes[n..])
    ensures Carries(bus, [Write(addr, Announced(bus, n)), Data(bytes[..n])] + rest, addr, bytes)
  {
    var plan := [Write(addr, Announced(bus, n)), Data(bytes[..n])] + rest;
    assert plan[2..] == rest;
  }

  /** Obeying such a plan stores the bytes. */
  lemma {:induction false} ObeyingPlan(bus: Bus, d: Loader, plan: seq<Frame>, addr: u32, bytes: seq<u8>)
    requires Carries(bus, plan, addr, bytes)
    ensures ObeyAll(d, plan).memory == StoreBytes(d.memory, addr, bytes)
    decreases |plan|
  {
    if |plan| > 1 {
      var n := |plan[1].bytes|;
      ObeyTwo(d, plan[0], plan[1], plan[2..]);
      assert [plan[0], plan[1]] + plan[2..] == plan;
      ObeyingPlan(bus, Obey(Obey(d, plan[0]), plan[1]), plan[2..], Cell(addr, n), bytes[n..]);
      StoreConcat(d.memory, addr, bytes[..n], bytes[n..]);
      assert bytes[..n] + bytes[n..] == bytes;
    } else {
      assert ObeyAll(d, plan) == ObeyAll(Obey(d, plan[0]), []);
    }
  }

  lemma {:induction false} StoreConcat(memory: map<u32, u8>, addr: u32, x: seq<u8>, y: seq<u8>)
    ensures StoreBytes(memory, addr, x + y) == StoreBytes(StoreBytes(memory, addr, x), Cell(addr, |x|), y)
    decreases |x|
  {
    if x == [] {
      assert x + y == y;
    } else {
      assert (x + y)[1..] == x[1..] + y;
      CellNext(addr, 1, |x| - 1);
      StoreConcat(memory[addr := x[0]], Cell(addr, 1), x[1..], y);
    }
  }

  lemma ObeyTwo(d: Loader, a: Frame, b: Frame, rest: seq<Frame>)
    ensures ObeyAll(d, [a, b] + rest) == ObeyAll(Obey(Obey(d, a), b), rest)
  {
    assert ([a, b] + rest)[1..] == [b] + rest;
  }

  /** When the download succeeds, every frame was acknowledged, and the loader holds the code at
      the write address. Of the memory after it, less than one block was written, and only on
      SDIO. */
  lemma DownloadStoresCode(bus: Bus, image: Image, beyond: seq<u8>, d: Loader)
    requires Loadable(image) && HasCode(image) && BLOCK <= |beyond| < 0x8000_0000
    ensures var after := ObeyAll(d, FullPlan(bus, image, beyond)).memory;
            var base := image.header.writeAddr;
            var n := Reach(bus, |Code(image)|);
            && |Code(image)| <= n < |Code(image)| + BLOCK && (bus == Usb ==> n == |Code(image)|)
            && Holds(after, base, Code(image), |Code(image)|) && OnlyCells(d.memory, after, base, n)
  {
    var source, start, base := image.data + beyond, image.header.codeOffset, image.header.writeAddr;
    var left := CodeLength(image);
    var ns := Cut(bus, left);
    CutReaches(bus, left);
    var from := if left > 0 then start else 0;
    var bytes := source[from..from + Sum(ns)];
    PlanCarries(bus, base, source, from, ns, RunFrame(image), bytes);
    ObeyingPlan(bus, d, FullPlan(bus, image, beyond), base, bytes);
    CodeFirst(image.data, beyond, if left > 0 then start else 0, Sum(ns), left);
    assert left == 0 ==> Code(image) == [];
    StretchStored(d.memory, base, bytes, Code(image));
  }

  lemma CodeFirst(data: seq<u8>, beyond: seq<u8>, from: nat, m: nat, left: nat)
    requires from + m <= |data + beyond| && left <= m && from + left <= |data|
    ensures (data + beyond)[from..from + m][..left] == data[from..from + left]
  {}

  lemma StretchStored(memory: map<u32, u8>, base: u32, stretch: seq<u8>, code: seq<u8>)
    requires |code| <= |stretch| < 0x1_0000_0000 && stretch[..|code|] == code
    ensures var after := StoreBytes(memory, base, stretch);
            Holds(after, base, code, |code|) && OnlyCells(memory, after, base, |stretch|)
  {
    StretchHeld(memory, base, stretch, code);
    StoreBytesOnly(memory, base, 0, stretch);
  }

  lemma StretchHeld(memory: map<u32, u8>, base: u32, stretch: seq<u8>, code: seq<u8>)
    requires |code| <= |stretch| < 0x1_0000_0000 && stretch[..|code|] == code
    ensures Holds(StoreBytes(memory, base, stretch), base, code, |code|)
  {
    assert stretch[0..] == stretch;
    StoreBytesHolds(memory, base, stretch, 0);
    assert forall i | 0 <= i < |code| :: stretch[i] == stretch[..|code|][i];
  }

  /** A code offset past the end of the image is not noticed: nothing is written, and the code
      length in the run word is what 32-bit arithmetic makes of the negative one. */
  lemma WithoutCode(bus: Bus, image: Image, beyond: seq<u8>)
    requires Loadable(image) && |beyond| >= BLOCK
    ensures FullPlan(bus, image, beyond) == [RunFrame(image)] <==> image.header.codeOffset >= |image.data|
  {}

  // ------------------------------------------------------------------ the run command

  lemma {:induction false} PlanEnds(bus: Bus, addr: u32, source: seq<u8>, off: nat, ns: seq<nat>, run: Frame)
    requires off + Sum(ns) <= |source|
    ensures var plan := Plan(bus, addr, source, off, ns, run); plan[|plan| - 1] == run
    decreases |ns|
  {
    if ns != [] { PlanEnds(bus, Cell(addr, ns[0]), source, off + ns[0], ns[1..], run); }
  }

  /** A download ends with the run command at the header's write address; the loader reads the length
      of the code and the header's flags from its word exactly if the code is below 512 MB. */
  lemma RunsTheCode(bus: Bus, image: Image, beyond: seq<u8>)
    requires Loadable(image) && HasCode(image) && |beyond| >= BLOCK
    ensures var plan := FullPlan(bus, image, beyond);
            && plan[|plan| - 1].Run? && plan[|plan| - 1].addr == image.header.writeAddr
            && (RunWordDecodes(plan[|plan| - 1].word, |Code(image)|, image.header.aesEnabled, image.header.crcEnabled, true)
                <==> |Code(image)| < 0x2000_0000)
  {
    FullPlanEnds(bus, image, beyond);
    RunFrameDecodes(image);
  }

  lemma FullPlanEnds(bus: Bus, image: Image, beyond: seq<u8>)
    requires |beyond| >= BLOCK
    ensures var plan := FullPlan(bus, image, beyond); plan != [] && plan[|plan| - 1] == RunFrame(image)
  {
    var left := CodeLength(image);
    CutReaches(bus, left);
    PlanEnds(bus, image.header.writeAddr, image.data + beyond, if left > 0 then image.header.codeOffset else 0, Cut(bus, left),
             RunFrame(image));
  }

  lemma RunFrameDecodes(image: Image)
    requires Loadable(image) && HasCode(image)
    ensures RunFrame(image).addr == image.header.writeAddr
    ensures RunWordDecodes(RunFrame(image).word, |Code(image)|, image.header.aesEnabled, image.header.crcEnabled, true)
       <==> |Code(image)| < 0x2000_0000
  {
    var n := |Code(image)|;
    assert CodeLength(image) % 0x1_0000_0000 == n;
    RunWordRoundTrip(n, image.header.aesEnabled, image.header.crcEnabled, true);
  }

  // ------------------------------------------------------------------ what is behind the image

  /** The copying reads no byte behind the image, and what lies there makes no difference to what is
      sent. */
  ghost predicate KeepsInside(bus: Bus, image: Image) {
    && (CodeLength(image) > 0 ==> image.header.codeOffset + Sum(Cut(bus, CodeLength(image))) <= |image.data|)
    && forall x: seq<u8>, y: seq<u8> | |x| >= BLOCK && |y| >= BLOCK :: FullPlan(bus, image, x) == FullPlan(bus, image, y)
  }

  lemma {:induction false} SamePlan(bus: Bus, addr: u32, x: seq<u8>, y: seq<u8>, off: nat, ns: seq<nat>, run: Frame)
    requires off + Sum(ns) <= |x| && off + Sum(ns) <= |y| && x[..off + Sum(ns)] == y[..off + Sum(ns)]
    ensures Plan(bus, addr, x, off, ns, run) == Plan(bus, addr, y, off, ns, run)
    decreases |ns|
  {
    if ns != [] {
      var n := ns[0];
      assert x[off..off + n] == x[..off + Sum(ns)][off..off + n] == y[off..off + n];
      SamePlan(bus, Cell(addr, n), x, y, off + n, ns[1..], run);
    }
  }

  lemma {:induction false} CarriesOnce(bus: Bus, plan: seq<Frame>, addr: u32, a: seq<u8>, b: seq<u8>)
    requires Carries(bus, plan, addr, a) && Carries(bus, plan, addr, b)
    ensures a == b
    decreases |plan|
  {
    if |plan| > 1 {
      var n := |plan[1].bytes|;
      CarriesOnce(bus, plan[2..], Cell(addr, n), a[n..], b[n..]);
      assert a == a[..n] + a[n..] && b == b[..n] + b[n..];
    }
  }

  /** The stretch of memory that is sent. */
  lemma StretchSent(bus: Bus, image: Image, beyond: seq<u8>) returns (bytes: seq<u8>)
    requires CodeLength(image) > 0 && |beyond| >= BLOCK
    ensures Carries(bus, FullPlan(bus, image, beyond), image.header.writeAddr, bytes)
    ensures |bytes| == Reach(bus, CodeLength(image))
    ensures |bytes| > CodeLength(image) ==> bytes[CodeLength(image)] == beyond[0]
  {
    var source, off, ns := image.data + beyond, image.header.codeOffset, Cut(bus, CodeLength(image));
    CutReaches(bus, CodeLength(image));
    bytes := source[off..off + Sum(ns)];
    PlanCarries(bus, image.header.writeAddr, source, off, ns, RunFrame(image), bytes);
  }

  lemma SameFullPlan(bus: Bus, image: Image, x: seq<u8>, y: seq<u8>)
    requires |x| >= BLOCK && |y| >= BLOCK && HasCode(image) && Reach(bus, CodeLength(image)) == CodeLength(image)
    ensures FullPlan(bus, image, x) == FullPlan(bus, image, y)
  {
    var left := CodeLength(image);
    var off := if left > 0 then image.header.codeOffset else 0;
    CutReaches(bus, left);
    InFront(image.data, x, off + left);
    InFront(image.data, y, off + left);
    SamePlan(bus, image.header.writeAddr, image.data + x, image.data + y, off, Cut(bus, left), RunFrame(image));
  }

  lemma InFront(data: seq<u8>, beyond: seq<u8>, n: nat)
    requires n <= |data|
    ensures (data + beyond)[..n] == data[..n]
  {}

  lemma WholeBlocks(left: nat)
    requires left % BLOCK == 0
    ensures Align(left) == left
  {
    AlignBounds(left);
  }

  lemma NothingBehindIsRead(bus: Bus, image: Image)
    requires HasCode(image) && (bus == Usb || CodeLength(image) % BLOCK == 0)
    ensures KeepsInside(bus, image)
  {
    CutReaches(bus, CodeLength(image));
    WholeBlocks(if bus == Usb then 0 else CodeLength(image));
    forall x: seq<u8>, y: seq<u8> | |x| >= BLOCK && |y| >= BLOCK
      ensures FullPlan(bus, image, x) == FullPlan(bus, image, y)
    {
      SameFullPlan(bus, image, x, y);
    }
  }

  /** For an image with code: nothing behind it is read, or sent, exactly if the bus is USB or the code
      is whole blocks. */
  lemma CopiesStayInside(bus: Bus, image: Image)
    requires HasCode(image)
    ensures KeepsInside(bus, image) <==> bus == Usb || CodeLength(image) % BLOCK == 0
  {
    if bus == Usb || CodeLength(image) % BLOCK == 0 {
      NothingBehindIsRead(bus, image);
    } else {
      WhatIsBehindIsSent(bus, image);
    }
  }

  lemma WhatIsBehindIsSent(bus: Bus, image: Image)
    requires CodeLength(image) > 0 && bus != Usb && CodeLength(image) % BLOCK != 0
    ensures !KeepsInside(bus, image)
  {
    ReachesBehind(CodeLength(image));
    OtherPlan(bus, image, seq(BLOCK, _ => 0), seq(BLOCK, _ => 1));
  }

  lemma ReachesBehind(left: nat)
    requires left % BLOCK != 0
    ensures Align(left) > left
  {
    AlignBounds(left);
  }

  /** What is sent differs where what lies behind the image does. */
  lemma OtherPlan(bus: Bus, image: Image, x: seq<u8>, y: seq<u8>)
    requires |x| >= BLOCK && |y| >= BLOCK && x[0] != y[0]
    requires 0 < CodeLength(image) < Reach(bus, CodeLength(image))
    ensures FullPlan(bus, image, x) != FullPlan(bus, image, y)
  {
    var a := StretchSent(bus, image, x);
    var b := StretchSent(bus, image, y);
    if FullPlan(bus, image, x) == FullPlan(bus, image, y) {
      CarriesOnce(bus, FullPlan(bus, image, x), image.header.writeAddr, a, b);
    }
  }
}

/** The stop-and-wait firmware upload through the driver (utils/ota.c). */
module Ota {
  import opened Basics
  import opened Machine
  import opened Checksum
  import opened Firmware

  const FRAGMENT_SIZE := 1500

  /** One fragment with its header. */
  datatype Packet = Packet(version: u32, off: nat, totLen: nat, checksum: u16, chipId: u16, data: seq<u8>)

  /** An answer to a packet: none within the timeout, or one carrying an error code. */
  datatype Reply = NoReply | Answer(errCode: u16)

  function FragmentLength(left: nat): nat {
    if left > FRAGMENT_SIZE then FRAGMENT_SIZE else left
  }

  /** The packets for the image from offset off on. */
  function Fragments(info: DeviceInfo, image: seq<u8>, off: nat): seq<Packet>
    requires off <= |image|
    decreases |image| - off
  {
    if off == |image| then []
    else
      var n := FragmentLength(|image| - off);
      [PacketFor(info, image, off, image[off..off + n])] + Fragments(info, image, off + n)
  }

  function PacketFor(info: DeviceInfo, image: seq<u8>, off: nat, data: seq<u8>): Packet {
    Packet(info.version, off, |image|, Complement(OnesSum(data)), info.chipId, data)
  }

  /** The number of fragments of an image of n bytes: n / 1500, rounded up. */
  function FragmentCount(n: nat): nat {
    (n + FRAGMENT_SIZE - 1) / FRAGMENT_SIZE
  }

  /** What parsing ends with when memory fragment buffers can be used. */
  function ParseResult(request: int, image: Image, info: DeviceInfo, memory: nat): int {
    if request != 0 then -ENODEV
    else if CheckDevice(image.header, info) != 0 then CheckDevice(image.header, info)
    else if !HasCode(image) then -EINVAL
    else if !CrcMatches(image) then -EFAULT
    else if memory < FragmentCount(|image.data|) then -ENOMEM
    else 0
  }

  /** The position of the first packet that is not answered with error code 0. */
  function FirstFailure(reply: nat -> Reply, n: nat, i: nat): (k: nat)
    requires i <= n
    ensures i <= k <= n && forall j | i <= j < k :: reply(j) == Answer(0)
    ensures k < n ==> reply(k) != Answer(0)
    decreases n - i
  {
    if i == n || reply(i) != Answer(0) then i else FirstFailure(reply, n, i + 1)
  }

  function FailureCode(r: Reply): int {
    match r
    case NoReply => -ENODEV
    case Answer(e) => e
  }

  class Upload {
    var dataq: seq<Packet>
    var fwLen: nat
    const info: DeviceInfo

    constructor (info: DeviceInfo)
      ensures this.info == info && dataq == []
    {
      this.info := info;
      dataq := [];
      fwLen := 0;
    }

    /** Cuts the image into fragments and queues them. */
    method ParseFw(request: int, image: Image, memory: nat) returns (ret: int)
      requires Loadable(image)
      modifies this
      ensures ret == ParseResult(request, image, info, memory)
      ensures ret == 0 ==> dataq == old(dataq) + Fragments(info, image.data, 0)
    {
      if request != 0 { return -ENODEV; }
      ret := CheckDevice(image.header, info);
      if ret != 0 { return; }
      ret := CodeChecksum(image);
      if ret != 0 { return; }
      ret := QueueFragments(image.data, memory);
    }

    method QueueFragments(data: seq<u8>, memory: nat) returns (ret: int)
      modifies this
      ensures ret == if memory < FragmentCount(|data|) then -ENOMEM else 0
      ensures ret == 0 ==> dataq == old(dataq) + Fragments(info, data, 0)
    {
      fwLen := |data|;
      var copyLen, addrOffset, used := fwLen, 0, 0;
      while copyLen > 0
        invariant addrOffset + copyLen == fwLen == |data| && 0 <= addrOffset && 0 <= copyLen
        invariant used <= memory && used + FragmentCount(copyLen) == FragmentCount(|data|)
        invariant dataq + Fragments(info, data, addrOffset) == old(dataq) + Fragments(info, data, 0)
      {
        var xferLen := if copyLen > FRAGMENT_SIZE then FRAGMENT_SIZE else copyLen;
        CountStep(copyLen);
        if used == memory { return -ENOMEM; }
        used := used + 1;
        var payload := data[addrOffset..addrOffset + xferLen];
        var sum := OtaCheckSum(payload);
        var packet := Packet(info.version, addrOffset, fwLen, sum, info.chipId, payload);
        QueueStep(dataq, packet, Fragments(info, data, addrOffset + xferLen));
        dataq := dataq + [packet];
        copyLen := copyLen - xferLen;
        addrOffset := addrOffset + xferLen;
      }
      ret := 0;
    }

    /** Sends the image, one packet at a time, each after the answer to the one before. reply(i)
        is the answer to the i-th packet; sent records what was handed to the device. */
    method SendFw(request: int, image: Image, memory: nat, reply: nat -> Reply)
      returns (ret: int, sent: seq<Packet>)
      requires Loadable(image) && dataq == []
      modifies this
      ensures dataq == []
      ensures var packets := Fragments(info, image.data, 0);
              var parsed := ParseResult(request, image, info, memory);
              var k := FirstFailure(reply, |packets|, 0);
              if parsed != 0 then ret == parsed && sent == []
              else if k == |packets| then ret == 0 && sent == packets
              else ret == (if reply(k).NoReply? then -19 else reply(k).errCode) && ret != 0 && sent == packets[..k + 1]
    {
      sent := [];
      ret := ParseFw(request, image, memory);
      if ret != 0 {
        dataq := [];
        return;
      }
      assert dataq == Fragments(info, image.data, 0);
      ret, sent := SendQueued(reply);
    }

    /** The loop of SendFw. */
    method SendQueued(reply: nat -> Reply) returns (ret: int, sent: seq<Packet>)
      modifies this
      ensures dataq == []
      ensures var packets := old(dataq);
              var k := FirstFailure(reply, |packets|, 0);
              if k == |packets| then ret == 0 && sent == packets
              else ret == FailureCode(reply(k)) && ret != 0 && sent == packets[..k + 1]
    {
      ghost var packets := dataq;
      sent := [];
      while dataq != []
        invariant sent + dataq == packets
        invariant forall i | 0 <= i < |sent| :: reply(i) == Answer(0)
        decreases |dataq|
      {
        var packet := dataq[0];
        var resp := reply(|sent|);
        if resp != Answer(0) { FailsFirstAt(reply, |packets|, 0, |sent|); }
        HandedOver(sent, dataq, packets);
        sent := sent + [packet];
        dataq := dataq[1..];
        match resp
        case Answer(errCode) =>
          if errCode != 0 {
            ret := errCode;
            dataq := [];
            return;
          }
        case NoReply =>
          ret := -ENODEV;
          dataq := [];
          return;
      }
      assert sent == sent + dataq;
      FailsFirstAt(reply, |packets|, 0, |packets|);
      ret := 0;
    }
  }

  lemma HandedOver(sent: seq<Packet>, q: seq<Packet>, packets: seq<Packet>)
    requires q != [] && sent + q == packets
    ensures sent + [q[0]] == packets[..|sent| + 1] && sent + [q[0]] + q[1..] == packets
  {
    assert q == [q[0]] + q[1..];
  }

  lemma {:induction false} FailsFirstAt(reply: nat -> Reply, n: nat, i: nat, k: nat)
    requires i <= k <= n && (forall j | i <= j < k :: reply(j) == Answer(0))
    requires k < n ==> reply(k) != Answer(0)
    ensures FirstFailure(reply, n, i) == k
    decreases k - i
  {
    if i < k { FailsFirstAt(reply, n, i + 1, k); }
  }

  lemma CountStep(n: nat)
    requires n > 0
    ensures FragmentCount(n) == 1 + FragmentCount(n - FragmentLength(n))
  {}

  lemma QueueStep(q: seq<Packet>, p: Packet, rest: seq<Packet>)
    ensures q + ([p] + rest) == (q + [p]) + rest
  {}

  // ------------------------------------------------------------------ what the packets carry

  /** The payloads one after the other. */
  function Payloads(packets: seq<Packet>): seq<u8> {
    if packets == [] then [] else packets[0].data + Payloads(packets[1..])
  }

  /** Fragments start at off, follow each other without gap, carry 1 to 1500 bytes each with a
      checksum that verifies, and together carry the image. */
  predicate Cover(packets: seq<Packet>, image: seq<u8>, off: nat) {
    off <= |image|
    && if packets == [] then off == |image|
       else
         var p := packets[0];
         && p.off == off && p.totLen == |image|
         && 1 <= |p.data| <= FRAGMENT_SIZE
         && OnesAdd(OnesSum(p.data), p.checksum) == 0xFFFF
         && off + |p.data| <= |image|
         && p.data == image[off..off + |p.data|]
         && Cover(packets[1..], image, off + |p.data|)
  }

  lemma {:induction false} FragmentsCover(info: DeviceInfo, image: seq<u8>, off: nat)
    requires off <= |image|
    ensures Cover(Fragments(info, image, off), image, off)
    ensures |Fragments(info, image, off)| == FragmentCount(|image| - off)
    decreases |image| - off
  {
    if off < |image| {
      var n := FragmentLength(|image| - off);
      CountStep(|image| - off);
      ChecksumVerifies(image[off..off + n]);
      FragmentsCover(info, image, off + n);
    }
  }

  /** Every fragment carries the version and the chip that the device reported. */
  lemma {:induction false} FragmentsTell(info: DeviceInfo, image: seq<u8>, off: nat)
    requires off <= |image|
    ensures forall i | 0 <= i < |Fragments(info, image, off)| ::
              var p := Fragments(info, image, off)[i];
              p.version == info.version && p.chipId == info.chipId && p.totLen == |image|
    decreases |image| - off
  {
    if off < |image| { FragmentsTell(info, image, off + FragmentLength(|image| - off)); }
  }

  /** An upload gets as far as sending exactly if the firmware could be read, has the three marks of its
      header, is for this chip, CPU and SDK version, has code, with its CRC or the complement of that in
      the header, and there is memory for a fragment for every 1500 bytes. */
  lemma LoadedExactly(request: int, image: Image, info: DeviceInfo, memory: nat)
    ensures var h := image.header;
            ParseResult(request, image, info, memory) == 0 <==>
              && request == 0 && h.bootFlag == 0x5A69 && h.fwCode == 2 && h.spiCode == 1
              && h.sdkVersion % 0x100 == info.version % 0x100 && h.chipId == info.chipId && h.cpuId == info.cpuId
              && h.codeOffset <= |image.data|
              && (var crc := Crc.Value(Crc.Crc32, image.data[h.codeOffset..]); h.codeCrc32 == crc || h.codeCrc32 == 0xFFFF_FFFF - crc)
              && 1500 * memory >= |image.data|
    ensures request != 0 ==> ParseResult(request, image, info, memory) == -19
    ensures ParseResult(request, image, info, memory) in {0, -19, -22, -14, -12}
  {}

  /** Together the fragments of a cover are the rest of the image. */
  lemma {:induction false} CoverIsWhole(packets: seq<Packet>, image: seq<u8>, off: nat)
    requires Cover(packets, image, off)
    ensures Payloads(packets) == image[off..]
    decreases |packets|
  {
    if packets != [] {
      CoverIsWhole(packets[1..], image, off + |packets[0].data|);
    }
  }

  /** A flash that stores each packet's data at the packet's offset. */
  function Store(flash: map<nat, u8>, p: Packet): map<nat, u8> {
    flash + map a: nat | p.off <= a < p.off + |p.data| :: ByteAt(p, a)
  }

  function ByteAt(p: Packet, a: nat): u8
    requires p.off <= a < p.off + |p.data|
  {
    p.data[a - p.off]
  }

  function StoreAll(flash: map<nat, u8>, packets: seq<Packet>): map<nat, u8>
    decreases |packets|
  {
    if packets == [] then flash else StoreAll(Store(flash, packets[0]), packets[1..])
  }

  /** The flash holds the first n bytes of the image. */
  predicate Holds(flash: map<nat, u8>, image: seq<u8>, n: nat)
    requires n <= |image|
  {
    forall a | 0 <= a < n :: a in flash && flash[a] == image[a]
  }

  lemma {:induction false} StoringCover(flash: map<nat, u8>, packets: seq<Packet>, image: seq<u8>, off: nat)
    requires Cover(packets, image, off) && Holds(flash, image, off)
    ensures Holds(StoreAll(flash, packets), image, |image|)
    decreases |packets|
  {
    if packets != [] {
      var p := packets[0];
      var flash' := Store(flash, p);
      forall a | 0 <= a < off + |p.data|
        ensures a in flash' && flash'[a] == image[a]
      {
        if a >= off { assert p.data[a - off] == image[off..off + |p.data|][a - off]; }
      }
      StoringCover(flash', packets[1..], image, off + |p.data|);
    }
  }

  /** An upload that ends with 0 handed the device every fragment, each answered in order with
      error code 0; a device that stores them holds the image. */
  lemma UploadStoresImage(info: DeviceInfo, image: seq<u8>, flash: map<nat, u8>)
    ensures Holds(StoreAll(flash, Fragments(info, image, 0)), image, |image|)
    ensures Payloads(Fragments(info, image, 0)) == image
  {
    FragmentsCover(info, image, 0);
    CoverIsWhole(Fragments(info, image, 0), image, 0);
    StoringCover(flash, Fragments(info, image, 0), image, 0);
  }
}

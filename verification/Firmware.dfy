/** A firmware image and the checks made on it before it is sent (utils/fwinfo.c). The header is
    given by its fields; how they are laid out in the first bytes of the image is not modelled. */
module Firmware {
  import opened Basics
  import opened Machine
  import Crc

  const BOOT_FLAG := 0x5A69
  const SPI_CODE := 1
  const FW_CODE := 2

  datatype Header = Header(
    bootFlag: u16,
    fwCode: u8,
    spiCode: u8,
    writeAddr: u32,
    codeOffset: u32,
    aesEnabled: bool,
    crcEnabled: bool,
    codeCrc32: u32,
    sdkVersion: u32,
    chipId: u16,
    cpuId: u8)

  datatype Image = Image(header: Header, data: seq<u8>)

  /** The firmware the running device reports. */
  datatype DeviceInfo = DeviceInfo(version: u32, chipId: u16, cpuId: u8)

  /** An image the kernel can hold: sizes and offsets are 32-bit, and a code offset of 2 GB or
      more is not part of the model. */
  predicate Loadable(image: Image) {
    |image.data| < 0x8000_0000 && image.header.codeOffset < 0x8000_0000
  }

  function CheckHeader(h: Header): int {
    if h.bootFlag != BOOT_FLAG || h.fwCode != FW_CODE as u8 || h.spiCode != SPI_CODE as u8 then -EINVAL
    else 0
  }

  /** An image suits the device: low byte of the SDK version, chip and CPU are the same. */
  function CheckDevice(h: Header, info: DeviceInfo): int {
    if CheckHeader(h) != 0 then CheckHeader(h)
    else if h.sdkVersion % 0x100 != info.version % 0x100 then -EFAULT
    else if h.chipId != info.chipId then -EFAULT
    else if h.cpuId != info.cpuId then -EFAULT
    else 0
  }

  predicate HasCode(image: Image) {
    image.header.codeOffset <= |image.data|
  }

  /** The code part of the image. */
  function Code(image: Image): seq<u8>
    requires HasCode(image)
  {
    image.data[image.header.codeOffset..]
  }

  /** The CRC of the code, or its complement, is the one in the header. */
  predicate CrcMatches(image: Image)
    requires HasCode(image)
  {
    var crc := Crc.Value(Crc.Crc32, Code(image));
    crc == image.header.codeCrc32 || 0xFFFF_FFFF - crc == image.header.codeCrc32
  }

  method CodeChecksum(image: Image) returns (r: int)
    requires Loadable(image)
    ensures r == if CheckHeader(image.header) != 0 || !HasCode(image) then -EINVAL
                 else if CrcMatches(image) then 0 else -EFAULT
  {
    r := CheckHeader(image.header);
    if r != 0 { return; }
    var codeLen := |image.data| - image.header.codeOffset;
    if codeLen < 0 { return -EINVAL; }
    var crc := Crc.Crc32Of(image.data[image.header.codeOffset..]);
    if crc != image.header.codeCrc32 && 0xFFFF_FFFF - crc != image.header.codeCrc32 {
      return -EFAULT;
    }
  }

  /** What passes beside an image that passes, with the same header: code with the same CRC, or with
      the complement. */
  lemma PassesBeside(x: Image, y: Image)
    requires x.header == y.header && HasCode(x) && HasCode(y) && CrcMatches(x)
    ensures var p, q := Crc.Value(Crc.Crc32, Code(x)), Crc.Value(Crc.Crc32, Code(y));
            CrcMatches(y) <==> p == q || p == 0xFFFF_FFFF - q
  {}

  /** A burst of at most 32 bits in the code of an image that passes is missed exactly if it turns the
      CRC into its complement. */
  lemma BurstPassesOnlyByComplement(x: Image, y: Image, before: seq<bool>, a: seq<bool>, b: seq<bool>, after: seq<bool>)
    requires x.header == y.header && HasCode(x) && HasCode(y) && CrcMatches(x)
    requires Crc.Stream(Code(x)) == before + a + after && Crc.Stream(Code(y)) == before + b + after
    requires |a| == |b| <= 32 && a != b
    ensures CrcMatches(y) <==> Crc.Value(Crc.Crc32, Code(x)) == 0xFFFF_FFFF - Crc.Value(Crc.Crc32, Code(y))
  {
    PassesBeside(x, y);
    Crc.BurstDetected(Crc.Crc32, Code(x), Code(y), before, a, b, after);
  }

  /** For every image that passes and every window of 32 bits in its code, at any bit position, there
      is such a burst, and only one: exactly one other content of the window passes too. */
  lemma OneBurstPasses(x: Image, before: seq<bool>, a: seq<bool>, after: seq<bool>) returns (y: Image, b: seq<bool>)
    requires HasCode(x) && CrcMatches(x)
    requires Crc.Stream(Code(x)) == before + a + after && |a| == 32
    ensures |b| == 32 && b != a && y.header == x.header && |y.data| == |x.data| && HasCode(y)
    ensures Crc.Stream(Code(y)) == before + b + after && CrcMatches(y)
    ensures forall z: Image, d: seq<bool> | z.header == x.header && HasCode(z) && |d| == 32
                                            && Crc.Stream(Code(z)) == before + d + after && CrcMatches(z) :: d == a || d == b
  {
    var p := Crc.Value(Crc.Crc32, Code(x));
    Crc.ValueFits(Crc.Crc32, Code(x));
    var code;
    code, b := Crc.AnyValueReached(Crc.Crc32, Code(x), before, a, after, 0xFFFF_FFFF - p);
    var off := x.header.codeOffset;
    y := x.(data := x.data[..off] + code);
    assert Code(y) == code;
    if b == a { Crc.StreamInjective(code, Code(x)); }
    PassesBeside(x, y);
    forall z: Image, d: seq<bool> | z.header == x.header && HasCode(z) && |d| == 32
                                    && Crc.Stream(Code(z)) == before + d + after && CrcMatches(z)
      ensures d == a || d == b
    {
      if d != a { BurstPassesOnlyByComplement(x, z, before, a, d, after); }
    }
  }
}

/** The 16-bit checksum of an OTA fragment, as the driver (utils/ota.c) and the upload tool
    (tools/test_app/libota.c) compute it, against the one's-complement sum of sections 1 and 2
    of RFC 1071. Words are little-endian. */
module Checksum {
  import opened Machine

  /** One's-complement addition: the carry out of the top comes back in at the bottom. */
  function OnesAdd(a: u16, b: u16): u16 {
    if a + b >= 0x1_0000 then a + b - 0xFFFF else a + b
  }

  function WordOf(lo: u8, hi: u8): u16 {
    lo as int + hi as int * 0x100
  }

  /** The one's-complement sum of the words, an odd last byte standing for a word of its own. */
  function OnesSum(data: seq<u8>): u16 {
    if |data| == 0 then 0
    else if |data| == 1 then data[0] as int
    else OnesAdd(WordOf(data[0], data[1]), OnesSum(data[2..]))
  }

  function Complement(sum: u16): u16 {
    0xFFFF - sum
  }

  // ------------------------------------------------------------------ deferred carries

  /** What folding the high half into the low half leads to. */
  function Residue(s: int): u16 {
    if s == 0 then 0 else 1 + (s - 1) % 0xFFFF
  }

  /** The sum the first loop reaches; signed says that the odd last byte is taken as signed. */
  function PlainSum(data: seq<u8>, signed: bool): int {
    if |data| == 0 then 0
    else if |data| == 1 then
      if signed && data[0] >= 0x80 then data[0] as int - 0x100 else data[0] as int
    else WordOf(data[0], data[1]) + PlainSum(data[2..], signed)
  }

  lemma {:induction false} PlainSumBounds(data: seq<u8>, signed: bool)
    ensures -0x80 <= PlainSum(data, signed) <= 0x8000 * |data|
    ensures !signed ==> PlainSum(data, signed) >= 0
    decreases |data|
  {
    if |data| >= 2 { PlainSumBounds(data[2..], signed); }
  }

  /** Folding keeps the residue. */
  lemma FoldKeeps(s: int)
    requires -0xFFFF < s < 0 || s >= 0x1_0000
    ensures Residue(s % 0x1_0000 + s / 0x1_0000) == Residue(s)
  {
    var h, l := s / 0x1_0000, s % 0x1_0000;
    assert s - 1 == 0xFFFF * h + (l + h - 1);
    SameModulo(s - 1, l + h - 1, h);
  }

  lemma SameModulo(a: int, b: int, q: int)
    requires a == 0xFFFF * q + b
    ensures a % 0xFFFF == b % 0xFFFF
  {}

  lemma ResidueOfSum(a: u16, s: nat)
    ensures Residue(a + s) == OnesAdd(a, Residue(s))
  {
    if s > 0 {
      var q := (s - 1) / 0xFFFF;
      assert a + s - 1 == 0xFFFF * q + (a + Residue(s) - 1);
      SameModulo(a + s - 1, a + Residue(s) - 1, q);
    }
  }

  lemma {:induction false} OnesSumIsResidue(data: seq<u8>)
    ensures OnesSum(data) == Residue(PlainSum(data, false))
    decreases |data|
  {
    if |data| >= 2 {
      OnesSumIsResidue(data[2..]);
      PlainSumBounds(data[2..], false);
      ResidueOfSum(WordOf(data[0], data[1]), PlainSum(data[2..], false));
    }
  }

  // ------------------------------------------------------------------ the two routines

  type s32 = x: int | -0x8000_0000 <= x < 0x8000_0000

  /** The loops of both routines. charSigned says whether the type of *addr is signed: never in
      the driver, platform-dependent in the tool. The sum never leaves 32 bits. */
  method SumAndFold(data: seq<u8>, charSigned: bool) returns (r: u16)
    requires |data| <= 0xFFFF
    ensures r == Complement(Residue(PlainSum(data, charSigned)))
  {
    var sum: s32 := 0;
    var addr, count := 0, |data|;
    PlainSumBounds(data, charSigned);
    while count > 1
      invariant addr + count == |data| && 0 <= count
      invariant 0 <= sum <= 0x8000 * addr
      invariant sum + PlainSum(data[addr..], charSigned) == PlainSum(data, charSigned)
    {
      sum := sum + WordOf(data[addr], data[addr + 1]);
      assert data[addr..][2..] == data[addr + 2..];
      addr := addr + 2;
      count := count - 2;
    }
    if count > 0 {
      sum := sum + (if charSigned && data[addr] >= 0x80 then data[addr] as int - 0x100 else data[addr] as int);
    }
    while sum / 0x1_0000 != 0
      invariant sum >= -0x80 && Residue(sum) == Residue(PlainSum(data, charSigned))
      decreases if sum < 0 then 0x8000_0000 else sum
    {
      FoldKeeps(sum);
      sum := sum % 0x1_0000 + sum / 0x1_0000;
    }
    r := 0xFFFF - sum;
  }

  /** hgic_ota_check_sum is the complement of the one's-complement sum. */
  method OtaCheckSum(data: seq<u8>) returns (r: u16)
    requires |data| <= 0xFFFF
    ensures r == Complement(OnesSum(data))
  {
    OnesSumIsResidue(data);
    r := SumAndFold(data, false);
  }

  function LibotaSum(data: seq<u8>, charSigned: bool): u16 {
    Complement(Residue(PlainSum(data, charSigned)))
  }

  method LibotaCheckSum(data: seq<u8>, charSigned: bool) returns (r: u16)
    requires |data| <= 0xFFFF
    ensures r == LibotaSum(data, charSigned)
  {
    r := SumAndFold(data, charSigned);
  }

  /** libota_check_sum agrees with the driver's checksum except on a signed odd last byte. */
  lemma LibotaAgrees(data: seq<u8>, charSigned: bool)
    ensures LibotaSum(data, charSigned) == Complement(OnesSum(data))
       <==> !(charSigned && |data| % 2 == 1 && data[|data| - 1] >= 0x80)
  {
    OnesSumIsResidue(data);
    SignedLastByte(data);
    if charSigned && |data| % 2 == 1 && data[|data| - 1] >= 0x80 {
      ResidueDiffers(PlainSum(data, false));
    }
  }

  /** What the signed odd last byte changes. */
  lemma {:induction false} SignedLastByte(data: seq<u8>)
    ensures var odd := |data| % 2 == 1 && data[|data| - 1] >= 0x80;
            && PlainSum(data, true) == PlainSum(data, false) - (if odd then 0x100 else 0)
            && (odd ==> PlainSum(data, false) >= 0x80)
    decreases |data|
  {
    if |data| >= 2 {
      SignedLastByte(data[2..]);
      if |data| > 2 { assert data[2..][|data| - 3] == data[|data| - 1]; }
    }
  }

  lemma ResidueDiffers(s: int)
    requires s >= 0x80
    ensures Residue(s - 0x100) != Residue(s)
  {
    var q, r := (s - 1) / 0xFFFF, (s - 1) % 0xFFFF;
    if r >= 0x100 {
      SameModulo(s - 0x101, r - 0x100, q);
    } else {
      SameModulo(s - 0x101, r + 0xFEFF, q - 1);
    }
  }

  // ------------------------------------------------------------------ what it is for

  /** A receiver that adds the checksum to the sum of intact data gets all ones. */
  lemma ChecksumVerifies(data: seq<u8>)
    ensures OnesAdd(OnesSum(data), Complement(OnesSum(data))) == 0xFFFF
  {}

  /** With the tool's checksum it does so exactly where that agrees. */
  lemma LibotaVerifies(data: seq<u8>, charSigned: bool)
    ensures OnesAdd(OnesSum(data), LibotaSum(data, charSigned)) == 0xFFFF
       <==> !(charSigned && |data| % 2 == 1 && data[|data| - 1] >= 0x80)
  {
    LibotaAgrees(data, charSigned);
    OnesSumIsResidue(data);
    SignedLastByte(data);
  }

  /** The words are little-endian, and an odd last byte is the low byte of its own. */
  lemma ShortSums(lo: u8, hi: u8)
    ensures OnesSum([]) == 0 && OnesSum([lo]) == lo as int && OnesSum([lo, hi]) == lo as int + 0x100 * hi as int
  {
    assert [lo, hi][2..] == [];
  }

  lemma {:induction false} OnesSumConcat(a: seq<u8>, b: seq<u8>)
    requires |a| % 2 == 0
    ensures OnesSum(a + b) == OnesAdd(OnesSum(a), OnesSum(b))
    decreases |a|
  {
    if a == [] {
      assert a + b == b;
    } else {
      assert (a + b)[2..] == a[2..] + b;
      OnesSumConcat(a[2..], b);
    }
  }

  /** Changing one aligned word goes unnoticed exactly when the word is exchanged between the two
      zeros of one's-complement arithmetic, 0x0000 and 0xFFFF, and the rest does not sum to zero. */
  lemma OneWordChanged(a: seq<u8>, lo: u8, hi: u8, lo': u8, hi': u8, b: seq<u8>)
    requires |a| % 2 == 0
    ensures var w, w' := WordOf(lo, hi), WordOf(lo', hi');
            OnesSum(a + [lo, hi] + b) == OnesSum(a + [lo', hi'] + b)
            <==> w == w' || (OnesAdd(OnesSum(a), OnesSum(b)) != 0
                            && ((w == 0 && w' == 0xFFFF) || (w == 0xFFFF && w' == 0)))
  {
    WordInMiddle(a, lo, hi, b);
    WordInMiddle(a, lo', hi', b);
    AddedWord(OnesSum(a), OnesSum(b), WordOf(lo, hi), WordOf(lo', hi'));
  }

  lemma WordInMiddle(a: seq<u8>, lo: u8, hi: u8, b: seq<u8>)
    requires |a| % 2 == 0
    ensures OnesSum(a + [lo, hi] + b) == OnesAdd(OnesSum(a), OnesAdd(WordOf(lo, hi), OnesSum(b)))
  {
    assert a + [lo, hi] + b == a + ([lo, hi] + b);
    assert ([lo, hi] + b)[2..] == b;
    OnesSumConcat(a, [lo, hi] + b);
  }

  lemma AddedWord(x: u16, y: u16, w: u16, w': u16)
    ensures OnesAdd(x, OnesAdd(w, y)) == OnesAdd(x, OnesAdd(w', y))
       <==> w == w' || (OnesAdd(x, y) != 0 && ((w == 0 && w' == 0xFFFF) || (w == 0xFFFF && w' == 0)))
  {}
}

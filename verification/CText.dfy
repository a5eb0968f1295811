/** Text in memory: characters up to a zero, cut in place; numbers as the C libraries print and read
    them (sprintf's %d and %02x, the kernel's simple_strtol in base 0). */
module CText {
  import opened Basics

  const NUL: char := '\0'

  /** The text that begins at i. */
  function TextAt(b: seq<char>, i: nat): seq<char>
    requires i <= |b|
    decreases |b| - i
  {
    if i == |b| || b[i] == NUL then [] else [b[i]] + TextAt(b, i + 1)
  }

  lemma {:induction false} TextFrom(b: seq<char>, i: nat, j: nat)
    requires i <= j <= |b| && (forall k | i <= k < j :: b[k] != NUL)
    ensures TextAt(b, i) == b[i..j] + TextAt(b, j)
    decreases j - i
  {
    if i < j {
      TextFrom(b, i + 1, j);
      OneAhead(b, i, j, TextAt(b, j));
    } else {
      assert b[i..j] == [];
    }
  }

  lemma OneAhead(b: seq<char>, i: nat, j: nat, rest: seq<char>)
    requires i < j <= |b|
    ensures b[i..j] + rest == [b[i]] + (b[i + 1..j] + rest)
  {
    assert b[i..j] == [b[i]] + b[i + 1..j];
  }

  lemma {:induction false} TextHasNoNul(b: seq<char>, i: nat)
    requires i <= |b|
    ensures NUL !in TextAt(b, i)
    decreases |b| - i
  {
    if i < |b| && b[i] != NUL { TextHasNoNul(b, i + 1); }
  }

  /** Memory that differs only before i holds the same text at i. */
  lemma {:induction false} TextSame(b: seq<char>, c: seq<char>, i: nat)
    requires |b| == |c| && i <= |b| && b[i..] == c[i..]
    ensures TextAt(b, i) == TextAt(c, i)
    decreases |b| - i
  {
    if i < |b| {
      assert b[i] == b[i..][0] && c[i] == c[i..][0];
      assert b[i + 1..] == b[i..][1..] && c[i + 1..] == c[i..][1..];
      TextSame(b, c, i + 1);
    }
  }

  lemma WholeText(b: seq<char>, end: nat, text: seq<char>)
    requires end < |b| && b[..end] == text && b[end] == NUL && NUL !in text
    ensures TextAt(b, 0) == text
  {
    assert forall k | 0 <= k < end :: b[k] == text[k];
    TextFrom(b, 0, end);
    assert b[0..end] == text && text + [] == text;
  }

  /** The part before the first c, or all. */
  function Before(s: seq<char>, c: char): (r: seq<char>)
    ensures |r| <= |s| && c !in r
  {
    if s == [] || s[0] == c then [] else [s[0]] + Before(s[1..], c)
  }

  /** The part behind the first c. */
  function Behind(s: seq<char>, c: char): (r: Option<seq<char>>)
    ensures r.Some? ==> |r.value| < |s|
  {
    if s == [] then None else if s[0] == c then Some(s[1..]) else Behind(s[1..], c)
  }

  lemma {:induction false} BeforeIs(s: seq<char>, c: char, rest: seq<char>)
    requires c !in s
    ensures Before(s + [c] + rest, c) == s && Behind(s + [c] + rest, c) == Some(rest)
    ensures Before(s, c) == s && Behind(s, c) == None
  {
    if s == [] {
      assert (s + [c] + rest)[1..] == rest;
    } else {
      assert (s + [c] + rest)[1..] == s[1..] + [c] + rest;
      BeforeIs(s[1..], c, rest);
    }
  }

  /** Cuts the text at i at the first c: puts a zero there, and says where the rest begins. */
  method Cut(buf: array<char>, i: nat, c: char) returns (next: Option<nat>)
    requires i <= buf.Length && c != NUL
    modifies buf
    ensures var text := old(TextAt(buf[..], i));
            && TextAt(buf[..], i) == Before(text, c)
            && (match Behind(text, c)
                case None => next == None
                case Some(rest) => next.Some? && i < next.value <= buf.Length && TextAt(buf[..], next.value) == rest)
            && (next.Some? ==> next.value == i + |Before(text, c)| + 1)
    ensures buf[..i] == old(buf[..i])
  {
    ghost var b := buf[..];
    var j := i;
    while j < buf.Length && buf[j] != NUL && buf[j] != c
      invariant i <= j <= buf.Length && forall k | i <= k < j :: buf[k] != NUL && buf[k] != c
    {
      j := j + 1;
    }
    TextFrom(b, i, j);
    assert c !in b[i..j];
    if j < buf.Length && buf[j] == c {
      assert TextAt(b, j) == [c] + TextAt(b, j + 1);
      assert b[i..j] + ([c] + TextAt(b, j + 1)) == b[i..j] + [c] + TextAt(b, j + 1);
      BeforeIs(b[i..j], c, TextAt(b, j + 1));
      buf[j] := NUL;
      TextFrom(buf[..], i, j);
      assert buf[..][i..j] == b[i..j] && buf[..][j + 1..] == b[j + 1..];
      assert buf[..i] == b[..i];
      TextSame(buf[..], b, j + 1);
      next := Some(j + 1);
    } else {
      BeforeIs(b[i..j], c, []);
      assert b[i..j] + [] == b[i..j];
      next := None;
    }
  }

  /** Writes s and a zero at position at, and says where the zero is. */
  method Append(buf: array<char>, at: nat, s: seq<char>) returns (end: nat)
    requires at + |s| < buf.Length
    modifies buf
    ensures end == at + |s| && buf[..end] == old(buf[..at]) + s && buf[end] == NUL
  {
    ghost var was := buf[..at];
    var i := 0;
    while i < |s|
      invariant i <= |s| && forall k | 0 <= k < at + i :: buf[k] == if k < at then was[k] else s[k - at]
    {
      buf[at + i] := s[i];
      i := i + 1;
    }
    end := at + |s|;
    buf[end] := NUL;
    assert buf[..end] == was + s;
  }

  /** Memory that holds a text, with zeros behind it. */
  method Copied(s: seq<char>, spare: nat) returns (buf: array<char>)
    requires NUL !in s && spare > 0
    ensures fresh(buf) && buf.Length == |s| + spare && TextAt(buf[..], 0) == s
  {
    buf := new char[|s| + spare](i => if 0 <= i < |s| then s[i] else NUL);
    assert buf[..][0..|s|] == s;
    TextFrom(buf[..], 0, |s|);
    assert s + [] == s;
  }

  // ------------------------------------------------------------------ numbers

  function DigitChar(d: nat): char
    requires d < 16
  {
    if d < 10 then '0' + d as char else 'a' + (d - 10) as char
  }

  /** The value of a digit in a base of at most 16. */
  function DigitValue(c: char): nat {
    if '0' <= c <= '9' then c as nat - '0' as nat
    else if 'a' <= c <= 'f' then c as nat - 'a' as nat + 10
    else if 'A' <= c <= 'F' then c as nat - 'A' as nat + 10
    else 16
  }

  /** A number in decimal, without leading zeros. */
  function Decimal(n: nat): (s: seq<char>)
    ensures s != []
  {
    if n < 10 then [DigitChar(n)] else Decimal(n / 10) + [DigitChar(n % 10)]
  }

  /** What %d prints. */
  function Printed(v: int): seq<char> {
    if v < 0 then ['-'] + Decimal(-v) else Decimal(v)
  }

  /** The digits of a text up to the first that is none in the base, as a number. */
  function Digits(s: seq<char>, base: nat, sofar: nat): nat
    decreases |s|
  {
    if s == [] || DigitValue(s[0]) >= base then sofar
    else Digits(s[1..], base, sofar * base + DigitValue(s[0]))
  }

  /** Base 0: hexadecimal after 0x and a hexadecimal digit, octal after 0, decimal otherwise. */
  function Unsigned(s: seq<char>): nat {
    if |s| > 2 && s[0] == '0' && (s[1] == 'x' || s[1] == 'X') && DigitValue(s[2]) < 16 then Digits(s[2..], 16, 0)
    else if s != [] && s[0] == '0' then Digits(s, 8, 0)
    else Digits(s, 10, 0)
  }

  /** What simple_strtol reads, before it is truncated to a machine word. */
  function Strtol(s: seq<char>): int {
    var negative := s != [] && s[0] == '-';
    var n: int := Unsigned(if negative then s[1..] else s);
    if negative then -n else n
  }

  predicate IsDigit(c: char) {
    '0' <= c <= '9'
  }

  lemma {:induction false} DecimalDigits(n: nat)
    ensures forall i | 0 <= i < |Decimal(n)| :: IsDigit(Decimal(n)[i])
    ensures Decimal(n)[0] == '0' <==> n == 0
  {
    if n >= 10 { DecimalDigits(n / 10); }
  }

  lemma {:induction false} DigitsEnd(s: seq<char>, c: char, base: nat, sofar: nat)
    requires forall i | 0 <= i < |s| :: DigitValue(s[i]) < base
    requires DigitValue(c) < base
    ensures Digits(s + [c], base, sofar) == Digits(s, base, sofar) * base + DigitValue(c)
    decreases |s|
  {
    if s == [] {
      assert [c][1..] == [];
      assert s + [c] == [c];
    } else {
      assert (s + [c])[1..] == s[1..] + [c];
      DigitsEnd(s[1..], c, base, sofar * base + DigitValue(s[0]));
    }
  }

  lemma {:induction false} DecimalReads(n: nat)
    ensures Digits(Decimal(n), 10, 0) == n
  {
    if n < 10 {
      assert [DigitChar(n)][1..] == [];
    } else {
      DecimalReads(n / 10);
      DecimalDigits(n / 10);
      DigitsEnd(Decimal(n / 10), DigitChar(n % 10), 10, 0);
    }
  }

  /** Whatever number is printed is read back. */
  lemma PrintedReads(v: int)
    ensures Strtol(Printed(v)) == v
  {
    var n: nat := if v < 0 then -v else v;
    UnsignedReads(n);
    DecimalDigits(n);
    if v < 0 {
      assert Printed(v)[1..] == Decimal(n);
    } else {
      assert IsDigit(Decimal(n)[0]);
    }
  }

  lemma UnsignedReads(n: nat)
    ensures Unsigned(Decimal(n)) == n
  {
    DecimalReads(n);
    DecimalDigits(n);
    if n == 0 {
      assert Decimal(0) == ['0'] && Decimal(0)[1..] == [];
      assert Digits(['0'], 8, 0) == Digits([], 8, 0);
    }
  }

  // ------------------------------------------------------------------ the other bases

  /** A number in a base. */
  function InBase(n: nat, base: nat): (s: seq<char>)
    requires 2 <= base <= 16
    ensures s != []
    decreases n
  {
    if n < base then [DigitChar(n)]
    else
      Smaller(n, base);
      InBase(n / base, base) + [DigitChar(n % base)]
  }

  lemma Smaller(n: nat, base: nat)
    requires 2 <= base <= n
    ensures n / base < n && n == n / base * base + n % base
  {}

  lemma {:induction false} InBaseReads(n: nat, base: nat)
    requires 2 <= base <= 16
    ensures Digits(InBase(n, base), base, 0) == n && forall i | 0 <= i < |InBase(n, base)| :: DigitValue(InBase(n, base)[i]) < base
    decreases n
  {
    if n < base {
      assert [DigitChar(n)][1..] == [];
    } else {
      Smaller(n, base);
      InBaseReads(n / base, base);
      DigitsEnd(InBase(n / base, base), DigitChar(n % base), base, 0);
    }
  }

  /** So is a number in hexadecimal behind 0x or 0X, and one in octal behind a 0. */
  lemma OtherBasesRead(n: nat)
    ensures Strtol(['0', 'x'] + InBase(n, 16)) == Strtol(['0', 'X'] + InBase(n, 16)) == n
    ensures Strtol(['0'] + InBase(n, 8)) == n
  {
    InBaseReads(n, 16);
    InBaseReads(n, 8);
    assert (['0', 'x'] + InBase(n, 16))[2..] == (['0', 'X'] + InBase(n, 16))[2..] == InBase(n, 16);
    OctalReads(InBase(n, 8));
  }

  lemma OctalReads(s: seq<char>)
    requires s != [] && forall i | 0 <= i < |s| :: DigitValue(s[i]) < 8
    ensures Unsigned(['0'] + s) == Digits(s, 8, 0)
  {
    assert (['0'] + s)[1..] == s;
  }

  function Lower(c: char): char {
    if 'A' <= c <= 'Z' then c + ' ' else c
  }

  predicate SameButCase(s: seq<char>, t: seq<char>) {
    |s| == |t| && forall i | 0 <= i < |s| :: Lower(s[i]) == Lower(t[i])
  }

  lemma {:induction false} CaseOfDigits(s: seq<char>, t: seq<char>, base: nat, sofar: nat)
    requires SameButCase(s, t)
    ensures Digits(s, base, sofar) == Digits(t, base, sofar)
    decreases |s|
  {
    if s != [] {
      assert Lower(s[0]) == Lower(t[0]);
      if DigitValue(s[0]) < base { CaseOfDigits(s[1..], t[1..], base, sofar * base + DigitValue(s[0])); }
    }
  }

  /** Upper case reads like lower case. */
  lemma CaseOfNumbers(s: seq<char>, t: seq<char>)
    requires SameButCase(s, t)
    ensures Strtol(s) == Strtol(t)
  {
    if s != [] {
      assert Lower(s[0]) == Lower(t[0]);
      var a, b := if s[0] == '-' then s[1..] else s, if s[0] == '-' then t[1..] else t;
      CaseOfUnsigned(a, b);
    }
  }

  lemma CaseOfUnsigned(s: seq<char>, t: seq<char>)
    requires SameButCase(s, t)
    ensures Unsigned(s) == Unsigned(t)
  {
    if |s| > 2 {
      assert Lower(s[0]) == Lower(t[0]) && Lower(s[1]) == Lower(t[1]) && Lower(s[2]) == Lower(t[2]);
      CaseOfDigits(s[2..], t[2..], 16, 0);
    }
    if s != [] { assert Lower(s[0]) == Lower(t[0]); }
    CaseOfDigits(s, t, 8, 0);
    CaseOfDigits(s, t, 10, 0);
  }

  /** Nor does case matter to where a text is cut, unless it is cut at a letter. */
  lemma {:induction false} CaseOfParts(s: seq<char>, t: seq<char>, c: char)
    requires SameButCase(s, t) && Lower(c) == c && !('a' <= c <= 'z')
    ensures SameButCase(Before(s, c), Before(t, c))
    ensures Behind(s, c).Some? == Behind(t, c).Some?
    ensures Behind(s, c).Some? ==> SameButCase(Behind(s, c).value, Behind(t, c).value)
    decreases |s|
  {
    if s != [] {
      assert Lower(s[0]) == Lower(t[0]);
      if s[0] != c { CaseOfParts(s[1..], t[1..], c); }
    }
  }

  /** A printed number has nothing in it that text is cut at. */
  lemma PrintedClean(v: int, c: char)
    requires c != '-' && !IsDigit(c)
    ensures c !in Printed(v)
  {
    DecimalDigits(if v < 0 then -v else v);
  }
}

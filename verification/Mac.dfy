/** Hardware addresses as text: printed by the tool (tools/test_app/iwpriv.c), picked by the driver
    (utils/utils.c, utils/iwpriv.c). */
module Mac {
  import opened Basics
  import opened CText
  import Params

  const ETH_ALEN := 6
  const MAC_TEXT := 17

  // ------------------------------------------------------------------ printing

  /** A byte in two hexadecimal digits. */
  function Hex(b: nat): (s: seq<char>)
    requires b < 0x100
    ensures |s| == 2
  {
    [DigitChar(b / 16), DigitChar(b % 16)]
  }

  predicate IsBytes(bytes: seq<nat>) {
    forall i | 0 <= i < |bytes| :: bytes[i] < 0x100
  }

  /** Bytes with colons between them. */
  function Colons(bytes: seq<nat>): (s: seq<char>)
    requires IsBytes(bytes)
    ensures |s| == if bytes == [] then 0 else 3 * |bytes| - 1
  {
    if bytes == [] then []
    else if |bytes| == 1 then Hex(bytes[0])
    else Hex(bytes[0]) + [':'] + Colons(bytes[1..])
  }

  // ------------------------------------------------------------------ picking

  /** hgic_hex2num: what is no digit counts as 0. */
  function HexNum(c: char): (n: nat)
    ensures n < 16
  {
    if DigitValue(c) < 16 then DigitValue(c) else 0
  }

  /** The character at position i, a zero behind the end. */
  function CharAt(b: seq<char>, i: nat): char {
    if i < |b| then b[i] else NUL
  }

  function HexByte(a: char, b: char): (n: nat)
    ensures n < 0x100
  {
    HexNum(a) * 16 + HexNum(b)
  }

  /** The bytes in a text, at most n: each the first two characters of a part between colons; of an
      empty part, the second is the character behind the colon. */
  function Bytes(text: seq<char>, n: nat): (bytes: seq<nat>)
    ensures |bytes| <= n
    decreases n
  {
    if text == [] || n == 0 then []
    else
      var part, rest := Before(text, ':'), Behind(text, ':');
      var a := CharAt(part, 0);
      var b := if part == [] && rest.Some? then CharAt(rest.value, 0) else CharAt(part, 1);
      [HexByte(a, b)] + if rest.None? then [] else Bytes(rest.value, n - 1)
  }

  /** What is in the local buffer: the first 17 characters, and behind them whatever was there. */
  function Window(text: seq<char>, junk: seq<char>): seq<char> {
    if |text| < MAC_TEXT then text else text[..MAC_TEXT] + junk
  }

  function Picked(text: seq<char>, junk: seq<char>): seq<nat> {
    Bytes(Window(text, junk), ETH_ALEN)
  }

  /** Picks an address from the text at a position; junk is the text behind the 17 characters that
      are copied. */
  method PickMacaddr(src: array<char>, at: nat, junk: seq<char>) returns (ok: bool, addr: seq<nat>)
    requires at <= src.Length && NUL !in junk
    ensures addr == Picked(TextAt(src[..], at), junk) && ok == (|addr| == ETH_ALEN)
  {
    var tmp := CopyWindow(src, at, junk);
    addr := PickBytes(tmp, ETH_ALEN);
    ok := |addr| == ETH_ALEN;
  }

  method PickBytes(tmp: array<char>, n: nat) returns (addr: seq<nat>)
    modifies tmp
    ensures addr == old(Bytes(TextAt(tmp[..], 0), n))
  {
    addr := [];
    ghost var all := Bytes(TextAt(tmp[..], 0), n);
    ghost var rest := all;
    var ptr: Option<nat>, left := Some(0), n;
    Ends(all);
    while ptr.Some? && ptr.value < tmp.Length && tmp[ptr.value] != NUL && left > 0
      invariant ptr.Some? ==> ptr.value <= tmp.Length
      invariant rest == Remaining(tmp[..], ptr, left) && all == addr + rest
      decreases left
    {
      var byte;
      byte, ptr, rest := PickByte(tmp, ptr.value, left);
      left := left - 1;
      Associates(addr, byte, rest);
      addr := addr + [byte];
    }
    Ends(addr);
  }

  lemma Ends(a: seq<nat>)
    ensures [] + a == a && a + [] == a
  {}

  /** The bytes still to be read. */
  function Remaining(b: seq<char>, ptr: Option<nat>, n: nat): seq<nat> {
    if ptr.Some? && ptr.value <= |b| then Bytes(TextAt(b, ptr.value), n) else []
  }

  lemma Associates(a: seq<nat>, b: nat, c: seq<nat>)
    ensures a + ([b] + c) == a + [b] + c
  {}

  /** Cuts the text at the next colon and reads the byte in front of it. */
  method PickByte(tmp: array<char>, i: nat, ghost n: nat) returns (byte: nat, ptr: Option<nat>, ghost rest: seq<nat>)
    requires i < tmp.Length && tmp[i] != NUL && n > 0
    modifies tmp
    ensures ptr.Some? ==> ptr.value <= tmp.Length
    ensures rest == Remaining(tmp[..], ptr, n - 1) && old(Remaining(tmp[..], Some(i), n)) == [byte] + rest
  {
    ghost var text := TextAt(tmp[..], i);
    ptr := Cut(tmp, i, ':');
    byte := HexByte(CharAt(tmp[..], i), CharAt(tmp[..], i + 1));
    CutChars(tmp[..], i, text, ptr);
    rest := Remaining(tmp[..], ptr, n - 1);
  }

  /** What hex2byte reads after the cut. */
  lemma CutChars(b: seq<char>, i: nat, text: seq<char>, next: Option<nat>)
    requires i < |b| && TextAt(b, i) == Before(text, ':') && text != []
    requires match Behind(text, ':')
             case None => next == None
             case Some(rest) => next.Some? && i < next.value <= |b| && TextAt(b, next.value) == rest
    requires next.Some? ==> next.value == i + |Before(text, ':')| + 1
    ensures var part, rest := Before(text, ':'), Behind(text, ':');
            && HexNum(CharAt(b, i)) == HexNum(CharAt(part, 0))
            && HexNum(CharAt(b, i + 1)) == HexNum(if part == [] && rest.Some? then CharAt(rest.value, 0) else CharAt(part, 1))
  {
  }

  /** The local buffer after the copy. */
  method CopyWindow(src: array<char>, at: nat, junk: seq<char>) returns (tmp: array<char>)
    requires at <= src.Length && NUL !in junk
    ensures fresh(tmp) && TextAt(tmp[..], 0) == Window(TextAt(src[..], at), junk)
  {
    tmp := new char[MAC_TEXT + |junk| + 1](_ => NUL);
    var i := 0;
    while i < MAC_TEXT
      invariant i <= MAC_TEXT && fresh(tmp)
      invariant forall k | 0 <= k < i :: tmp[k] == CharAt(src[..], at + k)
      invariant forall k | i <= k < tmp.Length :: tmp[k] == NUL
    {
      tmp[i] := if at + i < src.Length then src[at + i] else NUL;
      i := i + 1;
    }
    i := 0;
    while i < |junk|
      invariant i <= |junk| && fresh(tmp)
      invariant forall k | 0 <= k < MAC_TEXT :: tmp[k] == CharAt(src[..], at + k)
      invariant forall k | 0 <= k < i :: tmp[MAC_TEXT + k] == junk[k]
      invariant forall k | MAC_TEXT + i <= k < tmp.Length :: tmp[k] == NUL
    {
      tmp[MAC_TEXT + i] := junk[i];
      i := i + 1;
    }
    WindowText(src[..], at, junk, tmp[..]);
  }

  lemma WindowText(src: seq<char>, at: nat, junk: seq<char>, tmp: seq<char>)
    requires at <= |src| && NUL !in junk && |tmp| == MAC_TEXT + |junk| + 1
    requires forall k | 0 <= k < MAC_TEXT :: tmp[k] == CharAt(src, at + k)
    requires forall k | 0 <= k < |junk| :: tmp[MAC_TEXT + k] == junk[k]
    requires tmp[MAC_TEXT + |junk|] == NUL
    ensures TextAt(tmp, 0) == Window(TextAt(src, at), junk)
  {
    var text := TextAt(src, at);
    TextChars(src, at);
    if |text| < MAC_TEXT {
      assert forall k | 0 <= k < |text| :: tmp[k] == text[k] && text[k] != NUL;
      assert tmp[|text|] == NUL;
      WholeText(tmp, |text|, text);
    } else {
      var all := text[..MAC_TEXT] + junk;
      assert forall k | 0 <= k < |all| :: tmp[k] == all[k];
      WholeText(tmp, |all|, all);
    }
  }

  /** The characters of a text, and the zero or the end behind it. */
  lemma {:induction false} TextChars(b: seq<char>, i: nat)
    requires i <= |b|
    ensures var text := TextAt(b, i);
            && i + |text| <= |b| && (i + |text| < |b| ==> b[i + |text|] == NUL)
            && NUL !in text && forall k | 0 <= k < |text| :: text[k] == b[i + k]
    decreases |b| - i
  {
    if i < |b| && b[i] != NUL { TextChars(b, i + 1); }
  }

  // ------------------------------------------------------------------ round trip

  lemma HexReads(b: nat)
    requires b < 0x100
    ensures HexByte(Hex(b)[0], Hex(b)[1]) == b && ':' !in Hex(b) && ',' !in Hex(b) && ' ' !in Hex(b)
  {
    DigitReads(b / 16);
    DigitReads(b % 16);
  }

  lemma DigitReads(d: nat)
    requires d < 16
    ensures DigitValue(DigitChar(d)) == d && DigitChar(d) != ':' && DigitChar(d) != ',' && DigitChar(d) != ' '
  {}

  /** Printed bytes come back, whatever stands behind the last two digits. */
  lemma {:induction false} ColonsRead(bytes: seq<nat>, junk: seq<char>)
    requires IsBytes(bytes) && bytes != []
    ensures Bytes(Colons(bytes) + junk, |bytes|) == bytes
  {
    HexReads(bytes[0]);
    var h := Hex(bytes[0]);
    if |bytes| == 1 {
      assert Colons(bytes) + junk == h + junk;
      FirstByte(h, junk, 1);
    } else {
      var more := Colons(bytes[1..]) + junk;
      assert Colons(bytes) + junk == h + [':'] + more;
      ByteBeforeColon(h, more, |bytes|);
      ColonsRead(bytes[1..], junk);
      assert [bytes[0]] + bytes[1..] == bytes;
    }
  }

  lemma ByteBeforeColon(h: seq<char>, more: seq<char>, n: nat)
    requires |h| == 2 && ':' !in h && n > 0
    ensures Bytes(h + [':'] + more, n) == [HexByte(h[0], h[1])] + Bytes(more, n - 1)
  {
    BeforeIs(h, ':', more);
  }

  lemma FirstByte(h: seq<char>, junk: seq<char>, n: nat)
    requires |h| == 2 && ':' !in h && n == 1
    ensures Bytes(h + junk, n) == [HexByte(h[0], h[1])]
  {
    var text := h + junk;
    assert text[1..] == [h[1]] + junk && text[1..][1..] == junk;
    assert Before(text, ':') == [h[0]] + Before(text[1..], ':') == [h[0]] + ([h[1]] + Before(junk, ':'));
  }

  /** Any address the tool prints is picked unchanged by the driver. */
  lemma MacRoundTrip(mac: seq<nat>, behind: seq<char>, junk: seq<char>)
    requires |mac| == ETH_ALEN && IsBytes(mac)
    ensures Picked(Colons(mac) + behind, junk) == mac
  {
    var text := Colons(mac) + behind;
    assert text[..MAC_TEXT] == Colons(mac);
    ColonsRead(mac, junk);
  }

  lemma {:induction false} CaseOfBytes(s: seq<char>, t: seq<char>, n: nat)
    requires SameButCase(s, t)
    ensures Bytes(s, n) == Bytes(t, n)
    decreases n
  {
    if s != [] && n > 0 {
      CaseOfParts(s, t, ':');
      var p, q, rest := Before(s, ':'), Before(t, ':'), Behind(s, ':');
      CaseAt(p, q, 0);
      CaseAt(p, q, 1);
      if rest.Some? {
        CaseAt(rest.value, Behind(t, ':').value, 0);
        CaseOfBytes(rest.value, Behind(t, ':').value, n - 1);
      }
    }
  }

  lemma CaseAt(s: seq<char>, t: seq<char>, i: nat)
    requires SameButCase(s, t)
    ensures HexNum(CharAt(s, i)) == HexNum(CharAt(t, i))
  {
    if i < |s| { assert Lower(s[i]) == Lower(t[i]); }
  }

  /** Of an empty part, the first digit of the next part is taken for the second of its own. */
  lemma EmptyPartReads(rest: seq<char>, n: nat)
    requires rest != [] && n > 0
    ensures Bytes([':'] + rest, n) == [HexNum(rest[0])] + Bytes(rest, n - 1)
  {
    BeforeIs([], ':', rest);
    assert [] + [':'] + rest == [':'] + rest;
  }

  /** An address in upper case is picked like one in lower case. */
  lemma CaseDoesNotMatter(text: seq<char>, other: seq<char>, junk: seq<char>)
    requires SameButCase(text, other)
    ensures Picked(text, junk) == Picked(other, junk)
  {
    CaseOfBytes(Window(text, junk), Window(other, junk), ETH_ALEN);
  }

  /** An address goes from the tool's command to the firmware's parameter unchanged. */
  lemma MacCommandRoundTrip(ifname: seq<char>, name: seq<char>, mac: seq<nat>, junk: seq<char>)
    requires ' ' !in ifname && ' ' !in name && '=' !in name
    requires |mac| == ETH_ALEN && IsBytes(mac)
    ensures Params.Parse(Params.Command(ifname, name, Colons(mac))) == Params.Set(name, Colons(mac))
    ensures Picked(Colons(mac), junk) == mac
  {
    ColonsClean(mac);
    Params.CommandParses(ifname, name, Colons(mac));
    MacRoundTrip(mac, [], junk);
    assert Colons(mac) + [] == Colons(mac);
  }

  // ------------------------------------------------------------------ lists of stations

  /** The addresses in a text between commas, up to the first that is none. */
  function Stations(text: seq<char>, junk: seq<char>): seq<seq<nat>>
    decreases |text|
  {
    if text == [] then []
    else
      var mac, rest := Picked(Before(text, ','), junk), Behind(text, ',');
      if |mac| != ETH_ALEN then [] else [mac] + if rest.None? then [] else Stations(rest.value, junk)
  }

  function Flat(macs: seq<seq<nat>>): seq<nat> {
    if macs == [] then [] else macs[0] + Flat(macs[1..])
  }

  /** How many addresses are picked, the last perhaps in vain. */
  function Calls(text: seq<char>, junk: seq<char>): nat
    decreases |text|
  {
    if text == [] then 0
    else
      var rest := Behind(text, ',');
      1 + if |Picked(Before(text, ','), junk)| != ETH_ALEN || rest.None? then 0 else Calls(rest.value, junk)
  }

  /** Collects the addresses in the text at a position, cutting it at the commas, and sends them;
      answer is what the command comes to. Each pick clears and fills six bytes of an array that is as
      long as the text; reach is how far that goes. */
  method SetPairedStas(data: array<char>, at: nat, junk: seq<char>, memory: bool, answer: int)
    returns (ret: int, sent: seq<nat>, reach: nat)
    requires at <= data.Length && NUL !in junk
    modifies data
    ensures var text := old(TextAt(data[..], at));
            if text == [] then ret == -EINVAL && sent == [] && reach == 0
            else if !memory then ret == -ENOMEM && sent == [] && reach == 0
            else ret == answer && sent == Flat(Stations(text, junk)) && reach == ETH_ALEN * Calls(text, junk)
  {
    sent, reach := [], 0;
    if at == data.Length || data[at] == NUL { return -EINVAL, sent, reach; }
    if !memory { return -ENOMEM, sent, reach; }
    ghost var all, calls := Flat(Stations(TextAt(data[..], at), junk)), Calls(TextAt(data[..], at), junk);
    var p: Option<nat>, i: nat := Some(at), 0;
    Ends(all);
    while p.Some? && p.value < data.Length && data[p.value] != NUL
      invariant p.Some? ==> p.value <= data.Length
      invariant all == sent + Collected(data[..], p, junk) && calls == i + CallsLeft(data[..], p, junk)
      invariant reach == ETH_ALEN * i
      decreases Left(data[..], p)
    {
      var ok, mac;
      ok, mac, p := NextStation(data, p.value, junk);
      reach := i * ETH_ALEN + ETH_ALEN;
      if !ok {
        Ends(sent);
        return answer, sent, reach;
      }
      Concat(sent, mac, Collected(data[..], p, junk));
      sent := sent + mac;
      i := i + 1;
    }
    Ends(sent);
    ret := answer;
  }

  /** The addresses still to be collected, how often one is picked, and how much text they are in. */
  function Collected(b: seq<char>, p: Option<nat>, junk: seq<char>): seq<nat> {
    if p.Some? && p.value <= |b| then Flat(Stations(TextAt(b, p.value), junk)) else []
  }

  function CallsLeft(b: seq<char>, p: Option<nat>, junk: seq<char>): nat {
    if p.Some? && p.value <= |b| then Calls(TextAt(b, p.value), junk) else 0
  }

  function Left(b: seq<char>, p: Option<nat>): nat {
    if p.Some? && p.value <= |b| then 1 + |TextAt(b, p.value)| else 0
  }

  lemma Concat(a: seq<nat>, b: seq<nat>, c: seq<nat>)
    ensures a + (b + c) == a + b + c
  {}

  method NextStation(data: array<char>, ptr: nat, junk: seq<char>) returns (ok: bool, mac: seq<nat>, p: Option<nat>)
    requires ptr < data.Length && data[ptr] != NUL && NUL !in junk
    modifies data
    ensures p.Some? ==> p.value <= data.Length
    ensures Left(data[..], p) < old(Left(data[..], Some(ptr)))
    ensures old(Collected(data[..], Some(ptr), junk)) == if ok then mac + Collected(data[..], p, junk) else []
    ensures old(CallsLeft(data[..], Some(ptr), junk)) == 1 + if ok then CallsLeft(data[..], p, junk) else 0
  {
    ghost var text := TextAt(data[..], ptr);
    p := Cut(data, ptr, ',');
    ok, mac := PickMacaddr(data, ptr, junk);
    FirstStation(text, junk);
  }

  lemma FirstStation(text: seq<char>, junk: seq<char>)
    requires text != []
    ensures var mac, rest := Picked(Before(text, ','), junk), Behind(text, ',');
            Flat(Stations(text, junk)) ==
              if |mac| != ETH_ALEN then []
              else mac + if rest.None? then [] else Flat(Stations(rest.value, junk))
  {
    var mac, rest := Picked(Before(text, ','), junk), Behind(text, ',');
    if |mac| == ETH_ALEN {
      var more := if rest.None? then [] else Stations(rest.value, junk);
      assert Stations(text, junk) == [mac] + more && ([mac] + more)[1..] == more;
    }
  }

  /** Addresses with commas between them. */
  function Commas(macs: seq<seq<nat>>): seq<char>
    requires forall i | 0 <= i < |macs| :: IsBytes(macs[i])
  {
    if macs == [] then []
    else if |macs| == 1 then Colons(macs[0])
    else Colons(macs[0]) + [','] + Commas(macs[1..])
  }

  lemma {:induction false} ColonsClean(bytes: seq<nat>)
    requires IsBytes(bytes)
    ensures ',' !in Colons(bytes) && ' ' !in Colons(bytes)
  {
    if bytes != [] {
      HexReads(bytes[0]);
      ColonsClean(bytes[1..]);
    }
  }

  /** A printed list of addresses is collected unchanged. */
  lemma {:induction false} StationsRoundTrip(macs: seq<seq<nat>>, junk: seq<char>)
    requires forall i | 0 <= i < |macs| :: |macs[i]| == ETH_ALEN && IsBytes(macs[i])
    ensures Stations(Commas(macs), junk) == macs
  {
    if macs != [] {
      var first := Colons(macs[0]);
      ColonsClean(macs[0]);
      MacRoundTrip(macs[0], [], junk);
      assert first + [] == first;
      if |macs| == 1 {
        BeforeIs(first, ',', []);
      } else {
        BeforeIs(first, ',', Commas(macs[1..]));
        StationsRoundTrip(macs[1..], junk);
      }
    }
  }

  // ------------------------------------------------------------------ the array of addresses

  lemma {:induction false} BytesShort(text: seq<char>, n: nat)
    ensures |Bytes(text, n)| <= |text|
    decreases n
  {
    if text != [] && n > 0 && Behind(text, ':').Some? { BytesShort(Behind(text, ':').value, n - 1); }
  }

  lemma {:induction false} CutLengths(s: seq<char>, c: char)
    ensures |s| == |Before(s, c)| + if Behind(s, c).Some? then 1 + |Behind(s, c).value| else 0
  {
    if s != [] && s[0] != c { CutLengths(s[1..], c); }
  }

  /** An entry with an address in it has six characters or more. */
  lemma AddressLength(entry: seq<char>, junk: seq<char>)
    requires |Picked(entry, junk)| == ETH_ALEN
    ensures |entry| >= ETH_ALEN
  {
    if |entry| < MAC_TEXT { BytesShort(entry, ETH_ALEN); }
  }

  lemma {:induction false} StationsFit(text: seq<char>, junk: seq<char>)
    ensures ETH_ALEN * |Stations(text, junk)| <= |text|
    ensures |Stations(text, junk)| <= Calls(text, junk) <= |Stations(text, junk)| + 1
    ensures Calls(text, junk) > |Stations(text, junk)| ==> |text| > (ETH_ALEN + 1) * |Stations(text, junk)|
    decreases |text|
  {
    if text != [] && |Picked(Before(text, ','), junk)| == ETH_ALEN {
      AddressLength(Before(text, ','), junk);
      CutLengths(text, ',');
      if Behind(text, ',').Some? { StationsFit(Behind(text, ',').value, junk); }
    }
  }

  /** A text with k addresses and then a refused entry has more than seven characters for each of the
      addresses; the writes end behind the array if it has fewer than six for each entry. */
  ghost predicate Unsafe(n: nat) {
    exists k: nat :: Between(k, n)
  }

  predicate Between(k: nat, n: nat) {
    7 * k < n < 6 * (k + 1)
  }

  /** k addresses in as few characters as can be, and an entry that is none. */
  function Shortest(entry: seq<char>, k: nat, n: nat): (text: seq<char>)
    requires Between(k, n) && |entry| == ETH_ALEN
    ensures |text| == n
  {
    if k == 0 then seq(n, _ => 'x') else entry + [','] + Shortest(entry, k - 1, n - 7)
  }

  lemma ShortAddress(junk: seq<char>)
    ensures |Picked(":::::a", junk)| == ETH_ALEN
  {
    ColonsCount("a", 5);
  }

  /** n colons before a text without one. */
  function Colonned(text: seq<char>, n: nat): seq<char> {
    if n == 0 then text else [':'] + Colonned(text, n - 1)
  }

  lemma {:induction false} ColonsCount(text: seq<char>, n: nat)
    requires text != [] && ':' !in text
    ensures |Bytes(Colonned(text, n), n + 1)| == n + 1
  {
    if n == 0 {
      BeforeIs(text, ':', []);
    } else {
      ColonsCount(text, n - 1);
      assert Behind(Colonned(text, n), ':') == Some(Colonned(text, n - 1));
    }
  }

  lemma RefusedEntry(text: seq<char>, entry: seq<char>, n: nat, junk: seq<char>)
    requires Between(0, n) && |entry| == ETH_ALEN && text == Shortest(entry, 0, n)
    ensures Calls(text, junk) == 1
  {
    BeforeIs(text, ',', []);
    BeforeIs(text, ':', []);
    assert |Picked(text, junk)| == 1;
  }

  lemma OneMoreCall(entry: seq<char>, rest: seq<char>, junk: seq<char>)
    requires ',' !in entry && |Picked(entry, junk)| == ETH_ALEN
    ensures Calls(entry + [','] + rest, junk) == 1 + Calls(rest, junk)
  {
    BeforeIs(entry, ',', rest);
  }

  /** Whatever is counted on texts: with one for the refused entry, and one more for each entry in
      front, it comes to k + 1. */
  lemma {:induction false} CountShortest(calls: seq<char> -> nat, entry: seq<char>, k: nat, n: nat)
    requires Between(k, n) && |entry| == ETH_ALEN
    requires forall m: nat | Between(0, m) :: calls(Shortest(entry, 0, m)) == 1
    requires forall rest: seq<char> :: calls(entry + [','] + rest) == 1 + calls(rest)
    ensures calls(Shortest(entry, k, n)) == k + 1
    decreases k
  {
    if k > 0 { CountShortest(calls, entry, k - 1, n - 7); }
  }

  lemma ShortestReaches(entry: seq<char>, k: nat, n: nat, junk: seq<char>)
    requires Between(k, n) && |entry| == ETH_ALEN && ',' !in entry && |Picked(entry, junk)| == ETH_ALEN
    ensures Calls(Shortest(entry, k, n), junk) == k + 1
  {
    var calls := (t: seq<char>) => Calls(t, junk);
    forall m: nat | Between(0, m) ensures calls(Shortest(entry, 0, m)) == 1 {
      RefusedEntry(Shortest(entry, 0, m), entry, m, junk);
    }
    forall rest: seq<char> ensures calls(entry + [','] + rest) == 1 + calls(rest) {
      OneMoreCall(entry, rest, junk);
    }
    CountShortest(calls, entry, k, n);
    assert calls(Shortest(entry, k, n)) == k + 1;
  }

  /** For texts of n characters the writes always stay inside the array exactly if n is not between
      7 * k and 6 * (k + 1) for any k: not 1 to 5, 8 to 11, 15 to 17, 22, 23 or 29. For those lengths
      there is a text, k times ":::::a," and then letters x, for which they do not. They never end more
      than 5 bytes behind the array. */
  lemma WritesStayInside(n: nat, junk: seq<char>)
    ensures (forall text: seq<char> | |text| == n :: ETH_ALEN * Calls(text, junk) <= |text|) <==> !Unsafe(n)
    ensures Unsafe(n) <==> n in {1, 2, 3, 4, 5, 8, 9, 10, 11, 15, 16, 17, 22, 23, 29}
    ensures forall k: nat | Between(k, n) :: ETH_ALEN * Calls(Shortest(":::::a", k, n), junk) > n
    ensures forall text: seq<char> | |text| == n :: ETH_ALEN * Calls(text, junk) < n + ETH_ALEN
  {
    ShortAddress(junk);
    forall k: nat | Between(k, n)
      ensures ETH_ALEN * Calls(Shortest(":::::a", k, n), junk) > n
    {
      ShortestReaches(":::::a", k, n, junk);
    }
    forall text: seq<char> | |text| == n
      ensures ETH_ALEN * Calls(text, junk) <= n || Between(|Stations(text, junk)|, n)
      ensures ETH_ALEN * Calls(text, junk) < n + ETH_ALEN
    {
      StationsFit(text, junk);
    }
    UnsafeLengths(n);
  }

  lemma UnsafeLengths(n: nat)
    ensures Unsafe(n) <==> n in {1, 2, 3, 4, 5, 8, 9, 10, 11, 15, 16, 17, 22, 23, 29}
  {
    if n < 6 { assert Unsafe(n) <== n > 0 && Between(0, n); }
    assert Between(1, 8) && Between(1, 9) && Between(1, 10) && Between(1, 11);
    assert Between(2, 15) && Between(2, 16) && Between(2, 17);
    assert Between(3, 22) && Between(3, 23) && Between(4, 29);
  }
}

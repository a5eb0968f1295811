/** Parameters as text: the tool prints a command (tools/test_app/iwpriv.c), the driver cuts it up
    (hgic_fmac/procfs.c, utils/iwpriv.c, hgic_def.h, utils/utils.c) and encodes the values
    (utils/fwctrl.c). */
module Params {
  import opened Basics
  import opened Machine
  import opened CText
  import Frames

  const CHAN_LIST_MAX := 32

  // ------------------------------------------------------------------ printing

  /** Numbers separated by commas. */
  function Joined(vals: seq<int>): seq<char> {
    if vals == [] then []
    else if |vals| == 1 then Printed(vals[0])
    else Printed(vals[0]) + [','] + Joined(vals[1..])
  }

  function Command(ifname: seq<char>, name: seq<char>, value: seq<char>): seq<char> {
    ifname + " set " + name + "=" + value
  }

  /** Numbers, each with a comma behind it. */
  function Listed(vals: seq<int>): seq<char> {
    if vals == [] then [] else Printed(vals[0]) + [','] + Listed(vals[1..])
  }

  lemma {:induction false} ListedEnd(vals: seq<int>, v: int)
    ensures Listed(vals + [v]) == Listed(vals) + Printed(v) + [',']
  {
    if vals == [] {
      assert vals + [v] == [v] && [v][1..] == [];
    } else {
      assert (vals + [v])[1..] == vals[1..] + [v];
      ListedEnd(vals[1..], v);
    }
  }

  lemma {:induction false} JoinedIsListed(vals: seq<int>, v: int)
    ensures Joined(vals + [v]) == Listed(vals) + Printed(v)
  {
    if vals == [] {
      assert vals + [v] == [v];
    } else {
      assert (vals + [v])[1..] == vals[1..] + [v];
      JoinedIsListed(vals[1..], v);
    }
  }

  lemma JoinedEnd(vals: seq<int>, v: int)
    ensures Joined(vals + [v]) == (if vals == [] then [] else Joined(vals) + [',']) + Printed(v)
  {
    JoinedIsListed(vals, v);
    if vals != [] {
      var front, last := vals[..|vals| - 1], vals[|vals| - 1];
      assert vals == front + [last];
      JoinedIsListed(front, last);
      ListedEnd(front, last);
    }
  }

  /** Prints the command into a buffer, a number at a time. */
  method SetIntArray(cmd: array<char>, ifname: seq<char>, name: seq<char>, vals: seq<int>)
    requires |Command(ifname, name, Joined(vals))| < cmd.Length
    requires NUL !in ifname && NUL !in name
    modifies cmd
    ensures TextAt(cmd[..], 0) == Command(ifname, name, Joined(vals))
  {
    CommandSplit(ifname, name, Joined(vals));
    var ptr := Append(cmd, 0, Command(ifname, name, []));
    ptr := AppendNumbers(cmd, ptr, vals);
    PrintedHasNoNul(ifname, name, vals);
    WholeText(cmd[..], ptr, Command(ifname, name, Joined(vals)));
  }

  lemma CommandSplit(ifname: seq<char>, name: seq<char>, value: seq<char>)
    ensures Command(ifname, name, value) == [] + Command(ifname, name, []) + value
    ensures |Command(ifname, name, value)| == |Command(ifname, name, [])| + |value|
  {}

  method AppendNumbers(cmd: array<char>, at: nat, vals: seq<int>) returns (ptr: nat)
    requires at + |Joined(vals)| < cmd.Length && cmd[at] == NUL
    modifies cmd
    ensures ptr == at + |Joined(vals)| && cmd[..ptr] == old(cmd[..at]) + Joined(vals) && cmd[ptr] == NUL
  {
    ghost var head := cmd[..at];
    ptr := at;
    var i := 0;
    FirstNone(head, vals);
    while i < |vals|
      invariant i <= |vals| && ptr == at + |Joined(vals[..i])| < cmd.Length
      invariant cmd[..ptr] == head + Joined(vals[..i]) && cmd[ptr] == NUL
    {
      ptr := AppendNumber(cmd, ptr, vals, i, head);
      i := i + 1;
    }
    assert vals[..i] == vals;
  }

  lemma FirstNone(head: seq<char>, vals: seq<int>)
    ensures Joined(vals[..0]) == [] && head + Joined(vals[..0]) == head
  {
    assert vals[..0] == [];
  }

  /** Prints one number behind the others. */
  method AppendNumber(cmd: array<char>, ptr: nat, vals: seq<int>, i: nat, ghost head: seq<char>) returns (end: nat)
    requires i < |vals| && ptr == |head| + |Joined(vals[..i])| && |head| + |Joined(vals)| < cmd.Length
    requires ptr < cmd.Length && cmd[..ptr] == head + Joined(vals[..i])
    modifies cmd
    ensures end == |head| + |Joined(vals[..i + 1])| < cmd.Length
    ensures cmd[..end] == head + Joined(vals[..i + 1]) && cmd[end] == NUL
  {
    NextNumber(head, vals, i);
    end := Append(cmd, ptr, if i == 0 then Printed(vals[i]) else [','] + Printed(vals[i]));
  }

  lemma NextNumber(head: seq<char>, vals: seq<int>, i: nat)
    requires i < |vals|
    ensures var s := if i == 0 then Printed(vals[i]) else [','] + Printed(vals[i]);
            && Joined(vals[..i + 1]) == Joined(vals[..i]) + s
            && head + Joined(vals[..i + 1]) == head + Joined(vals[..i]) + s
            && |Joined(vals[..i]) + s| <= |Joined(vals)|
  {
    assert vals[..i + 1] == vals[..i] + [vals[i]];
    JoinedEnd(vals[..i], vals[i]);
    JoinedPrefix(vals, i + 1);
    Regroup(head, Joined(vals[..i]), Printed(vals[i]));
    if i == 0 { assert vals[..0] == []; }
  }

  lemma Regroup(a: seq<char>, b: seq<char>, c: seq<char>)
    ensures b + [','] + c == b + ([','] + c) && a + (b + ([','] + c)) == a + b + ([','] + c) && a + (b + c) == a + b + c
    ensures [] + c == c
  {}

  lemma {:induction false} JoinedPrefix(vals: seq<int>, i: nat)
    requires i <= |vals|
    ensures |Joined(vals[..i])| <= |Joined(vals)|
    decreases |vals| - i
  {
    if i < |vals| {
      assert vals[..i + 1] == vals[..i] + [vals[i]];
      JoinedEnd(vals[..i], vals[i]);
      JoinedPrefix(vals, i + 1);
    } else {
      assert vals[..i] == vals;
    }
  }

  lemma {:induction false} JoinedClean(vals: seq<int>, c: char)
    requires c != '-' && c != ',' && !IsDigit(c)
    ensures c !in Joined(vals)
  {
    if vals != [] {
      PrintedClean(vals[0], c);
      JoinedClean(vals[1..], c);
    }
  }

  lemma PrintedHasNoNul(ifname: seq<char>, name: seq<char>, vals: seq<int>)
    requires NUL !in ifname && NUL !in name
    ensures NUL !in Command(ifname, name, Joined(vals))
  {
    JoinedClean(vals, NUL);
  }

  /** Up to 32 values of 16 bits take at most 191 characters. */
  lemma {:induction false} JoinedShort(vals: seq<int>)
    requires forall i | 0 <= i < |vals| :: 0 <= vals[i] <= 0xFFFF
    ensures |Joined(vals)| <= 6 * |vals| && (vals != [] ==> |Joined(vals)| < 6 * |vals|)
  {
    if vals != [] {
      DecimalShort(vals[0]);
      JoinedShort(vals[1..]);
    }
  }

  lemma DecimalShort(n: nat)
    requires n <= 0xFFFF
    ensures |Decimal(n)| <= 5
  {
    assert Ten(5) == 100_000;
    DecimalLength(n, 5);
  }

  function Ten(k: nat): nat {
    if k == 0 then 1 else 10 * Ten(k - 1)
  }

  lemma {:induction false} DecimalLength(n: nat, k: nat)
    requires 0 < k && n < Ten(k)
    ensures |Decimal(n)| <= k
  {
    if n >= 10 { DecimalLength(n / 10, k - 1); }
  }

  // ------------------------------------------------------------------ cutting the command

  /** What a written command is: one without a space, one to set a parameter, one to set without a
      value, or another. */
  datatype Parsed = Empty | Set(name: seq<char>, value: seq<char>) | NoValue | Other(cmd: seq<char>)

  function Lower(c: char): char {
    if 'A' <= c <= 'Z' then c - 'A' + 'a' else c
  }

  predicate SameText(a: seq<char>, b: seq<char>) {
    |a| == |b| && forall i | 0 <= i < |a| :: Lower(a[i]) == Lower(b[i])
  }

  function Parse(text: seq<char>): Parsed {
    match Behind(text, ' ')
    case None => Empty
    case Some(rest) =>
      if !SameText(Before(rest, ' '), "set") then Other(Before(rest, ' '))
      else if Behind(rest, ' ').None? then NoValue
      else
        var args := Behind(rest, ' ').value;
        match Behind(args, '=')
        case None => NoValue
        case Some(value) => Set(Before(args, '='), value)
  }

  /** Cuts a written command at its spaces and at the equals sign. */
  method IwprivWrite(text: seq<char>) returns (p: Parsed)
    requires NUL !in text
    ensures p == Parse(text)
  {
    var buf := Copied(text, 32);
    var cmd := Cut(buf, 0, ' ');
    if cmd.None? { return Empty; }
    var args := Cut(buf, cmd.value, ' ');
    var word := TextAt(buf[..], cmd.value);
    if !SameText(word, "set") { return Other(word); }
    if args.None? { return NoValue; }
    TextHasNoNul(buf[..], args.value);
    p := SetProc(TextAt(buf[..], args.value));
  }

  /** Cuts a copy of the arguments at the equals sign. */
  method SetProc(args: seq<char>) returns (p: Parsed)
    requires NUL !in args
    ensures p == match Behind(args, '=')
                 case None => NoValue
                 case Some(value) => Set(Before(args, '='), value)
  {
    var buff := Copied(args, 1);
    var ptr := Cut(buff, 0, '=');
    if ptr.Some? {
      p := Set(TextAt(buff[..], 0), TextAt(buff[..], ptr.value));
    } else {
      p := NoValue;
    }
  }

  /** The driver finds in a printed command the parameter and the value that went into it. */
  lemma CommandParses(ifname: seq<char>, name: seq<char>, value: seq<char>)
    requires ' ' !in ifname && ' ' !in name && '=' !in name && ' ' !in value
    ensures Parse(Command(ifname, name, value)) == Set(name, value)
  {
    var args := name + ['='] + value;
    var rest := "set" + [' '] + args;
    assert Command(ifname, name, value) == ifname + [' '] + rest;
    BeforeIs(ifname, ' ', rest);
    BeforeIs("set", ' ', args);
    BeforeIs(name, '=', value);
  }

  // ------------------------------------------------------------------ numbers

  /** The words between commas. */
  function Words(s: seq<char>): seq<seq<char>>
    decreases |s|
  {
    match Behind(s, ',')
    case None => [s]
    case Some(rest) => [Before(s, ',')] + Words(rest)
  }

  /** The first size numbers, cut to 16 bits. */
  function Picked(words: seq<seq<char>>, size: nat): seq<u16>
    decreases size
  {
    if words == [] || size == 0 then [] else [Low16(Strtol(words[0]))] + Picked(words[1..], size - 1)
  }

  function Low16(v: int): u16 {
    v % 0x1_0000
  }

  function Values(text: seq<char>, size: nat): seq<u16> {
    if text == [] then [] else Picked(Words(text), size)
  }

  /** Reads numbers into an array of zeros, cutting the text at the commas. */
  method PickValues(buf: array<char>, at: nat, vals: array<u16>) returns (argcnt: nat)
    requires at <= buf.Length && forall i | 0 <= i < vals.Length :: vals[i] == 0
    modifies buf, vals
    ensures argcnt <= vals.Length && vals[..argcnt] == Values(old(TextAt(buf[..], at)), vals.Length)
    ensures forall i | argcnt <= i < vals.Length :: vals[i] == 0
  {
    argcnt := 0;
    if at == buf.Length || buf[at] == NUL { return; }
    ghost var all := Values(TextAt(buf[..], at), vals.Length);
    var str: Option<nat> := Some(at);
    while str.Some?
      invariant argcnt <= vals.Length && forall i | argcnt <= i < vals.Length :: vals[i] == 0
      invariant str.Some? ==> str.value <= buf.Length
      invariant all == vals[..argcnt] + (if str.Some? then Picked(Words(TextAt(buf[..], str.value)), vals.Length - argcnt) else [])
      decreases if str.Some? then 1 + |TextAt(buf[..], str.value)| else 0
    {
      var ptr := str.value;
      ghost var text := TextAt(buf[..], ptr);
      str := Cut(buf, ptr, ',');
      if argcnt >= vals.Length { break; }
      var word := TextAt(buf[..], ptr);
      PickedMore(vals[..argcnt], text, vals.Length - argcnt);
      vals[argcnt] := Low16(Strtol(word));
      argcnt := argcnt + 1;
      assert vals[..argcnt] == vals[..argcnt - 1] + [Low16(Strtol(word))];
    }
  }

  lemma PickedMore(before: seq<u16>, text: seq<char>, size: nat)
    requires size > 0
    ensures before + Picked(Words(text), size)
         == before + [Low16(Strtol(Before(text, ',')))]
            + (match Behind(text, ',') case None => [] case Some(rest) => Picked(Words(rest), size - 1))
  {
    match Behind(text, ',')
    case None =>
      NothingBehind(text, ',');
      assert Words(text)[1..] == [];
    case Some(rest) => assert Words(text)[1..] == Words(rest);
  }

  lemma {:induction false} NothingBehind(s: seq<char>, c: char)
    requires Behind(s, c) == None
    ensures Before(s, c) == s
  {
    if s != [] { NothingBehind(s[1..], c); }
  }

  // ------------------------------------------------------------------ the channel list

  /** A count and the values, two bytes each, low byte first. */
  function Encoded(vals: seq<u16>): seq<u8>
    requires |vals| <= 0xFFFF
  {
    Frames.Le16(|vals|) + Bytes(vals)
  }

  function Bytes(vals: seq<u16>): (b: seq<u8>)
    ensures |b| == 2 * |vals|
  {
    if vals == [] then [] else Frames.Le16(vals[0]) + Bytes(vals[1..])
  }

  /** How the device reads it. */
  function Read(b: seq<u8>, n: nat): seq<u16>
    requires |b| >= 2 * n
  {
    if n == 0 then [] else [Frames.GetLe16(b[0], b[1])] + Read(b[2..], n - 1)
  }

  function Decoded(b: seq<u8>): Option<seq<u16>> {
    if |b| < 2 || |b| != 2 + 2 * Frames.GetLe16(b[0], b[1]) then None
    else Some(Read(b[2..], Frames.GetLe16(b[0], b[1])))
  }

  lemma {:induction false} ReadBytes(vals: seq<u16>)
    ensures Read(Bytes(vals), |vals|) == vals
  {
    if vals != [] {
      ReadBytes(vals[1..]);
      ReadFirst(vals[0], Bytes(vals[1..]), |vals| - 1);
      assert vals == [vals[0]] + vals[1..];
    }
  }

  lemma ReadFirst(v: u16, b: seq<u8>, n: nat)
    requires |b| == 2 * n
    ensures Read(Frames.Le16(v) + b, n + 1) == [v] + Read(b, n)
  {
    Frames.Le16RoundTrip(v);
    assert (Frames.Le16(v) + b)[2..] == b;
  }

  lemma DecodedEncoded(vals: seq<u16>)
    requires |vals| <= 0xFFFF
    ensures Decoded(Encoded(vals)) == Some(vals)
  {
    Frames.Le16RoundTrip(|vals|);
    assert Encoded(vals)[2..] == Bytes(vals);
    ReadBytes(vals);
  }

  lemma {:induction false} BytesEnd(vals: seq<u16>, v: u16)
    ensures Bytes(vals + [v]) == Bytes(vals) + Frames.Le16(v)
  {
    if vals == [] {
      assert vals + [v] == [v];
      assert [v][1..] == [];
    } else {
      assert (vals + [v])[1..] == vals[1..] + [v];
      BytesEnd(vals[1..], v);
    }
  }

  /** Fills the buffer that goes to the firmware. */
  method ChanListBytes(vals: array<u16>, cnt: nat) returns (buf: array<u8>)
    requires cnt <= vals.Length <= 0xFFFF
    ensures fresh(buf) && buf[..] == Encoded(vals[..cnt])
  {
    buf := new u8[(1 + cnt) * 2];
    PutLe16(buf, 0, cnt);
    var i := 0;
    while i < cnt
      invariant i <= cnt && buf[..2 * i + 2] == Frames.Le16(cnt) + Bytes(vals[..i])
    {
      PutLe16(buf, (i + 1) * 2, vals[i]);
      assert vals[..i + 1] == vals[..i] + [vals[i]];
      BytesEnd(vals[..i], vals[i]);
      i := i + 1;
    }
    assert buf[..2 * cnt + 2] == buf[..];
  }

  method PutLe16(buf: array<u8>, at: nat, v: u16)
    requires at + 2 <= buf.Length
    modifies buf
    ensures buf[..at] == old(buf[..at]) && buf[..at + 2] == old(buf[..at]) + Frames.Le16(v)
  {
    buf[at] := Byte(v);
    buf[at + 1] := Byte(v / 0x100);
    Frames.Le16RoundTrip(v);
  }

  /** Sets the channel list from the text at the position: no text is refused. answer is what the
      command to the firmware comes to. */
  method SetChanList(data: array<char>, at: nat, memory: bool, answer: int) returns (ret: int, sent: seq<u8>)
    requires at <= data.Length
    modifies data
    ensures var text := old(TextAt(data[..], at));
            if text == [] then ret == -EINVAL && sent == []
            else if !memory then ret == -1 && sent == []
            else ret == answer && |Values(text, CHAN_LIST_MAX)| <= CHAN_LIST_MAX && sent == Encoded(Values(text, CHAN_LIST_MAX))
  {
    if at == data.Length || data[at] == NUL { return -EINVAL, []; }
    var vals := new u16[CHAN_LIST_MAX](_ => 0);
    var argcnt := PickValues(data, at, vals);
    if !memory { return -1, []; }
    var buf := ChanListBytes(vals, argcnt);
    ret, sent := answer, buf[..];
  }

  lemma {:induction false} WordsJoined(vals: seq<int>)
    requires vals != []
    ensures |Words(Joined(vals))| == |vals| && forall i | 0 <= i < |vals| :: Words(Joined(vals))[i] == Printed(vals[i])
  {
    PrintedClean(vals[0], ',');
    if |vals| == 1 {
      BeforeIs(Printed(vals[0]), ',', []);
    } else {
      BeforeIs(Printed(vals[0]), ',', Joined(vals[1..]));
      WordsJoined(vals[1..]);
      assert Words(Joined(vals)) == [Printed(vals[0])] + Words(Joined(vals[1..]));
    }
  }

  lemma {:induction false} PickedPrinted(words: seq<seq<char>>, vals: seq<int>, size: nat)
    requires |words| == |vals| && forall i | 0 <= i < |vals| :: words[i] == Printed(vals[i])
    ensures |Picked(words, size)| == (if |vals| < size then |vals| else size)
    ensures forall i | 0 <= i < |Picked(words, size)| :: Picked(words, size)[i] == Low16(vals[i])
    decreases size
  {
    if words != [] && size > 0 {
      PrintedReads(vals[0]);
      assert forall i | 0 <= i < |vals| - 1 :: words[1..][i] == Printed(vals[1..][i]);
      PickedPrinted(words[1..], vals[1..], size - 1);
    }
  }

  /** What the driver picks from printed numbers: the first of them, to 16 bits. */
  lemma ValuesOfJoined(vals: seq<int>, size: nat)
    requires vals != []
    ensures var picked := Values(Joined(vals), size);
            && |picked| == (if |vals| < size then |vals| else size)
            && forall i | 0 <= i < |picked| :: picked[i] == vals[i] % 0x1_0000
  {
    WordsJoined(vals);
    PickedPrinted(Words(Joined(vals)), vals, size);
    assert Joined(vals) != [];
  }

  /** 1 to 32 values of 16 bits, printed by the tool, reach the firmware unchanged. */
  lemma ChanListRoundTrip(ifname: seq<char>, name: seq<char>, vals: seq<int>)
    requires ' ' !in ifname && ' ' !in name && '=' !in name && 1 <= |vals| <= 32
    requires forall i | 0 <= i < |vals| :: 0 <= vals[i] <= 0xFFFF
    ensures Parse(Command(ifname, name, Joined(vals))) == Set(name, Joined(vals))
    ensures Values(Joined(vals), CHAN_LIST_MAX) == vals
    ensures Decoded(Encoded(vals)) == Some(vals)
  {
    JoinedClean(vals, ' ');
    CommandParses(ifname, name, Joined(vals));
    ValuesUnchanged(vals);
    DecodedEncoded(vals);
  }

  lemma ValuesUnchanged(vals: seq<int>)
    requires 1 <= |vals| <= CHAN_LIST_MAX && forall i | 0 <= i < |vals| :: 0 <= vals[i] <= 0xFFFF
    ensures Values(Joined(vals), CHAN_LIST_MAX) == vals
  {
    var picked := Values(Joined(vals), CHAN_LIST_MAX);
    ValuesOfJoined(vals, CHAN_LIST_MAX);
    forall i | 0 <= i < |vals|
      ensures picked[i] == vals[i]
    {
      Low16Small(vals[i]);
    }
  }

  lemma Low16Small(v: int)
    requires 0 <= v <= 0xFFFF
    ensures Low16(v) == v
  {}
}

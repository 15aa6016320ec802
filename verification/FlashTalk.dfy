/** The messages between the flash driver and the device, byte by byte: lines, the
    data line behind a program command, and what becomes of it when the command is
    refused. */
module FlashTalk {
  import opened Basics
  import opened FlashLayout
  import opened FlashChip

  const LF: Byte := 10
  const CR: Byte := 13
  const SP: Byte := 32
  const COLON: Byte := 58

  // ----- the device --------------------------------------------------------

  /** What `sscanf` reads with "%x %u"; a number it cannot read is left alone. */
  datatype Numbers = Numbers(first: Maybe<U32>, second: Maybe<U32>)

  function Or(n: Maybe<U32>, stale: U32): U32 { if n.Some? then n.value else stale }

  /** The offset of the first line feed, or the end. */
  function LineEnd(s: seq<Byte>): (e: nat)
    ensures e <= |s| && (e < |s| ==> s[e] == LF) && LF !in s[..e]
  {
    if s == [] || s[0] == LF then 0 else
      var e := LineEnd(s[1..]);
      assert s[..1 + e] == [s[0]] + s[1..][..e];
      1 + e
  }

  predicate Starts(msg: seq<Byte>, c: Byte) { |msg| >= 2 && msg[0] == c && msg[1] == COLON }

  /** The thread between messages: the chip and the last address and size. */
  datatype Talk = Talk(chip: Chip, addr: U32, size: U32)

  /** The data line behind an accepted program command. */
  datatype Data = Missing | Untagged(rest: seq<Byte>) | Tagged(data: seq<Byte>, rest: seq<Byte>)

  /** Everything up to and including a line feed is dropped. */
  function DropLine(s: seq<Byte>): Data {
    if LineEnd(s) == |s| then Missing else Untagged(s[LineEnd(s) + 1..])
  }

  function FindData(s: seq<Byte>, size: U32): (d: Data)
    ensures d.Untagged? || d.Tagged? ==> |d.rest| < |s|
    ensures d.Tagged? ==> |d.data| == 4 * size
  {
    if s == [] then Missing
    else if s[0] != 100 /* d */ then DropLine(s[1..])
    else if |s| == 1 then Missing
    else if s[1] != COLON then DropLine(s[2..])
    else if |s| < 2 + 4 * size then Missing
    else
      var tail := s[2 + 4 * size..];
      if LineEnd(tail) == |tail| then Missing else Tagged(s[2..2 + 4 * size], tail[LineEnd(tail) + 1..])
  }

  datatype Round = Waits | Sticks(talk: Talk, rest: seq<Byte>) | Done(talk: Talk, reply: seq<Byte>, rest: seq<Byte>)

  ghost predicate Random(rnd: nat -> nat -> seq<Byte>) { forall k: nat, n: nat :: |rnd(k)(n)| == 4 * n }

  lemma RandomAt(rnd: nat -> nat -> seq<Byte>, k: nat)
    requires Random(rnd)
    ensures forall n: nat :: |rnd(k)(n)| == 4 * n
  {
  }

  /** One message: a line, and for a program command that passes its checks the
      data line. Any line that is no erase and no program is a read; one that does
      not start with "r:" reads with the last address and size. */
  ghost function OneRound(l: Layout, scan: seq<Byte> -> Numbers, noise: nat -> seq<Byte>, t: Talk, input: seq<Byte>): (r: Round)
    requires Paired(l) && forall n: nat :: |noise(n)| == 4 * n
    ensures r.Done? ==> |r.rest| < |input|
  {
    var e := LineEnd(input);
    if e == |input| then Waits else
      var msg, rest := input[..e + 1], input[e + 1..];
      if Starts(msg, 101) /* e */ then
        var addr := Or(scan(msg[2..]).first, t.addr);
        var c := Erase(addr);
        Done(Talk(Next(l, t.chip, c), EraseAddr(addr), t.size), Reply(l, t.chip, c).value, rest)
      else if Starts(msg, 119) /* w */ then
        var n := scan(msg[2..]);
        OnProgram(l, Talk(t.chip, Or(n.first, t.addr), Or(n.second, t.size)), rest)
      else
        var n := if Starts(msg, 114) /* r */ then scan(msg[2..]) else Numbers(None, None);
        OnRead(l, Talk(t.chip, Or(n.first, t.addr), Or(n.second, t.size)), noise, rest)
  }

  ghost function OnProgram(l: Layout, t: Talk, rest: seq<Byte>): (r: Round)
    requires Paired(l)
    ensures r.Done? ==> |r.rest| <= |rest|
  {
    if !Allowed(l, t.chip.known, t.addr, t.size) then Done(t, [1], rest)
    else match FindData(rest, t.size)
      case Missing => Waits
      case Untagged(after) => Done(t, [1], after)
      case Tagged(data, after) => Done(t.(chip := Next(l, t.chip, Program(t.addr, t.size, data))), [0], after)
  }

  ghost function OnRead(l: Layout, t: Talk, noise: nat -> seq<Byte>, rest: seq<Byte>): (r: Round)
    requires Paired(l)
    ensures r.Done? ==> r.rest == rest
  {
    match Reply(l, t.chip, Read(t.addr, t.size, noise(t.size)))
    case None => Sticks(t, rest)
    case Some(b) => Done(t, b, rest)
  }

  /** All messages of the input: the replies, the bytes not read, whether a read
      never ends, and the thread at that point. */
  datatype Outcome = Outcome(replies: seq<seq<Byte>>, rest: seq<Byte>, stuck: bool, talk: Talk)

  function Prepend(b: seq<seq<Byte>>, o: Outcome): Outcome { o.(replies := b + o.replies) }

  ghost function Listen(l: Layout, scan: seq<Byte> -> Numbers, rnd: nat -> nat -> seq<Byte>, k: nat, t: Talk, input: seq<Byte>): Outcome
    requires Paired(l) && Random(rnd)
    decreases |input|
  {
    RandomAt(rnd, k);
    match OneRound(l, scan, rnd(k), t, input)
    case Waits => Outcome([], input, false, t)
    case Sticks(t', rest) => Outcome([], rest, true, t')
    case Done(t', b, rest) => Prepend([b], Listen(l, scan, rnd, k + 1, t', rest))
  }

  lemma ListenStep(l: Layout, scan: seq<Byte> -> Numbers, rnd: nat -> nat -> seq<Byte>, k: nat, t: Talk, input: seq<Byte>)
    requires Paired(l) && Random(rnd) && forall n: nat :: |rnd(k)(n)| == 4 * n
    ensures var r := OneRound(l, scan, rnd(k), t, input);
      Listen(l, scan, rnd, k, t, input) == match r
        case Waits => Outcome([], input, false, t)
        case Sticks(t', rest) => Outcome([], rest, true, t')
        case Done(t', b, rest) => Prepend([b], Listen(l, scan, rnd, k + 1, t', rest))
    ensures OneRound(l, scan, rnd(k), t, input).Done? ==> |OneRound(l, scan, rnd(k), t, input).rest| < |input|
  {
    hide OneRound;
  }

  lemma Prepended(b: seq<seq<Byte>>, o: Outcome)
    ensures b == [] ==> Prepend(b, o) == o
  {
  }

  lemma Appended(b: seq<seq<Byte>>, r: seq<Byte>, o: Outcome)
    ensures Prepend(b, Prepend([r], o)) == Prepend(b + [r], o)
  {
    assert b + ([r] + o.replies) == (b + [r]) + o.replies;
  }
}

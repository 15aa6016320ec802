/** Blocks of header lines, in a message's head or in the trailer of a chunked body:
    which are taken, and what they tell. */
module HttpLines {
  import opened Basics
  import opened HttpTypes
  import opened HttpAct
  import opened HttpRun
  import opened HttpInvariant
  import opened HttpSkip
  import opened HttpNames
  import opened HttpHeaders
  import opened HttpFraming
  import opened HttpConnection

  predicate AllLines(hs: seq<Header>) { forall i :: 0 <= i < |hs| ==> HeaderOk(hs[i]) }

  /** What a header is about. */
  datatype Sort = Connecting | Switching | Coding | Counting | Plainly

  function SortOf(name: seq<Byte>): Sort {
    var t := Lowered(name);
    if t == CONNECTION || t == PROXY_CONNECTION then Connecting
    else if t == UPGRADE then Switching
    else if t == TRANSFER_ENCODING then Coding
    else if t == CONTENT_LENGTH then Counting
    else Plainly
  }

  predicate Counts(h: Header) { SortOf(h.name).Counting? }

  predicate Codes(h: Header) { SortOf(h.name).Coding? && ChunkedValue(h.value) }

  /** A header that is taken: only a Content-Length can be refused, for its number or
      because there was one already. */
  predicate Fine(counted: bool, h: Header) { HeaderOk(h) && (Counts(h) ==> !counted && LengthTaken(h.value)) }

  predicate AllFine(counted: bool, hs: seq<Header>)
    decreases |hs|
  {
    hs == [] || (Fine(counted, hs[0]) && AllFine(counted || Counts(hs[0]), hs[1..]))
  }

  /** The flags that a header leaves, and the length. */
  function HeaderFlags(f: Flags, h: Header): Flags {
    match SortOf(h.name)
    case Connecting => ConnectionFlags(f, h.value)
    case Switching => if h.value != [] then f.(upgrade := true) else f
    case Coding => if ChunkedValue(h.value) then f.(chunked := true) else f
    case Counting => f.(contentLength := true)
    case Plainly => f
  }

  function HeaderLength(n: nat, h: Header): nat { if Counts(h) && LengthTaken(h.value) then LengthOf(h.value) else n }

  function HeadersFlags(f: Flags, hs: seq<Header>): Flags
    decreases |hs|
  {
    if hs == [] then f else HeadersFlags(HeaderFlags(f, hs[0]), hs[1..])
  }

  function HeadersLength(n: nat, hs: seq<Header>): nat
    decreases |hs|
  {
    if hs == [] then n else HeadersLength(HeaderLength(n, hs[0]), hs[1..])
  }

  function HeadersSize(hs: seq<Header>): nat {
    if hs == [] then 0 else HeaderSize(hs[0]) + HeadersSize(hs[1..])
  }

  function HeadersBytes(hs: seq<Header>, rest: seq<Byte>): seq<Byte> {
    if hs == [] then rest else HeaderBytes(hs[0], HeadersBytes(hs[1..], rest))
  }

  function HeadersEvents(hs: seq<Header>): seq<Event> {
    if hs == [] then [] else HeaderEvents(hs[0]) + HeadersEvents(hs[1..])
  }

  /** The order of the tests does not matter. */
  lemma SortsApart(name: seq<Byte>)
    ensures SortOf(name).Coding? <==> Lowered(name) == TRANSFER_ENCODING
    ensures SortOf(name).Counting? <==> Lowered(name) == CONTENT_LENGTH
  {
    hide Lowered;
    assert UPGRADE[0] == 117 && CONNECTION[3] == 110 && PROXY_CONNECTION[0] == 112 && TRANSFER_ENCODING[0] == 116;
    assert CONNECTION[0] == 99 && CONTENT_LENGTH[0] == 99 && CONTENT_LENGTH[3] == 116;
  }

  /** Header lines start with a name, never with white space. */
  lemma {:induction false} HeadersStart(hs: seq<Header>, rest: seq<Byte>)
    requires AllLines(hs) && LineStarts(rest)
    ensures LineStarts(HeadersBytes(hs, rest))
  {
    hide HeaderOk;
    if hs != [] {
      assert HeaderOk(hs[0]);
      HeaderStarts(hs[0], HeadersBytes(hs[1..], rest));
    }
  }

  lemma HeaderStarts(h: Header, rest: seq<Byte>)
    requires HeaderOk(h)
    ensures LineStarts(HeaderBytes(h, rest))
  {
    assert HeaderBytes(h, rest)[0] == h.name[0];
    assert Token(h.name[0]) != 0;
  }

  lemma {:induction false} FineLines(counted: bool, hs: seq<Header>)
    requires AllFine(counted, hs)
    ensures AllLines(hs)
    decreases |hs|
  {
    hide Counts;
    if hs != [] {
      FineLines(counted || Counts(hs[0]), hs[1..]);
      forall i | 0 <= i < |hs|
        ensures HeaderOk(hs[i])
      {
        assert i > 0 ==> hs[i] == hs[1..][i - 1];
      }
    }
  }

  // ----- an Upgrade header -------------------------------------------------

  predicate UpgradeHeader(h: Header) { HeaderOk(h) && Lowered(h.name) == UPGRADE }

  lemma UpgradeName(h: Header)
    requires UpgradeHeader(h)
    ensures AfterNameBytes(h.name).hs.HUpgrade?
  {
    SpecialNames(h.name);
  }

  lemma UpgradeValue(p: Parser, h: Header)
    requires UpgradeHeader(h) && h.value != []
    ensures OnValueStart(Named(p, h.name), h.value[0]).out.Go?
    ensures ValueScan(p, h) == Scan(General, 0, p.flags.(upgrade := true), p.length)
  {
    hide AfterNameBytes, ValueRun, Lowered;
    UpgradeName(h);
    var q := Valued(Named(p, h.name), h.value[0]);
    assert ScanOf(q) == Scan(General, 0, p.flags.(upgrade := true), p.length);
    NoValue(p.lenient, ScanOf(q));
    ValueRunGeneral(p.lenient, ScanOf(q), [], h.value[1..]);
    assert [] + h.value[1..] == h.value[1..];
  }

  lemma InvLine(p: Parser, q: Parser)
    requires Inv(p) && p.state == HeaderFieldStart && p.flags.contentLength == q.flags.contentLength && p.flags.trailing == q.flags.trailing
    requires q == p.(hs := q.hs, index := q.index, nread := q.nread, flags := q.flags)
    ensures Inv(q)
  {
  }

  lemma UpgradeRuns(max: nat, p: Parser, log: seq<Event>, h: Header, rest: seq<Byte>) returns (q: Parser)
    requires Inv(p) && p.state == HeaderFieldStart && UpgradeHeader(h) && LineStarts(rest) && NotField(log)
    requires p.nread + HeaderSize(h) <= max < MOD32 - 1
    ensures Run(max, p, log, HeaderBytes(h, rest)) == Run(max, q, log + HeaderEvents(h), rest)
    ensures q == p.(hs := q.hs, index := q.index, nread := p.nread + HeaderSize(h),
                    flags := if h.value == [] then p.flags else p.flags.(upgrade := true)) && Inv(q)
  {
    hide Run, OnValueStart, ValueScan, Lowered, AfterNameBytes, Inv;
    UpgradeName(h);
    if h.value == [] {
      EmptyHeaderRuns(max, p, log, h, rest);
      q := Finished(Named(p, h.name)).(nread := p.nread + HeaderSize(h));
    } else {
      UpgradeValue(p, h);
      ValuedHeaderRuns(max, p, log, h, rest);
      q := AfterLine(p, h, ValueScan(p, h));
    }
    InvLine(p, q);
  }

  // ----- any header, and blocks of them ------------------------------------

  /** A line that is taken, whatever its name. */
  lemma LineRuns(max: nat, p: Parser, log: seq<Event>, h: Header, rest: seq<Byte>) returns (q: Parser)
    requires Inv(p) && p.state == HeaderFieldStart && Fine(p.flags.contentLength, h) && LineStarts(rest) && NotField(log)
    requires p.nread + HeaderSize(h) <= max < MOD32 - 1
    ensures Run(max, p, log, HeaderBytes(h, rest)) == Run(max, q, log + HeaderEvents(h), rest)
    ensures q == p.(hs := q.hs, index := q.index, nread := p.nread + HeaderSize(h), flags := HeaderFlags(p.flags, h),
                    length := HeaderLength(p.length, h)) && Inv(q)
  {
    hide Run, Lowered, HeaderOk, Inv, HeaderBytes, HeaderSize, ConnectionFlags, ChunkedValue, LengthTaken, LengthOf;
    match SortOf(h.name) {
      case Connecting => q := ConnectionRuns(max, p, log, h, rest);
      case Switching => q := UpgradeRuns(max, p, log, h, rest);
      case Coding => q := EncodingRuns(max, p, log, h, rest);
      case Counting => q := LengthRuns(max, p, log, h, rest);
      case Plainly => q := PlainRuns(max, p, log, h, rest);
    }
  }

  /** A block of lines that are taken: each is reported as it stands, and what they
      tell is told one after the other. */
  lemma {:induction false} LinesRun(max: nat, p: Parser, log: seq<Event>, hs: seq<Header>, rest: seq<Byte>) returns (q: Parser)
    requires Inv(p) && p.state == HeaderFieldStart && AllFine(p.flags.contentLength, hs) && LineStarts(rest) && NotField(log)
    requires p.nread + HeadersSize(hs) <= max < MOD32 - 1
    ensures Run(max, p, log, HeadersBytes(hs, rest)) == Run(max, q, log + HeadersEvents(hs), rest)
    ensures q == p.(hs := q.hs, index := q.index, nread := p.nread + HeadersSize(hs), flags := HeadersFlags(p.flags, hs),
                    length := HeadersLength(p.length, hs)) && Inv(q)
    ensures NotField(log + HeadersEvents(hs))
    decreases |hs|
  {
    hide Run, Fine, Inv, HeaderBytes, HeaderSize, HeaderFlags, HeaderLength, Counts;
    if hs == [] {
      assert log + HeadersEvents(hs) == log;
      q := p;
    } else {
      var tail := HeadersBytes(hs[1..], rest);
      FineLines(p.flags.contentLength || Counts(hs[0]), hs[1..]);
      HeadersStart(hs[1..], rest);
      var q1 := LineRuns(max, p, log, hs[0], tail);
      CountedNext(p.flags, hs[0]);
      var log1 := log + HeaderEvents(hs[0]);
      q := LinesRun(max, q1, log1, hs[1..], rest);
      assert log1 + HeadersEvents(hs[1..]) == log + HeadersEvents(hs);
    }
  }

  /** The error at the first line that is not. */
  function LinesError(f: Flags, hs: seq<Header>): Failure
    requires !AllFine(f.contentLength, hs)
    decreases |hs|
  {
    if !Fine(f.contentLength, hs[0]) then LengthError(f, hs[0].value)
    else
      CountedNext(f, hs[0]);
      LinesError(HeaderFlags(f, hs[0]), hs[1..])
  }

  /** Any other block is refused. */
  lemma {:induction false} LinesRefused(max: nat, p: Parser, log: seq<Event>, hs: seq<Header>, rest: seq<Byte>)
    requires Inv(p) && p.state == HeaderFieldStart && AllLines(hs) && !AllFine(p.flags.contentLength, hs) && LineStarts(rest) && NotField(log)
    requires p.nread + HeadersSize(hs) < max < MOD32 - 1
    ensures var r := Run(max, p, log, HeadersBytes(hs, rest)); r.Broken? && r.error == LinesError(p.flags, hs)
    decreases |hs|
  {
    hide Run, Inv, HeaderBytes, HeaderSize, HeaderFlags, HeaderLength, LengthTaken, HeaderOk, Lowered, LengthError;
    var tail := HeadersBytes(hs[1..], rest);
    HeadersStart(hs[1..], rest);
    assert HeaderOk(hs[0]);
    if Fine(p.flags.contentLength, hs[0]) {
      var q1 := LineRuns(max, p, log, hs[0], tail);
      CountedNext(p.flags, hs[0]);
      LinesRefused(max, q1, log + HeaderEvents(hs[0]), hs[1..], rest);
    } else {
      SortsApart(hs[0].name);
      LengthRefused(max, p, log, hs[0], tail);
    }
  }

  // ----- what the lines tell about the body --------------------------------

  /** What a line does to the flags that frame the body. */
  lemma HeaderTells(f: Flags, h: Header)
    ensures var g := HeaderFlags(f, h);
      && g.trailing == f.trailing && g.skipBody == f.skipBody
      && (g.chunked <==> f.chunked || Codes(h)) && (g.contentLength <==> f.contentLength || Counts(h))
  {
    hide SortOf, ConnectionFlags, ChunkedValue;
    match SortOf(h.name)
    case Connecting => ListTells(f, h.value);
    case Switching =>
    case Coding =>
    case Counting =>
    case Plainly =>
  }

  lemma ListTells(f: Flags, value: seq<Byte>)
    ensures SameFraming(f, ConnectionFlags(f, value))
  {
    hide FlagsAfter, Elements;
    FlagsFrame(f, Fresh, Elements(value), true);
  }

  lemma CountedNext(f: Flags, h: Header)
    ensures HeaderFlags(f, h).contentLength <==> f.contentLength || Counts(h)
  {
    HeaderTells(f, h);
  }

  /** A body is chunked if and only if a line says so, and counted if and only if a
      line counts it. */
  lemma {:induction false} HeadersTell(f: Flags, hs: seq<Header>)
    ensures var g := HeadersFlags(f, hs);
      && g.trailing == f.trailing && g.skipBody == f.skipBody
      && (g.chunked <==> f.chunked || exists i :: 0 <= i < |hs| && Codes(hs[i]))
      && (g.contentLength <==> f.contentLength || exists i :: 0 <= i < |hs| && Counts(hs[i]))
    decreases |hs|
  {
    hide HeaderFlags, Codes, Counts;
    if hs != [] {
      HeaderTells(f, hs[0]);
      HeadersTell(HeaderFlags(f, hs[0]), hs[1..]);
      assert forall i :: 1 <= i < |hs| ==> hs[i] == hs[1..][i - 1];
      assert forall i :: 0 <= i < |hs| - 1 ==> hs[1..][i] == hs[i + 1];
    }
  }

  /** Without a line that counts the body, the length stays. */
  lemma {:induction false} LengthStays(f: Flags, n: nat, hs: seq<Header>)
    requires !HeadersFlags(f, hs).contentLength
    ensures HeadersLength(n, hs) == n
    decreases |hs|
  {
    hide HeaderFlags, Counts;
    if hs != [] {
      HeadersTell(HeaderFlags(f, hs[0]), hs[1..]);
      CountedNext(f, hs[0]);
      LengthStays(HeaderFlags(f, hs[0]), n, hs[1..]);
    }
  }
}

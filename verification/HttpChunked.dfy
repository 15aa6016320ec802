/** Chunked bodies: what is sent in the chunked coding of section 4.1 of RFC
    7230 is what the callbacks deliver. */
module HttpChunked {
  import opened Basics
  import opened HttpTypes
  import opened HttpAct
  import opened HttpRun
  import opened HttpInvariant
  import opened HttpSkip
  import opened HttpSteps
  import opened HttpLength
  import opened HttpHeaders
  import opened HttpLines

  /** A chunk as written: its size in hexadecimal, an extension and its data. */
  datatype Chunk = Chunk(size: seq<Byte>, ext: seq<Byte>, data: seq<Byte>)

  /** The last chunk, of size zero, with the trailer fields; the empty line behind
      them may end in LF alone. */
  datatype LastChunk = LastChunk(size: seq<Byte>, ext: seq<Byte>, trailer: seq<Header>, bare: bool)

  predicate HexDigits(w: seq<Byte>) { forall i :: 0 <= i < |w| ==> IsHex(w[i]) }

  predicate NoCr(w: seq<Byte>) { forall i :: 0 <= i < |w| ==> w[i] != CR }

  /** Empty, or a ';' or a space and then anything up to the end of the line. */
  predicate Extension(ext: seq<Byte>) { ext == [] || ((ext[0] == 59 || ext[0] == SP) && NoCr(ext)) }

  lemma HexIsSize(w: seq<Byte>)
    requires HexDigits(w)
    ensures SizeBytes(w)
  {
  }

  function SizeOf(size: seq<Byte>): nat
    requires HexDigits(size)
  {
    HexIsSize(size);
    Number(16, 0, size)
  }

  /** A size line for `n` bytes that fits the header limit and the counter. */
  predicate SizeLine(max: nat, size: seq<Byte>, ext: seq<Byte>, n: nat) {
    && size != [] && HexDigits(size) && Extension(ext)
    && |size| + |ext| + 2 <= max < MOD32 - 1
    && SizeOf(size) == n < MOD64 - 16
  }

  predicate ChunkOk(max: nat, c: Chunk) { c.data != [] && SizeLine(max, c.size, c.ext, |c.data|) }

  // ----- the wire format, each part followed by `rest` ---------------------

  function LineBytes(size: seq<Byte>, ext: seq<Byte>, rest: seq<Byte>): seq<Byte> {
    size + (ext + ([CR] + ([LF] + rest)))
  }

  function ChunkBytes(c: Chunk, rest: seq<Byte>): seq<Byte> {
    LineBytes(c.size, c.ext, c.data + ([CR] + ([LF] + rest)))
  }

  /** Chunks, the last chunk, the trailer fields and an empty line. */
  function BodyOf(cs: seq<Chunk>, last: LastChunk, rest: seq<Byte>): seq<Byte> {
    if cs == [] then LineBytes(last.size, last.ext, HeadersBytes(last.trailer, Ending(last.bare, rest)))
    else ChunkBytes(cs[0], BodyOf(cs[1..], last, rest))
  }

  /** The callbacks of the chunks, of the last chunk with the trailer fields, and of
      the message's end. */
  function ChunkEvents(cs: seq<Chunk>, trailer: seq<Header>): seq<Event> {
    if cs == [] then [ChunkHeader(0)] + HeadersEvents(trailer) + [ChunkComplete, MessageComplete]
    else [ChunkHeader(|cs[0].data|), Data(Body, cs[0].data), ChunkComplete] + ChunkEvents(cs[1..], trailer)
  }

  /** The data of the body callbacks, in order. */
  function Delivered(es: seq<Event>): seq<Byte> {
    if es == [] then [] else BodyData(es[0]) + Delivered(es[1..])
  }

  function Sent(cs: seq<Chunk>): seq<Byte> {
    if cs == [] then [] else cs[0].data + Sent(cs[1..])
  }

  function BodyData(e: Event): seq<Byte> { if e.Data? && e.kind.Body? then e.bytes else [] }

  lemma {:induction false} DeliveredConcat(a: seq<Event>, b: seq<Event>)
    ensures Delivered(a + b) == Delivered(a) + Delivered(b)
    decreases |a|
  {
    hide BodyData;
    if a == [] {
      assert a + b == b;
    } else {
      assert (a + b)[0] == a[0] && (a + b)[1..] == a[1..] + b;
      DeliveredConcat(a[1..], b);
    }
  }

  lemma DeliveredOne(e: Event)
    ensures Delivered([e]) == if e.Data? && e.kind.Body? then e.bytes else []
  {
    assert [e][1..] == [];
  }

  lemma {:induction false} HeadersDeliverNothing(hs: seq<Header>)
    ensures Delivered(HeadersEvents(hs)) == []
    decreases |hs|
  {
    hide Delivered;
    if hs == [] {
      NothingDelivered();
    } else {
      HeadersDeliverNothing(hs[1..]);
      var a, b := Data(Field, hs[0].name), Data(Value, hs[0].value);
      DeliveredOne(a);
      DeliveredOne(b);
      DeliveredConcat([a], [b]);
      assert [a] + [b] == HeaderEvents(hs[0]);
      DeliveredConcat(HeaderEvents(hs[0]), HeadersEvents(hs[1..]));
    }
  }

  lemma NothingDelivered()
    ensures Delivered([]) == []
  {
  }

  /** The body callbacks deliver the data sent, no more, no less, in order. */
  lemma {:induction false} DeliversWhatIsSent(cs: seq<Chunk>, trailer: seq<Header>)
    ensures Delivered(ChunkEvents(cs, trailer)) == Sent(cs)
    decreases |cs|
  {
    hide Delivered;
    DeliveredOne(ChunkComplete);
    if cs == [] {
      HeadersDeliverNothing(trailer);
      DeliveredOne(ChunkHeader(0));
      DeliveredOne(MessageComplete);
      DeliveredConcat([ChunkComplete], [MessageComplete]);
      assert [ChunkComplete] + [MessageComplete] == [ChunkComplete, MessageComplete];
      DeliveredConcat([ChunkHeader(0)], HeadersEvents(trailer));
      DeliveredConcat([ChunkHeader(0)] + HeadersEvents(trailer), [ChunkComplete, MessageComplete]);
    } else {
      DeliversWhatIsSent(cs[1..], trailer);
      var a, b := ChunkHeader(|cs[0].data|), Data(Body, cs[0].data);
      DeliveredOne(a);
      DeliveredOne(b);
      DeliveredConcat([a], [b]);
      DeliveredConcat([a] + [b], [ChunkComplete]);
      assert [a] + [b] + [ChunkComplete] == [a, b, ChunkComplete];
      DeliveredConcat([a, b, ChunkComplete], ChunkEvents(cs[1..], trailer));
    }
  }

  // ----- size lines --------------------------------------------------------

  /** The bytes of an extension after its first are ignored. */
  lemma {:induction false} SkipExtension(max: nat, p: Parser, log: seq<Event>, w: seq<Byte>, rest: seq<Byte>)
    requires Inv(p) && p.state == ChunkParameters && NoCr(w) && p.nread + |w| <= max < MOD32 - 1
    ensures Run(max, p, log, w + rest) == Run(max, p.(nread := p.nread + |w|), log, rest)
    decreases |w|
  {
    hide Run;
    if w == [] {
      assert w + rest == rest;
    } else {
      assert w + rest == [w[0]] + (w[1..] + rest);
      var q := CountByte(p);
      assert OnByte(q, w[0]) == OnChunkParameters(q, w[0]);
      QuietByte(max, p, log, w[0], w[1..] + rest);
      SkipExtension(max, q, log, w[1..], rest);
    }
  }

  /** The CR and LF of a size line. */
  lemma SizeLineEnds(max: nat, p: Parser, log: seq<Event>, rest: seq<Byte>)
    requires Inv(p) && (p.state == ChunkSize || p.state == ChunkParameters) && p.nread + 2 <= max < MOD32 - 1
    ensures Run(max, p, log, [CR] + ([LF] + rest)) == Run(max, AfterSize(p), Push(log, ChunkHeader(p.length)), rest)
  {
    hide Run, Push;
    var q := CountByte(p);
    assert OnByte(q, CR) == OnBody(q, CR);
    QuietByte(max, p, log, CR, [LF] + rest);
    var q1 := q.(state := ChunkSizeAlmostDone);
    assert OnByte(CountByte(q1), LF) == OnChunkSizeAlmostDone(CountByte(q1), LF);
    NotifyByte(max, q1, log, LF, rest, ChunkHeader(p.length));
  }

  function AfterSize(p: Parser): Parser {
    if p.length == 0 then p.(nread := 0, flags := p.flags.(trailing := true), state := HeaderFieldStart)
    else p.(nread := 0, state := ChunkData)
  }

  /** The extension, if there is one, and the line's end. */
  lemma AfterDigits(max: nat, p: Parser, log: seq<Event>, ext: seq<Byte>, rest: seq<Byte>)
    requires Inv(p) && p.state == ChunkSize && Extension(ext) && p.nread + |ext| + 2 <= max < MOD32 - 1
    ensures Run(max, p, log, ext + ([CR] + ([LF] + rest))) == Run(max, AfterSize(p), Push(log, ChunkHeader(p.length)), rest)
  {
    hide Run, Push;
    var tail := [CR] + ([LF] + rest);
    if ext == [] {
      assert ext + tail == tail;
      SizeLineEnds(max, p, log, rest);
    } else {
      assert ext + tail == [ext[0]] + (ext[1..] + tail);
      var q := CountByte(p);
      assert OnByte(q, ext[0]) == OnChunkSize(q, ext[0]);
      QuietByte(max, p, log, ext[0], ext[1..] + tail);
      var q1 := q.(state := ChunkParameters);
      SkipExtension(max, q1, log, ext[1..], tail);
      SizeLineEnds(max, q1.(nread := q1.nread + |ext[1..]|), log, rest);
    }
  }

  /** A whole size line. */
  lemma SizeLineRuns(max: nat, p: Parser, log: seq<Event>, size: seq<Byte>, ext: seq<Byte>, n: nat, rest: seq<Byte>)
    requires Inv(p) && p.state == ChunkSizeStart && SizeLine(max, size, ext, n)
    ensures Run(max, p, log, LineBytes(size, ext, rest)) ==
            Run(max, AfterSize(p.(length := n)), Push(log, ChunkHeader(n)), rest)
  {
    hide Run, Push, Unhex, Number, HexDigits, SizeBytes, Extension;
    var w := size[1..];
    var tail := ext + ([CR] + ([LF] + rest));
    HexIsSize(size);
    FirstSizeByte(max, p, log, size, tail);
    var d := UnhexOf(size);
    var q := p.(state := ChunkSize, nread := 1, length := d);
    SizeFits(size, n);
    InvChunkSize(p, d);
    SizeCounts(max, q, log, w, tail);
    AfterDigits(max, q.(nread := |size|, length := n), log, ext, rest);
  }

  function UnhexOf(size: seq<Byte>): nat
    requires size != [] && SizeBytes(size)
  {
    Unhex(size[0])
  }

  lemma InvChunkSize(p: Parser, d: nat)
    requires Inv(p) && p.state == ChunkSizeStart && d < MOD64 - 16
    ensures Inv(p.(state := ChunkSize, nread := 1, length := d))
    ensures forall n: nat, m: nat :: n < MOD64 - 16 ==> Inv(p.(state := ChunkSize, nread := m, length := n))
  {
  }

  lemma FirstSizeByte(max: nat, p: Parser, log: seq<Event>, size: seq<Byte>, tail: seq<Byte>)
    requires Inv(p) && p.state == ChunkSizeStart && size != [] && SizeBytes(size) && 1 <= max
    ensures SizeBytes(size[1..]) && UnhexOf(size) < 16
    ensures Run(max, p, log, size + tail) ==
            Run(max, p.(state := ChunkSize, nread := 1, length := UnhexOf(size)), log, size[1..] + tail)
  {
    hide Run;
    assert size + tail == [size[0]] + (size[1..] + tail);
    var q := CountByte(p);
    assert q.nread == 1 && OnByte(q, size[0]) == OnChunkSizeStart(q, size[0]);
    QuietByte(max, p, log, size[0], size[1..] + tail);
  }

  /** A number below the top sixteen of the counter passes the conservative test. */
  lemma SizeFits(size: seq<Byte>, n: nat)
    requires size != [] && HexDigits(size) && SizeOf(size) == n < MOD64 - 16
    ensures SizeBytes(size) && SizeBytes(size[1..])
    ensures var w, d := size[1..], UnhexOf(size);
      d < MOD64 - 16 && Number(16, d, w) == n && (w == [] || Number(16, d, w[..|w| - 1]) <= (MAX64 - 16) / 16)
  {
    HexIsSize(size);
    var w := size[1..];
    NumberCons(16, 0, size[0], w);
    assert [size[0]] + w == size;
  }

  // ----- chunk data --------------------------------------------------------

  /** The data of a chunk and the CR LF after it. */
  lemma ChunkDataRuns(max: nat, p: Parser, log: seq<Event>, data: seq<Byte>, rest: seq<Byte>)
    requires Inv(p) && p.state == ChunkData && p.length == |data|
    ensures Run(max, p, log, data + ([CR] + ([LF] + rest))) ==
            Run(max, p.(state := ChunkSizeStart, length := 0, nread := 0), Push(Absorb(log, Body, data), ChunkComplete), rest)
  {
    hide Run, Push, Absorb, PushAll;
    var init, last := data[..|data| - 1], data[|data| - 1];
    var tail := [CR] + ([LF] + rest);
    assert data + tail == init + ([last] + tail);
    SkipCounted(max, p, log, init, [last] + tail);
    var q := p.(length := 1);
    var mid := Absorb(log, Body, init);
    assert OnByte(CountByte(q), last) == OnChunkData(q);
    FirstByte(max, q, mid, last, tail, Body);
    AbsorbMore(log, Body, init, [last]);
    assert init + [last] == data;
    var q1 := q.(length := 0, state := ChunkDataAlmostDone);
    var all := Absorb(log, Body, data);
    FlushedByte(max, q1, all, [LF] + rest);
    var q2 := q1.(state := ChunkDataDone);
    assert OnByte(CountByte(q2), LF) == OnChunkDataDone(q2, LF);
    NotifyByte(max, q2, all, LF, rest, ChunkComplete);
  }

  /** The CR after a chunk's data, when the data has been reported. */
  lemma FlushedByte(max: nat, p: Parser, log: seq<Event>, rest: seq<Byte>)
    requires p.state == ChunkDataAlmostDone && p.flags.chunked && p.length == 0
    ensures Run(max, p, log, [CR] + rest) == Run(max, p.(state := ChunkDataDone), log, rest)
  {
    hide Run, Push;
    RunCons(max, p, log, CR, rest);
    assert OnByte(p, CR) == OnChunkDataAlmostDone(p, CR);
    var ops := [Flush(Body)];
    assert OnByte(p, CR).ops == ops && ops[1..] == [];
    assert DoOps(NO_MARKS, ops, [CR], 0) == Marked(NO_MARKS, []);
    assert [] + FlushAll(NO_MARKS, [CR]) == [];
  }

  /** One chunk: its header, its data and its end, once each. */
  lemma ChunkRuns(max: nat, p: Parser, log: seq<Event>, c: Chunk, rest: seq<Byte>)
    requires Inv(p) && p.state == ChunkSizeStart && ChunkOk(max, c)
    ensures Run(max, p, log, ChunkBytes(c, rest)) ==
            Run(max, p.(length := 0), log + [ChunkHeader(|c.data|), Data(Body, c.data), ChunkComplete], rest)
  {
    hide Run, Push, Absorb, SizeLine;
    var n := |c.data|;
    SizeLineRuns(max, p, log, c.size, c.ext, n, c.data + ([CR] + ([LF] + rest)));
    var q := p.(length := n, state := ChunkData);
    SizeBound(max, c);
    PushNotify(log, ChunkHeader(n));
    var begun := log + [ChunkHeader(n)];
    ChunkDataRuns(max, q, begun, c.data, rest);
    AbsorbFresh(begun, Body, c.data);
    PushNotify(begun + [Data(Body, c.data)], ChunkComplete);
    assert begun + [Data(Body, c.data)] + [ChunkComplete] == log + [ChunkHeader(n), Data(Body, c.data), ChunkComplete];
  }

  lemma SizeBound(max: nat, c: Chunk)
    requires ChunkOk(max, c)
    ensures |c.data| < MAX64
  {
  }

  /** The empty line behind the trailer fields. */
  lemma TrailerEnds(max: nat, p: Parser, log: seq<Event>, bare: bool, rest: seq<Byte>)
    requires p.state == HeaderFieldStart && p.flags.trailing && p.nread + EndSize(bare) <= max < MOD32 - 1
    ensures Run(max, p, log, Ending(bare, rest)) ==
            Over(max, p.(state := NewMessage(p), nread := p.nread + EndSize(bare)), log + [ChunkComplete, MessageComplete], rest)
  {
    hide Run, Push, NewMessage;
    var q, q1 := CountByte(p), p;
    if bare {
      assert OnByte(q, LF) == OnHeadersAlmostDone(q.(state := HeadersAlmostDone), LF);
    } else {
      assert OnByte(q, CR) == OnHeaderFieldStart(q, CR);
      QuietByte(max, p, log, CR, [LF] + rest);
      q1 := q.(state := HeadersAlmostDone);
      assert OnByte(CountByte(q1), LF) == OnHeadersAlmostDone(CountByte(q1), LF);
    }
    var a := OnByte(CountByte(q1), LF);
    SameNewMessage(CountByte(q1).(state := MessageDone), p);
    assert a.ops == [Notify(ChunkComplete), Notify(MessageComplete)];
    NotifyTwice(max, q1, log, LF, rest, ChunkComplete, MessageComplete);
    PushNotify(log, ChunkComplete);
    PushNotify(log + [ChunkComplete], MessageComplete);
    assert log + [ChunkComplete] + [MessageComplete] == log + [ChunkComplete, MessageComplete];
  }

  /** The trailer fields are taken, behind a head with or without a Content-Length,
      and fit the header limit. */
  predicate LastOk(max: nat, counted: bool, last: LastChunk) {
    SizeLine(max, last.size, last.ext, 0) && AllFine(counted, last.trailer) && TrailerSize(last) <= max
  }

  function TrailerSize(last: LastChunk): nat { HeadersSize(last.trailer) + EndSize(last.bare) }

  /** The flags after a chunked body: a trailer field can still say close. */
  function TrailerFlags(f: Flags, trailer: seq<Header>): Flags { HeadersFlags(f.(trailing := true), trailer) }

  /** The trailer fields and the end of the message. */
  lemma TrailerRuns(max: nat, p: Parser, log: seq<Event>, last: LastChunk, rest: seq<Byte>) returns (q: Parser)
    requires Inv(p) && p.state == HeaderFieldStart && p.flags.trailing && p.nread == 0 && NotField(log)
    requires AllFine(p.flags.contentLength, last.trailer) && TrailerSize(last) <= max < MOD32 - 1
    ensures Run(max, p, log, HeadersBytes(last.trailer, Ending(last.bare, rest))) ==
            Over(max, q, log + HeadersEvents(last.trailer) + [ChunkComplete, MessageComplete], rest)
    ensures q == p.(hs := q.hs, index := q.index, flags := HeadersFlags(p.flags, last.trailer),
                    length := HeadersLength(p.length, last.trailer), nread := TrailerSize(last), state := q.state)
    ensures q.state == NewMessage(q) && Inv(q)
  {
    hide Run, NewMessage, Inv, HeadersBytes, HeadersSize, HeadersFlags, HeadersLength, AllFine, Ending;
    var trailer, ending := last.trailer, Ending(last.bare, rest);
    EndingStarts(last.bare, rest);
    var q1 := LinesRun(max, p, log, trailer, ending);
    HeadersTell(p.flags, trailer);
    TrailerEnds(max, q1, log + HeadersEvents(trailer), last.bare, rest);
    q := q1.(state := NewMessage(q1), nread := TrailerSize(last));
    SameNewMessage(q, q1);
    BetweenInv(q1, q);
  }

  lemma EndingStarts(bare: bool, rest: seq<Byte>)
    ensures LineStarts(Ending(bare, rest))
  {
  }

  lemma BetweenInv(p: Parser, q: Parser)
    requires Inv(p) && q == p.(state := NewMessage(p), nread := q.nread)
    ensures Inv(q)
  {
  }

  /** The chunked round trip: from the start of a chunked body, the whole coding
      with its trailer is consumed, and the callbacks are exactly those of the
      chunks, each once and in order, those of the last chunk with the trailer
      fields, and one for the end of the message; a message that asked for another
      protocol leaves what follows to it. */
  lemma {:induction false} ChunkedRoundTrip(max: nat, p: Parser, log: seq<Event>, cs: seq<Chunk>, last: LastChunk, rest: seq<Byte>) returns (q: Parser)
    requires Inv(p) && p.state == ChunkSizeStart
    requires LastOk(max, p.flags.contentLength, last) && forall i :: 0 <= i < |cs| ==> ChunkOk(max, cs[i])
    ensures Run(max, p, log, BodyOf(cs, last, rest)) == Over(max, q, log + ChunkEvents(cs, last.trailer), rest)
    ensures q == p.(length := HeadersLength(0, last.trailer), hs := q.hs, index := q.index, flags := TrailerFlags(p.flags, last.trailer),
                    nread := TrailerSize(last), state := q.state)
    ensures q.state == NewMessage(q) && Inv(q)
    decreases |cs|
  {
    hide Run, Push, SizeLine, NewMessage, ChunkOk, HeadersBytes, HeadersFlags, HeadersSize, HeadersLength, AllFine, Ending;
    if cs == [] {
      LastSize(max, p.flags.contentLength, last);
      SizeLineRuns(max, p, log, last.size, last.ext, 0, HeadersBytes(last.trailer, Ending(last.bare, rest)));
      var q0 := AfterSize(p.(length := 0));
      PushNotify(log, ChunkHeader(0));
      var log1 := log + [ChunkHeader(0)];
      q := TrailerRuns(max, q0, log1, last, rest);
      assert log1 + HeadersEvents(last.trailer) + [ChunkComplete, MessageComplete] == log + ChunkEvents(cs, last.trailer);
    } else {
      ChunkRuns(max, p, log, cs[0], BodyOf(cs[1..], last, rest));
      var es := [ChunkHeader(|cs[0].data|), Data(Body, cs[0].data), ChunkComplete];
      ChunkInv(p);
      q := ChunkedRoundTrip(max, p.(length := 0), log + es, cs[1..], last, rest);
      assert log + es + ChunkEvents(cs[1..], last.trailer) == log + ChunkEvents(cs, last.trailer);
    }
  }

  lemma LastSize(max: nat, counted: bool, last: LastChunk)
    requires LastOk(max, counted, last)
    ensures 2 <= max < MOD32 - 1
  {
  }

  lemma ChunkInv(p: Parser)
    requires Inv(p) && p.state == ChunkSizeStart
    ensures Inv(p.(length := 0))
  {
  }

  /** Whether the connection goes on does not depend on the counters. */
  lemma SameNewMessage(p: Parser, q: Parser)
    requires p == q.(state := p.state, nread := p.nread, hs := p.hs, index := p.index)
    ensures NewMessage(p) == NewMessage(q)
  {
  }
}

/** Transfer codings: what the list in a Transfer-Encoding header says by section
    3.3.3 of RFC 7230, against what is recognised of it. */
module HttpCoding {
  import opened Basics
  import opened HttpTypes
  import opened HttpAct
  import opened HttpRun
  import opened HttpInvariant
  import opened HttpSkip
  import opened HttpNames
  import opened HttpTarget
  import opened HttpHeaders
  import opened HttpFraming
  import opened HttpConnection
  import opened HttpList
  import opened HttpLines
  import opened HttpMessage

  /** The last coding in the list is chunked. */
  predicate FinallyChunked(value: seq<Byte>) {
    var es := Elements(value);
    Member(es[|es| - 1]) == CHUNKED
  }

  lemma {:induction false} OneElement(v: seq<Byte>)
    requires COMMA !in v
    ensures Elements(v) == [v]
    decreases |v|
  {
    if v != [] {
      OneElement(v[1..]);
      assert [v[0]] + v[1..] == v;
    }
  }

  /** Only spaces are stripped. */
  lemma {:induction false} TrailKeeps(t: seq<Byte>, c: Byte)
    requires c in t && c != SP
    ensures c in StripTrail(t)
    decreases |t|
  {
    if t[|t| - 1] == SP {
      TrailKeeps(t[..|t| - 1], c);
    }
  }

  lemma ChunkedLetters(w: seq<Byte>)
    requires Spells(w, CHUNKED)
    ensures COMMA !in w && HT !in w
  {
    assert forall i :: 0 <= i < |CHUNKED| ==> 97 <= CHUNKED[i] <= 122;
    assert Lower(COMMA) < 97 && Lower(HT) < 97;
  }

  lemma SpellsAll(w: seq<Byte>)
    ensures |w| == |CHUNKED| && Spells(w, CHUNKED) <==> LowerAll(w) == CHUNKED
  {
    hide Lower;
    if LowerAll(w) == CHUNKED {
      assert forall i :: 0 <= i < |w| ==> Lower(w[i]) == LowerAll(w)[i];
    }
  }

  /** A value is recognised if and only if its last coding is chunked and there is
      neither a comma nor a tab in it. */
  lemma ChunkedExact(value: seq<Byte>)
    requires value == [] || !IsBlank(value[0])
    ensures ChunkedValue(value) <==> FinallyChunked(value) && COMMA !in value && HT !in value
  {
    hide Spells, Lower, LowerAll, Member, StripTrail, Elements, Word;
    var w := StripTrail(value);
    SpellsAll(w);
    if ChunkedValue(value) {
      ChunkedLetters(w);
      if COMMA in value {
        TrailKeeps(value, COMMA);
      }
      if HT in value {
        TrailKeeps(value, HT);
      }
    }
    if COMMA !in value && HT !in value {
      OneElement(value);
      NoTabs(value);
      WordOf(value);
    }
  }

  lemma WordOf(value: seq<Byte>)
    requires value == [] || !IsBlank(value[0])
    ensures Word(value) == LowerAll(StripTrail(value))
  {
    assert StripLead(value) == value;
  }

  /** A Content-Length value is taken if and only if, without the white space around
      it, it is a number within the limit, and there is no tab in it. */
  lemma LengthExact(value: seq<Byte>)
    requires value == [] || !IsBlank(value[0])
    ensures LengthTaken(value) <==> LengthTaken(TrimTrail(value)) && HT !in value
  {
    if HT in value {
      TrailKeeps(value, HT);
      assert !IsNum(HT);
    } else {
      TrimTrailIs(value);
      StrippedTwice(value);
    }
  }

  lemma {:induction false} StrippedTwice(t: seq<Byte>)
    ensures StripTrail(StripTrail(t)) == StripTrail(t)
    decreases |t|
  {
    if t != [] && t[|t| - 1] == SP {
      StrippedTwice(t[..|t| - 1]);
    }
  }

  /** A message without framing whose header lists chunked last: its head is its end,
      and the first byte of its first chunk is refused as no method's. */
  lemma MissedChunks(max: nat, p: Parser, log: seq<Event>, r: Request, carried: nat, i: nat, d: Byte, rest: seq<Byte>)
    requires Ready(p, carried) && RequestOk(max, carried, r) && r.framing.NoBody? && Stays(r) && !Leaves(r) && 1 <= max
    requires i < |r.headers| && EncodingHeader(r.headers[i]) && FinallyChunked(r.headers[i].value)
    requires d != CR && d != LF && (IsAlpha(d) ==> FirstMethod(d).None?)
    ensures COMMA in r.headers[i].value || HT in r.headers[i].value
    ensures Run(max, p, log, RequestBytes(r, [d] + rest)) == Broken(INVALID_METHOD, [d] + rest)
  {
    hide Run, RequestBytes, Inv, Stays, MethodName, UrlFold, Leaves, FirstMethod, IsAlpha, FinallyChunked, HeadersLength, LineOk,
      HeadSize, HeadersFlags, ChunkedValue;
    HeadersTell(NO_FLAGS, r.headers);
    SortsApart(r.headers[i].name);
    assert Codes(r.headers[i]) <==> ChunkedValue(r.headers[i].value);
    ChunkedExact(r.headers[i].value);
    var q := RequestRuns(max, p, log, r, carried, [d] + rest);
    NoMethod(max, q, log + RequestEvents(r), d, rest);
  }

  lemma NoMethod(max: nat, p: Parser, log: seq<Event>, d: Byte, rest: seq<Byte>)
    requires p.state == StartReq && p.nread + 1 <= max < MOD32 - 1 && d != CR && d != LF && (IsAlpha(d) ==> FirstMethod(d).None?)
    ensures Run(max, p, log, [d] + rest) == Broken(INVALID_METHOD, [d] + rest)
  {
    hide Run, FirstMethod, IsAlpha;
    RunCons(max, p, log, d, rest);
    assert OnByte(CountByte(p), d) == OnBetween(CountByte(p), d);
  }

  // ----- at an input -------------------------------------------------------

  const GZIP_CHUNKED: seq<Byte> := [103, 122, 105, 112, COMMA, SP, 99, 104, 117, 110, 107, 101, 100]

  /** Transfer-Encoding: gzip, chunked. */
  const GZIP_HEADER: Header := Header(TRANSFER_ENCODING, [SP], GZIP_CHUNKED, false)

  /** POST / HTTP/1.1 with that header. */
  const GZIP_POST: Request := Request.Request([], POST, 0, [SLASH], 0, Http(1, 1), false, [GZIP_HEADER], false, NoBody)

  lemma {:induction false} LowerName(w: seq<Byte>)
    requires forall i :: 0 <= i < |w| ==> (97 <= w[i] <= 122 || w[i] == 45)
    ensures AllTokens(w) && Lowered(w) == w
  {
    assert forall i :: 0 <= i < |w| ==> Token(w[i]) == w[i];
  }

  lemma GzipHeader()
    ensures EncodingHeader(GZIP_HEADER) && FinallyChunked(GZIP_CHUNKED) && !ChunkedValue(GZIP_CHUNKED)
  {
    hide Lowered, ChunkedValue, FinallyChunked, AllTokens, Token;
    LowerName(TRANSFER_ENCODING);
    GzipList();
    assert GZIP_CHUNKED[4] == COMMA;
    ChunkedExact(GZIP_CHUNKED);
  }

  lemma GzipList()
    ensures FinallyChunked(GZIP_CHUNKED)
  {
    hide Elements, Member;
    var front, back := [103, 122, 105, 112], [SP] + CHUNKED;
    assert GZIP_CHUNKED == front + ([COMMA] + back);
    TwoParts(front, back);
    OneElement(back);
    SpacedChunked();
  }

  lemma SpacedChunked()
    ensures Member([SP] + CHUNKED) == CHUNKED
  {
    var e := [SP] + CHUNKED;
    assert e[1..] == CHUNKED && TrimLead(e) == TrimLead(CHUNKED) == CHUNKED && TrimTrail(CHUNKED) == CHUNKED;
    assert forall i :: 0 <= i < |CHUNKED| ==> Lower(CHUNKED[i]) == CHUNKED[i];
  }

  lemma {:induction false} TwoParts(a: seq<Byte>, b: seq<Byte>)
    requires COMMA !in a
    ensures Elements(a + ([COMMA] + b)) == [a] + Elements(b)
    decreases |a|
  {
    var v := a + ([COMMA] + b);
    if a == [] {
      assert v == [COMMA] + b && v[1..] == b;
    } else {
      assert v[1..] == a[1..] + ([COMMA] + b);
      TwoParts(a[1..], b);
      assert [a[0]] + a[1..] == a;
    }
  }

  lemma GzipPost(max: nat)
    requires 64 <= max < MOD32 - 1
    ensures RequestOk(max, 0, GZIP_POST) && Stays(GZIP_POST) && !Leaves(GZIP_POST)
  {
    hide Lowered, ChunkedValue, HeaderOk, LengthTaken, LengthOf, SortOf;
    GzipHeader();
    SortsApart(GZIP_HEADER.name);
    var hs := [GZIP_HEADER];
    assert hs[1..] == [];
    assert HeaderFlags(NO_FLAGS, GZIP_HEADER) == NO_FLAGS;
    assert HeadersFlags(NO_FLAGS, hs) == HeadersFlags(NO_FLAGS, []) == NO_FLAGS;
    assert HeadersSize(hs) == HeaderSize(GZIP_HEADER) + HeadersSize([]);
    assert AllFine(false, []);
    var u := [SLASH];
    assert u[..0] == [] && UrlFold(ReqSpacesBeforeUrl, u) == ReqPath;
  }

  /** What follows such a head is well-formed and chunked; its first digit is taken
      for the start of a request and refused. */
  lemma GzipChunked(max: nat, rest: seq<Byte>)
    requires 64 <= max < MOD32 - 1
    ensures Run(max, Init(Kind.Request), [], RequestBytes(GZIP_POST, [53] + rest)) == Broken(INVALID_METHOD, [53] + rest)
  {
    hide Run, RequestBytes, RequestOk, Stays, Leaves, EncodingHeader, FinallyChunked;
    GzipHeader();
    GzipPost(max);
    assert !IsAlpha(53);
    MissedChunks(max, Init(Kind.Request), [], GZIP_POST, 0, 0, 53, rest);
  }
}

/** How numbers, names and classes of bytes are written down: each against the
    characters themselves. */
module HttpSpelling {
  import opened Basics
  import opened HttpTypes
  import opened HttpAct
  import opened HttpRun
  import opened HttpInvariant
  import opened HttpLength
  import opened HttpHeaders
  import opened HttpFraming
  import opened HttpSteps
  import opened HttpChunked
  import opened HttpMessage
  import opened HttpResponse
  import opened UrlSplit

  // ----- numbers -----------------------------------------------------------

  const LOWER_CASE: string := "0123456789abcdef"
  const UPPER_CASE: string := "0123456789ABCDEF"

  /** The digits of a number, as places in an alphabet, most significant first. */
  function Places(n: nat, base: nat): (ds: seq<nat>)
    requires 2 <= base <= 16
    ensures ds != []
    decreases n
  {
    if n < base then [n] else
      Shrinks(n, base);
      Places(n / base, base) + [n % base]
  }

  lemma Shrinks(n: nat, base: nat)
    requires 2 <= base <= n
    ensures n / base < n
  {
    if n / base >= n {
      assert n == base * (n / base) + n % base;
      Doubles(n, n / base, base);
    }
  }

  lemma Doubles(n: nat, q: nat, base: nat)
    requires 2 <= base && n <= q
    ensures 2 * n <= base * q
  {
    assert base * q == 2 * q + (base - 2) * q;
  }

  /** The number written with the places `ds`. */
  function Weighed(ds: seq<nat>, base: nat): nat
    decreases |ds|
  {
    if ds == [] then 0 else Weighed(ds[..|ds| - 1], base) * base + ds[|ds| - 1]
  }

  lemma {:induction false} PlacesWeigh(n: nat, base: nat)
    requires 2 <= base <= 16
    ensures Weighed(Places(n, base), base) == n
    ensures forall i :: 0 <= i < |Places(n, base)| ==> Places(n, base)[i] < base
    decreases n
  {
    var ds := Places(n, base);
    if n < base {
      assert ds[..0] == [];
    } else {
      Shrinks(n, base);
      PlacesWeigh(n / base, base);
      assert ds[..|ds| - 1] == Places(n / base, base);
    }
  }

  /** Each byte of `w` is the character at its place, in either case. */
  predicate Writes(w: seq<Byte>, ds: seq<nat>) {
    && |w| == |ds|
    && forall i :: 0 <= i < |w| ==> ds[i] < 16 && (w[i] == LOWER_CASE[ds[i]] as int || w[i] == UPPER_CASE[ds[i]] as int)
  }

  /** What the parser takes a character for is its place in the alphabet. */
  lemma HexPlace(c: Byte, d: nat)
    requires d < 16 && (c == LOWER_CASE[d] as int || c == UPPER_CASE[d] as int)
    ensures IsHex(c) && Unhex(c) == d && (d < 10 ==> IsNum(c))
  {
  }

  lemma {:induction false} WrittenNumber(base: nat, w: seq<Byte>, ds: seq<nat>)
    requires Writes(w, ds)
    ensures HexDigits(w) && SizeBytes(w) && Number(base, 0, w) == Weighed(ds, base)
    decreases |w|
  {
    hide Unhex, IsHex, IsNum;
    forall i | 0 <= i < |w|
      ensures IsHex(w[i]) && Unhex(w[i]) == ds[i]
    {
      HexPlace(w[i], ds[i]);
    }
    if w != [] {
      WrittenNumber(base, w[..|w| - 1], ds[..|ds| - 1]);
    }
  }

  // ----- chunks ------------------------------------------------------------

  /** A chunk whose size is its length in hexadecimal characters of either case, with
      leading zeros or without. */
  ghost predicate WrittenChunk(max: nat, c: Chunk) {
    && c.data != [] && |c.data| < MOD64 - 16 && Extension(c.ext)
    && c.size != [] && |c.size| + |c.ext| + 2 <= max < MOD32 - 1
    && exists ds :: Writes(c.size, ds) && Weighed(ds, 16) == |c.data|
  }

  /** The places of the characters of a size. */
  function PlacesOf(w: seq<Byte>): seq<nat>
    requires HexDigits(w)
  {
    seq(|w|, i requires 0 <= i < |w| => PlaceOf(w[i]))
  }

  function PlaceOf(c: Byte): nat
    requires IsHex(c)
  {
    if c <= 57 then c - 48 else if c <= 70 then c - 55 else c - 87
  }

  lemma PlaceIs(c: Byte)
    requires IsHex(c)
    ensures PlaceOf(c) < 16 && (c == LOWER_CASE[PlaceOf(c)] as int || c == UPPER_CASE[PlaceOf(c)] as int)
  {
  }

  lemma EveryWritten(w: seq<Byte>)
    requires HexDigits(w)
    ensures Writes(w, PlacesOf(w))
  {
    hide PlaceOf, IsHex;
    forall i | 0 <= i < |w|
      ensures PlaceOf(w[i]) < 16 && (w[i] == LOWER_CASE[PlaceOf(w[i])] as int || w[i] == UPPER_CASE[PlaceOf(w[i])] as int)
    {
      PlaceIs(w[i]);
    }
  }

  /** The chunks of the round trip are exactly these. */
  lemma WrittenChunks(max: nat, c: Chunk)
    ensures ChunkOk(max, c) <==> WrittenChunk(max, c)
  {
    hide Writes, HexDigits, Weighed, Number, Extension;
    if WrittenChunk(max, c) {
      var ds :| Writes(c.size, ds) && Weighed(ds, 16) == |c.data|;
      WrittenNumber(16, c.size, ds);
    }
    if ChunkOk(max, c) {
      EveryWritten(c.size);
      WrittenNumber(16, c.size, PlacesOf(c.size));
    }
  }

  function Text(ds: seq<nat>, upper: bool): seq<Byte>
    requires forall i :: 0 <= i < |ds| ==> ds[i] < 16
  {
    seq(|ds|, i requires 0 <= i < |ds| => (if upper then UPPER_CASE else LOWER_CASE)[ds[i]] as int)
  }

  /** Data as one chunk each, with their lengths in hexadecimal. */
  function Chunked(data: seq<seq<Byte>>, upper: bool): seq<Chunk> {
    seq(|data|, i requires 0 <= i < |data| => HexChunk(data[i], upper))
  }

  function HexChunk(data: seq<Byte>, upper: bool): Chunk {
    PlacesWeigh(|data|, 16);
    Chunk(Text(Places(|data|, 16), upper), [], data)
  }

  lemma {:induction false} PlacesCount(n: nat, k: nat)
    requires n < Sixteens(k) && 1 <= k
    ensures |Places(n, 16)| <= k
  {
    if n >= 16 {
      assert k > 1;
      PlacesCount(n / 16, k - 1);
    }
  }

  function Sixteens(k: nat): nat { if k == 0 then 1 else 16 * Sixteens(k - 1) }

  /** The widths of the counters. */
  lemma SixteenIs()
    ensures Sixteens(16) == MOD64 == MAX64 + 1 && Sixteens(8) == MOD32
  {
    assert Sixteens(4) == 0x1_0000;
    assert Sixteens(8) == 0x1_0000_0000;
    assert Sixteens(12) == 0x1_0000_0000_0000;
  }

  lemma HexChunkOk(max: nat, data: seq<Byte>, upper: bool)
    requires data != [] && |data| < MOD64 - 16 && 18 <= max < MOD32 - 1
    ensures ChunkOk(max, HexChunk(data, upper))
  {
    hide Writes, Weighed;
    var ds := Places(|data|, 16);
    PlacesWeigh(|data|, 16);
    TextWrites(ds, upper);
    SixteenIs();
    PlacesCount(|data|, 16);
    WrittenChunks(max, HexChunk(data, upper));
  }

  lemma TextWrites(ds: seq<nat>, upper: bool)
    requires forall i :: 0 <= i < |ds| ==> ds[i] < 16
    ensures Writes(Text(ds, upper), ds)
  {
  }

  /** Any data, cut into any blocks, each behind its length in hexadecimal: the body is
      consumed whole, and the callbacks deliver the data. */
  lemma DataRoundTrip(max: nat, p: Parser, log: seq<Event>, data: seq<seq<Byte>>, upper: bool, last: LastChunk, rest: seq<Byte>) returns (q: Parser)
    requires Inv(p) && p.state == ChunkSizeStart && LastOk(max, p.flags.contentLength, last) && 18 <= max
    requires forall i :: 0 <= i < |data| ==> data[i] != [] && |data[i]| < MOD64 - 16
    ensures var es := ChunkEvents(Chunked(data, upper), last.trailer);
      Run(max, p, log, BodyOf(Chunked(data, upper), last, rest)) == Over(max, q, log + es, rest) && Delivered(es) == Joined(data)
    ensures q.state == NewMessage(q) && Inv(q)
  {
    hide Run, Inv, NewMessage, BodyOf, ChunkEvents, Over, HexChunk, Delivered, LastOk;
    var cs := Chunked(data, upper);
    LastSize(max, p.flags.contentLength, last);
    forall i | 0 <= i < |cs|
      ensures ChunkOk(max, cs[i])
    {
      HexChunkOk(max, data[i], upper);
    }
    q := ChunkedRoundTrip(max, p, log, cs, last, rest);
    DeliversWhatIsSent(cs, last.trailer);
    SentIs(data, upper);
  }

  function Joined(data: seq<seq<Byte>>): seq<Byte> { if data == [] then [] else data[0] + Joined(data[1..]) }

  lemma {:induction false} SentIs(data: seq<seq<Byte>>, upper: bool)
    ensures Sent(Chunked(data, upper)) == Joined(data)
    decreases |data|
  {
    if data != [] {
      assert Chunked(data, upper)[1..] == Chunked(data[1..], upper);
      SentIs(data[1..], upper);
    }
  }

  // ----- decimal numbers ---------------------------------------------------

  function DecimalText(n: nat): seq<Byte> {
    PlacesWeigh(n, 10);
    Text(Places(n, 10), false)
  }

  lemma DecimalIs(n: nat)
    ensures var w := DecimalText(n); w != [] && Digits(w) && SizeBytes(w) && Number(10, 0, w) == n
    ensures var w := DecimalText(n); |w| > 1 ==> Number(10, 0, w[..|w| - 1]) == n / 10
  {
    hide Writes, Unhex;
    var ds := Places(n, 10);
    PlacesWeigh(n, 10);
    TextWrites(ds, false);
    WrittenNumber(10, DecimalText(n), ds);
    DecimalDigits(ds);
    if |ds| > 1 {
      PlacesWeigh(n / 10, 10);
      assert ds[..|ds| - 1] == Places(n / 10, 10);
      var v := DecimalText(n / 10);
      assert DecimalText(n)[..|ds| - 1] == v;
      TextWrites(Places(n / 10, 10), false);
      WrittenNumber(10, v, Places(n / 10, 10));
    }
  }

  lemma DecimalDigits(ds: seq<nat>)
    requires forall i :: 0 <= i < |ds| ==> ds[i] < 10
    ensures Digits(Text(ds, false))
  {
    forall i | 0 <= i < |ds|
      ensures IsNum(Text(ds, false)[i])
    {
      HexPlace(LOWER_CASE[ds[i]] as int, ds[i]);
    }
  }

  /** A length written in decimal, with spaces behind it, is taken as that length, up to
      the limit on what stands before the last digit. */
  lemma WrittenLength(n: nat, k: nat)
    requires n / 10 <= (MAX64 - 10) / 10
    ensures LengthTaken(DecimalText(n) + Spaces(k)) && LengthOf(DecimalText(n) + Spaces(k)) == n
  {
    hide Number, DecimalText, Unhex;
    DecimalIs(n);
    StrippedAll(DecimalText(n));
    SpacesStripped(DecimalText(n), k);
  }

  lemma {:induction false} SpacesStripped(w: seq<Byte>, k: nat)
    ensures StripTrail(w + Spaces(k)) == StripTrail(w)
    decreases k
  {
    if k == 0 {
      assert w + Spaces(0) == w;
    } else {
      assert w + Spaces(k) == (w + Spaces(k - 1)) + [SP];
      TrailStep(w + Spaces(k - 1), SP);
      SpacesStripped(w, k - 1);
    }
  }

  /** A status written in decimal is that status. */
  lemma WrittenStatus(r: Response, n: nat)
    requires n <= 999 && r.code == DecimalText(n)
    ensures r.code != [] && Digits(r.code) && SizeBytes(r.code) && StatusOf(r) == n
  {
    hide DecimalText, Number;
    DecimalIs(n);
  }

  /** A port written in decimal is that port. */
  lemma {:induction false} WrittenPort(n: nat)
    ensures Decimal(DecimalText(n)) == n
    decreases n
  {
    var ds := Places(n, 10);
    PlacesWeigh(n, 10);
    var w := DecimalText(n);
    HexPlace(w[|w| - 1], ds[|ds| - 1]);
    DecimalChar(ds[|ds| - 1]);
    if n >= 10 {
      Shrinks(n, 10);
      WrittenPort(n / 10);
      assert ds[..|ds| - 1] == Places(n / 10, 10);
      assert w[..|w| - 1] == DecimalText(n / 10);
    } else {
      assert w[..0] == [];
    }
  }

  lemma DecimalChar(d: nat)
    requires d < 10
    ensures LOWER_CASE[d] as int == 48 + d
  {
  }

  /** The statuses of responses without a body. */
  lemma StatusesWithoutBody(n: nat)
    ensures BodyLess(n) <==> 100 <= n <= 199 || n == 204 || n == 304
  {
  }

  // ----- names -------------------------------------------------------------

  lemma SingleCharacters()
    ensures CR == '\r' as int && LF == '\n' as int && SP == ' ' as int && HT == '\t' as int
    ensures COLON == ':' as int && COMMA == ',' as int && SLASH == '/' as int
  {
  }

  predicate Narrow(s: string) { forall i :: 0 <= i < |s| ==> s[i] as int < 256 }

  function Ascii(s: string): seq<Byte>
    requires Narrow(s)
  {
    seq(|s|, i requires 0 <= i < |s| => s[i] as int)
  }

  lemma HeaderNames()
    ensures CONNECTION == Ascii("connection") && PROXY_CONNECTION == Ascii("proxy-connection") && UPGRADE == Ascii("upgrade")
    ensures CONTENT_LENGTH == Ascii("content-length") && TRANSFER_ENCODING == Ascii("transfer-encoding")
    ensures CHUNKED == Ascii("chunked") && KEEP_ALIVE == Ascii("keep-alive") && CLOSE == Ascii("close")
  {
  }

  // the 34 methods, group by group

  lemma PlainMethods()
    ensures MethodName(DELETE) == Ascii("DELETE") && MethodName(GET) == Ascii("GET") && MethodName(HEAD) == Ascii("HEAD")
    ensures MethodName(POST) == Ascii("POST") && MethodName(PUT) == Ascii("PUT") && MethodName(CONNECT) == Ascii("CONNECT")
    ensures MethodName(OPTIONS) == Ascii("OPTIONS") && MethodName(TRACE) == Ascii("TRACE")
  {
  }

  lemma ResourceMethods()
    ensures MethodName(COPY) == Ascii("COPY") && MethodName(LOCK) == Ascii("LOCK") && MethodName(MKCOL) == Ascii("MKCOL")
    ensures MethodName(MOVE) == Ascii("MOVE") && MethodName(UNLOCK) == Ascii("UNLOCK")
  {
  }

  lemma PropertyMethods()
    ensures MethodName(PROPFIND) == Ascii("PROPFIND") && MethodName(PROPPATCH) == Ascii("PROPPATCH") && MethodName(SEARCH) == Ascii("SEARCH")
  {
  }

  lemma BindingMethods()
    ensures MethodName(BIND) == Ascii("BIND") && MethodName(REBIND) == Ascii("REBIND") && MethodName(UNBIND) == Ascii("UNBIND")
    ensures MethodName(ACL) == Ascii("ACL")
  {
  }

  lemma VersionMethods()
    ensures MethodName(REPORT) == Ascii("REPORT") && MethodName(MKACTIVITY) == Ascii("MKACTIVITY") && MethodName(CHECKOUT) == Ascii("CHECKOUT")
    ensures MethodName(MERGE) == Ascii("MERGE")
  {
  }

  lemma EventMethods()
    ensures MethodName(MSEARCH) == Ascii("M-SEARCH") && MethodName(NOTIFY) == Ascii("NOTIFY") && MethodName(SUBSCRIBE) == Ascii("SUBSCRIBE")
    ensures MethodName(UNSUBSCRIBE) == Ascii("UNSUBSCRIBE")
  {
  }

  lemma ChangeMethods()
    ensures MethodName(PATCH) == Ascii("PATCH") && MethodName(PURGE) == Ascii("PURGE") && MethodName(MKCALENDAR) == Ascii("MKCALENDAR")
  {
  }

  lemma LinkMethods()
    ensures MethodName(LINK) == Ascii("LINK") && MethodName(UNLINK) == Ascii("UNLINK") && MethodName(SOURCE) == Ascii("SOURCE")
  {
  }

  /** The first lines of messages, as they stand in a text. */
  lemma FirstLines(rest: seq<Byte>)
    ensures [SP] + ([72, 84, 84, 80, 47] + VersionTail(1, 1, false, rest)) == Ascii(" HTTP/1.1\r\n") + rest
    ensures [SP] + ([73, 67, 69, 47] + VersionTail(1, 0, true, rest)) == Ascii(" ICE/1.0\n") + rest
    ensures Prologue(1, 1, rest) == Ascii("HTTP/1.1 ") + rest
  {
  }

  // ----- classes of bytes --------------------------------------------------

  predicate Ranges(a: char, c: Byte, b: char) { a as int <= c <= b as int }

  lemma LettersAndDigits(c: Byte)
    ensures IsAlpha(c) <==> Ranges('a', c, 'z') || Ranges('A', c, 'Z')
    ensures IsNum(c) <==> Ranges('0', c, '9')
    ensures IsHex(c) <==> Ranges('0', c, '9') || Ranges('a', c, 'f') || Ranges('A', c, 'F')
  {
  }

  /** The classes of section 2 of RFC 2396 that the parser's macros name. */
  lemma UrlClasses(c: Byte)
    ensures IsMark(c) <==> (c as char) in "-_.!~*'()"
    ensures IsUserinfoChar(c) <==> IsAlpha(c) || IsNum(c) || (c as char) in "-_.!~*'()%;:&=+$,"
    ensures IsHostChar(c) <==> IsAlpha(c) || IsNum(c) || c == '.' as int || c == '-' as int
    ensures IsUrlChar(c) <==> '!' as int <= c <= '~' as int && c != '#' as int && c != '?' as int
  {
  }

  /** The tokens of section 3.2.6 of RFC 7230, letters in lower case. */
  lemma Tokens(c: Byte)
    ensures Token(c) != 0 <==> IsAlpha(c) || IsNum(c) || (c as char) in "!#$%&'*+-.^_`|~"
    ensures IsAlpha(c) ==> Token(c) == Lower(c) && Lower(c) == if 'A' as int <= c <= 'Z' as int then c - 'A' as int + 'a' as int else c
    ensures Token(c) != 0 && !IsAlpha(c) ==> Token(c) == c
  {
  }

  /** What a field value may hold: visible characters, bytes from 128 up, white space and
      line ends. */
  lemma HeaderChars(c: Byte)
    ensures IsHeaderChar(c) <==> ' ' as int <= c <= '~' as int || c >= 128 || (c as char) in "\t\r\n"
  {
  }
}

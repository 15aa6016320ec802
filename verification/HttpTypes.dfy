/** The vocabulary of the HTTP/1.x parser: bytes and their classes, the states
    and sub-states, the parser record and the callbacks it makes. */
module HttpTypes {
  import opened Basics

  // ----- bytes -------------------------------------------------------------

  const CR: Byte := 13
  const LF: Byte := 10
  const SP: Byte := 32
  const HT: Byte := 9
  const COLON: Byte := 58
  const COMMA: Byte := 44
  const SLASH: Byte := 47

  /** The largest value of a 64-bit counter; also the parser's mark for "no
      Content-Length seen". */
  const MAX64: nat := 0xFFFF_FFFF_FFFF_FFFF
  const MOD64: nat := 0x1_0000_0000_0000_0000
  const MOD32: nat := 0x1_0000_0000

  /** `c | 0x20` on a byte. */
  function Lower(c: Byte): Byte {
    if (c / 32) % 2 == 0 then c + 32 else c
  }

  predicate IsAlpha(c: Byte) { 97 <= Lower(c) <= 122 }
  predicate IsNum(c: Byte) { 48 <= c <= 57 }
  predicate IsAlphaNum(c: Byte) { IsAlpha(c) || IsNum(c) }
  predicate IsHex(c: Byte) { IsNum(c) || 97 <= Lower(c) <= 102 }

  /** - _ . ! ~ * ' ( ) */
  predicate IsMark(c: Byte) {
    c == 45 || c == 95 || c == 46 || c == 33 || c == 126 || c == 42 || c == 39 || c == 40 || c == 41
  }

  /** alphanumerics, marks and % ; : & = + $ , */
  predicate IsUserinfoChar(c: Byte) {
    IsAlphaNum(c) || IsMark(c) || c == 37 || c == 59 || c == 58 || c == 38 || c == 61 || c == 43 || c == 36 || c == 44
  }

  /** The strict-mode bit table: visible ASCII except # and ?. */
  predicate IsUrlChar(c: Byte) { 33 <= c <= 126 && c != 35 && c != 63 }

  /** alphanumerics, '.' and '-' */
  predicate IsHostChar(c: Byte) { IsAlphaNum(c) || c == 46 || c == 45 }

  predicate IsHeaderChar(c: Byte) { c == CR || c == LF || c == HT || (c > 31 && c != 127) }

  /** The token table with its space entry masked: 0 for a non-token byte, the
      byte in lower case otherwise. */
  function Token(c: Byte): Byte {
    if 65 <= c <= 90 then c + 32
    else if 94 <= c <= 122 || 48 <= c <= 57 || 35 <= c <= 39 || c == 33 || c == 42 || c == 43
            || c == 45 || c == 46 || c == 124 || c == 126 then c
    else 0
  }

  /** The hexadecimal digit table. Only its first 128 entries are written out,
      so every byte from 128 up has the default entry 0. */
  function Unhex(c: Byte): int {
    if 48 <= c <= 57 then c - 48
    else if 65 <= c <= 70 then c - 55
    else if 97 <= c <= 102 then c - 87
    else if c >= 128 then 0
    else -1
  }

  /** A NUL-terminated string read at an index. */
  function CharAt(s: seq<Byte>, i: nat): Byte {
    if i < |s| then s[i] else 0
  }

  const CONNECTION: seq<Byte> := [99, 111, 110, 110, 101, 99, 116, 105, 111, 110]
  const PROXY_CONNECTION: seq<Byte> := [112, 114, 111, 120, 121, 45, 99, 111, 110, 110, 101, 99, 116, 105, 111, 110]
  const CONTENT_LENGTH: seq<Byte> := [99, 111, 110, 116, 101, 110, 116, 45, 108, 101, 110, 103, 116, 104]
  const TRANSFER_ENCODING: seq<Byte> := [116, 114, 97, 110, 115, 102, 101, 114, 45, 101, 110, 99, 111, 100, 105, 110, 103]
  const UPGRADE: seq<Byte> := [117, 112, 103, 114, 97, 100, 101]
  const CHUNKED: seq<Byte> := [99, 104, 117, 110, 107, 101, 100]
  const KEEP_ALIVE: seq<Byte> := [107, 101, 101, 112, 45, 97, 108, 105, 118, 101]
  const CLOSE: seq<Byte> := [99, 108, 111, 115, 101]

  // ----- states ------------------------------------------------------------

  /** `enum state`: the order matters, see `ParsingHeader`. */
  type State = s: int | 1 <= s <= 64 witness 1

  // between messages, and a response's first line
  const Dead: State := 1
  const StartReqOrRes: State := 2
  const ResOrRespH: State := 3
  const StartRes: State := 4
  const ResH: State := 5
  const ResHT: State := 6
  const ResHTT: State := 7
  const ResHTTP: State := 8
  const ResMajor: State := 9
  const ResDot: State := 10
  const ResMinor: State := 11
  const ResEnd: State := 12
  const ResFirstStatusCode: State := 13
  const ResStatusCode: State := 14
  const ResStatusStart: State := 15
  const ResStatus: State := 16
  const ResLineAlmostDone: State := 17
  // a request's first line
  const StartReq: State := 18
  const ReqMethod: State := 19
  const ReqSpacesBeforeUrl: State := 20
  const ReqSchema: State := 21
  const ReqSchemaSlash: State := 22
  const ReqSchemaSlashSlash: State := 23
  const ReqServerStart: State := 24
  const ReqServer: State := 25
  const ReqServerWithAt: State := 26
  const ReqPath: State := 27
  const ReqQueryStart: State := 28
  const ReqQuery: State := 29
  const ReqFragmentStart: State := 30
  const ReqFragment: State := 31
  const ReqHttpStart: State := 32
  const ReqH: State := 33
  const ReqHT: State := 34
  const ReqHTT: State := 35
  const ReqHTTP: State := 36
  const ReqI: State := 37
  const ReqIC: State := 38
  const ReqMajor: State := 39
  const ReqDot: State := 40
  const ReqMinor: State := 41
  const ReqEnd: State := 42
  const ReqLineAlmostDone: State := 43
  // headers
  const HeaderFieldStart: State := 44
  const HeaderField: State := 45
  const ValueDiscardWs: State := 46
  const ValueDiscardWsAlmostDone: State := 47
  const ValueDiscardLws: State := 48
  const ValueStart: State := 49
  const HeaderValue: State := 50
  const ValueLws: State := 51
  const HeaderAlmostDone: State := 52
  // chunk framing and the end of the headers
  const ChunkSizeStart: State := 53
  const ChunkSize: State := 54
  const ChunkParameters: State := 55
  const ChunkSizeAlmostDone: State := 56
  const HeadersAlmostDone: State := 57
  const HeadersDone: State := 58
  // bodies
  const ChunkData: State := 59
  const ChunkDataAlmostDone: State := 60
  const ChunkDataDone: State := 61
  const BodyIdentity: State := 62
  const BodyIdentityEof: State := 63
  const MessageDone: State := 64

  /** States whose bytes count towards the header limit. */
  predicate ParsingHeader(s: State) { s <= HeadersDone }

  /** Outside any message. */
  predicate Between(s: State) { s == Dead || s == StartReqOrRes || s == StartRes || s == StartReq }

  /** In a response's first line. */
  predicate ResponseLine(s: State) { s == ResOrRespH || ResH <= s <= ResLineAlmostDone }

  /** In a URL that has been started. */
  predicate UrlState(s: State) { ReqSchema <= s <= ReqFragment }

  /** In a header, in the end of the head, or in a trailer. */
  predicate HeaderLine(s: State) {
    HeaderFieldStart <= s <= HeaderAlmostDone || HeadersAlmostDone <= s <= HeadersDone
  }

  /** In a body or its chunk framing. */
  predicate InBody(s: State) { ChunkSizeStart <= s <= ChunkSizeAlmostDone || ChunkData <= s }

  datatype HeaderState =
    | General | HC | HCO | HCON
    | MatchingConnection | MatchingProxyConnection | MatchingContentLength
    | MatchingTransferEncoding | MatchingUpgrade
    | HConnection | HContentLength | HContentLengthNum | HContentLengthWs | HTransferEncoding | HUpgrade
    | MatchingChunked | MatchingTokenStart | MatchingKeepAlive | MatchingClose
    | MatchingConnUpgrade | MatchingToken
    | HChunked | HKeepAlive | HClose | HConnUpgrade

  datatype Method =
    | DELETE | GET | HEAD | POST | PUT | CONNECT | OPTIONS | TRACE | COPY | LOCK | MKCOL | MOVE
    | PROPFIND | PROPPATCH | SEARCH | UNLOCK | BIND | REBIND | UNBIND | ACL | REPORT | MKACTIVITY
    | CHECKOUT | MERGE | MSEARCH | NOTIFY | SUBSCRIBE | UNSUBSCRIBE | PATCH | PURGE | MKCALENDAR
    | LINK | UNLINK | SOURCE

  function MethodName(m: Method): (name: seq<Byte>)
    ensures 3 <= |name| <= 11
  {
    match m
    case DELETE => [68, 69, 76, 69, 84, 69]
    case GET => [71, 69, 84]
    case HEAD => [72, 69, 65, 68]
    case POST => [80, 79, 83, 84]
    case PUT => [80, 85, 84]
    case CONNECT => [67, 79, 78, 78, 69, 67, 84]
    case OPTIONS => [79, 80, 84, 73, 79, 78, 83]
    case TRACE => [84, 82, 65, 67, 69]
    case COPY => [67, 79, 80, 89]
    case LOCK => [76, 79, 67, 75]
    case MKCOL => [77, 75, 67, 79, 76]
    case MOVE => [77, 79, 86, 69]
    case PROPFIND => [80, 82, 79, 80, 70, 73, 78, 68]
    case PROPPATCH => [80, 82, 79, 80, 80, 65, 84, 67, 72]
    case SEARCH => [83, 69, 65, 82, 67, 72]
    case UNLOCK => [85, 78, 76, 79, 67, 75]
    case BIND => [66, 73, 78, 68]
    case REBIND => [82, 69, 66, 73, 78, 68]
    case UNBIND => [85, 78, 66, 73, 78, 68]
    case ACL => [65, 67, 76]
    case REPORT => [82, 69, 80, 79, 82, 84]
    case MKACTIVITY => [77, 75, 65, 67, 84, 73, 86, 73, 84, 89]
    case CHECKOUT => [67, 72, 69, 67, 75, 79, 85, 84]
    case MERGE => [77, 69, 82, 71, 69]
    case MSEARCH => [77, 45, 83, 69, 65, 82, 67, 72]
    case NOTIFY => [78, 79, 84, 73, 70, 89]
    case SUBSCRIBE => [83, 85, 66, 83, 67, 82, 73, 66, 69]
    case UNSUBSCRIBE => [85, 78, 83, 85, 66, 83, 67, 82, 73, 66, 69]
    case PATCH => [80, 65, 84, 67, 72]
    case PURGE => [80, 85, 82, 71, 69]
    case MKCALENDAR => [77, 75, 67, 65, 76, 69, 78, 68, 65, 82]
    case LINK => [76, 73, 78, 75]
    case UNLINK => [85, 78, 76, 73, 78, 75]
    case SOURCE => [83, 79, 85, 82, 67, 69]
  }

  datatype Kind = Request | Response | Both

  datatype Flags = Flags(
    chunked: bool, keepAlive: bool, close: bool, connUpgrade: bool,
    trailing: bool, upgrade: bool, skipBody: bool, contentLength: bool)

  const NO_FLAGS := Flags(false, false, false, false, false, false, false, false)

  /** The fields of `struct http_parser` that parsing uses. */
  datatype Parser = Parser(
    kind: Kind, flags: Flags, state: State, hs: HeaderState, index: nat, lenient: bool,
    nread: nat, length: nat, major: nat, minor: nat, status: nat, verb: Method, upgrade: bool)

  datatype Errno =
    | OK | INVALID_EOF_STATE | HEADER_OVERFLOW | CLOSED_CONNECTION | INVALID_VERSION | INVALID_STATUS
    | INVALID_METHOD | INVALID_URL | LF_EXPECTED | INVALID_HEADER_TOKEN | INVALID_CONTENT_LENGTH
    | UNEXPECTED_CONTENT_LENGTH | INVALID_CHUNK_SIZE | INVALID_CONSTANT | STRICT

  /** An error number other than success. */
  type Failure = e: Errno | !e.OK? witness STRICT

  // ----- callbacks ---------------------------------------------------------

  datatype DataKind = Field | Value | Url | Body | Status

  /** What the message head says, as `on_headers_complete` can read it. */
  datatype Head = RequestHead(verb: Method) | ResponseHead(status: nat)

  datatype Event =
    | MessageBegin
    | HeadersComplete(head: Head, major: nat, minor: nat, chunked: bool, length: nat, upgrade: bool)
    | ChunkHeader(size: nat)
    | ChunkComplete
    | MessageComplete
    | Data(kind: DataKind, bytes: seq<Byte>)
}

# Verified model of the ESP32 simulation library

This project models the parts of the ESP32 simulation library that carry the
most state, branching and arithmetic, and proves what they promise. Each part is
modelled in the form the source has: automata and arithmetic as functions, loops
as methods, modules that update their fields as classes. Every method is proved
against a specification function, and the properties are proved of that function.

| files | what they model |
|---|---|
| `Basics` | bytes and optional values, shared by all |
| `HttpTypes`, `HttpAct`, `HttpRun` | the HTTP/1.x parser: bytes, states, one arm per state, the parser fed one byte at a time |
| `HttpInvariant`, `HttpMonitor` | what holds on every byte stream: no internal assertion fires, and callbacks come in order and in the announced amounts |
| `HttpSkip`, `HttpMarks`, `HttpTidy`, `HttpExecute` | the class with the fast inner loops and the mark pointers, proved equal to the parser fed one byte at a time, however the input is cut |
| `HttpLength`, `HttpNames`, `HttpMethods`, `HttpTarget`, `HttpHeaders`, `HttpFraming` | numbers, field names, methods, targets and header lines: what is recognised, in both directions |
| `HttpSpelling` | every number, name and class of bytes of the parser against the characters that write it |
| `HttpConnection`, `HttpList`, `HttpLines`, `HttpFolded` | Connection headers with any value: what is heard of a list against what is in it; blocks of any header lines: which are taken, and what they tell; values that go on in further lines |
| `HttpSteps`, `HttpChunked`, `HttpMessage`, `HttpResponse`, `HttpEither`, `HttpCoding`, `HttpRefusals` | chunked bodies with trailers, whole requests and responses, one after the other until one closes the connection or leaves HTTP; which transfer codings are missed; the errors |
| `UrlFields`, `UrlHost`, `UrlSplit` | the two-pass URL splitter and its agreement with the request line |
| `UrlPieces`, `UrlRoundTrip`, `UrlGrammar` | URLs put together from components: the splitter accepts exactly these and gives the components back |
| `SpiClock`, `Division` | the SPI clock-divider search |
| `Crc` | the table-driven CRC-32 against polynomial division |
| `FlashLayout`, `FlashChip`, `FlashStore`, `Flash` | the flash chip: address ranges, what a chip promises, how the vectors hold it, the device |
| `FlashTalk`, `FlashDriver` | the bytes between the flash driver and the device, and when the device answers as a chip would |
| `I2c`, `I2cTransfer` | the I2C bit engine and a receiver; whole transfers |
| `GpioMatrix` | incremental against full updates of the output muxes |
| `Wire` | a wire with many drivers |
| `CharChannel` | the character channel with its toggling clock bit |
| `Decimal` | printing and parsing decimal numbers |

`dafny verify dfyconfig.toml` checks the whole project.

## How the models read

- The HTTP parser is modelled in strict mode, with callbacks that return 0 and do
  not touch the parser. Callbacks are a log; `Merge` joins adjacent data
  callbacks of one kind, because how data is cut into callbacks depends on how
  the input is cut into buffers. A C assertion is the outcome `Trap`.
- The clock, randomness and the SystemC kernel are parameters or steps: a write
  to a signal takes effect at the next delta cycle, the bytes a flash sector of
  unknown contents answers with are part of the read command, the levels of an
  I2C slave are part of the input, a stream that times out is one that has ended.
  The C library's `printf` and `sscanf` of flash addresses and sizes are
  parameters, of which only is used that numbers are printed on one line and read
  back.

Where the code does something a reader would not expect, the model follows the
code, and a lemma says so:

- The hexadecimal table of the HTTP parser has only its first 128 entries written
  out, so in a chunk size bytes from 128 up count as the digit 0
  (`HttpLength.HighByteIsADigit`, `SizeBytesExact`).
- In a Connection header, a comma directly behind the beginning of `close`,
  `keep-alive` or `upgrade`, or in front of everything else, is taken for one of
  the letters, so `clo,close` and `,close` do not close the connection
  (`HttpList.SwallowedComma`, `CommaFirst`). An element that is empty or starts
  with a tab or another byte that is no token ends the recognition of all later
  ones, and a tab behind a word hides it (`EmptyElement`, `TabInFront`,
  `TabBehind`). `ListExact` says exactly which elements count.
- A Transfer-Encoding header is recognised only if it is the word `chunked` alone with
  spaces behind it (`HttpCoding.ChunkedExact`). `gzip, chunked` is not, though by
  section 3.3.3 of RFC 7230 such a message is chunked: a request with it ends at its
  head, and its first chunk is refused as the next request (`GzipChunked`,
  `MissedChunks`). A tab behind `chunked` has the same effect, and behind a
  Content-Length number makes the header refused (`LengthExact`,
  `HttpFraming.LengthAndTab`).
- A Transfer-Encoding header that goes on in a further line, even a blank one, is not
  recognised (`HttpFolded.EncodingFolded`).
- The fast loop over a plain header value may pass over one byte at the header
  limit unseen; the header is then always refused (`HttpExecute.ValueLoop`). A call
  may thus report a bad byte behind the limit where the bytes one at a time report
  the limit.
- The comment in `http_parser.h` tells callers to check `upgrade` when a call
  returns, but the flag is already set while the body of the upgrading message is
  still to come; `HttpExecute.Exited` is the test that tells the two apart.
- The target of CONNECT may have an @ in front of the host, and a ? and some # behind
  the port, against the comment in the code (`UrlGrammar.ConnectIff`).
- `addrange` reports an overlap and inserts the range all the same, against its
  own comment; a range over the whole 32-bit space has a size that wraps to 0.
- A program command that is refused leaves its data line unread, and the driver has
  sent it already: the line is then served as a read with the last address and size
  (`FlashDriver.UnknownSector`), and what follows a line feed in the data runs as a
  command (`FlashDriver.DataErases`). From then on the answers are one command
  behind. On the board the report of a refused command also stops the simulation
  (`src/modules/doitesp32devkitv1.cpp:87`).
- An empty line where the data line of a program command is due makes the device drop
  the line behind it (`FlashDriver.EmptyLineDropsNext`), and a number that it cannot
  read is the one of the message before (`UnreadNumbers`).
- A flash read of 0 words from the start of a used page, or one whose end position
  wraps to the largest 32-bit number, never ends (`FlashChip.ReadReply`). Words
  of a page below its last programmed word read as 0 if they were never
  programmed.
- A stop token on an idle I2C bus is a start and a stop on the wire; a slave that
  holds SDA low turns a start into a low bit and hides a stop (`I2c.HeldLow`).
- The SPI register comment says `clkcnt_l` equals `clkcnt_n`; the code writes
  `(clkcnt_n + 1) / 2` and leaves `clkcnt_h` at 0.
- Selecting function 257 or 258 for a pin makes incremental and full updates of
  the GPIO matrix disagree (`GpioMatrix.OthersBreak`).
- In bases above 208 the digit 208 is written as the byte 0, where the written string
  ends (`Decimal.PrintedWhole`, `NothingPrinted`).
- With both weak values and one strong value on a wire, the slot order decides
  (`Wire.OrderMatters`).

## Model

| member | source | states |
|---|---|---|
| HttpExecute.HttpParser.constructor | src/esp32sdk/http_parser.cpp:2148-2156 | a new parser is in the start state of its kind and satisfies the invariant |
| HttpExecute.HttpParser.Execute | src/esp32sdk/http_parser.cpp:638-2084 | a call with the skipping loops and the mark pointers fails exactly when the bytes fed one at a time fail, with the same error at the same byte and the callbacks of the bytes before it unless they meet the header limit, never trips an assertion, and otherwise ends in the same state with the same merged callbacks and the same number of bytes taken |
| HttpExecute.HttpParser.ExecuteParts | src/esp32sdk/http_parser.cpp:638-2084 | split invariance: for every way to cut the input into calls, success, final state, merged callbacks, the exit for an upgrade, the bytes left unread and, apart from the header limit, the error depend only on the bytes |
| HttpExecute.ExitSeen | src/esp32sdk/http_parser.cpp:1812-1923 | the parser leaves for an upgrade if and only if it is then between messages with the upgrade flag set |
| HttpExecute.HttpParser.ExecuteEof | src/esp32sdk/http_parser.cpp:660-683 | a call without bytes ends a body that lasts until the end of the input, is harmless between messages, and is an error anywhere else |
| HttpExecute.NameLoop | src/esp32sdk/http_parser.cpp:1248-1367 | the loop over a field name stops at the first byte that is no token, with the matcher in the state that byte-by-byte matching gives |
| HttpExecute.ValueLoop | src/esp32sdk/http_parser.cpp:1469-1668 | the loop over a field value stops at CR, LF or an error with the scanner where byte-by-byte scanning puts it, or gives up past the header limit |
| HttpExecute.RunBody | src/esp32sdk/http_parser.cpp:1873-1914 | the body arms take as many bytes as are due and as the buffer has, which is the same as taking them one by one |
| HttpExecute.NextByte | src/esp32sdk/http_parser.cpp:703-2068 | once round the loop keeps the agreement with the bytes taken one at a time, and leaves at most one mark set unless the call ends there |
| HttpRun.RunConcat | src/esp32sdk/http_parser.cpp:638-2084 | feeding two inputs one after the other is feeding their concatenation, also when the first ends in an error or an upgrade |
| HttpInvariant.ByteKeepsInv | src/esp32sdk/http_parser.cpp:703-2049 | one invariant over state, header state, flags, length, byte count and index is kept by every byte that is not refused, and rules out every assertion in the arm taken |
| HttpInvariant.NoTrap | src/esp32sdk/http_parser.cpp:1360-2049 | from every state of the invariant no assertion fires on any byte stream |
| HttpInvariant.NoTrapFromInit | src/esp32sdk/http_parser.cpp:2148-2156 | so no byte stream makes a new parser of any kind trip an assertion |
| HttpMonitor.EveryLogIsAccepted | src/esp32sdk/http_parser.cpp:703-2049 | for every byte stream a monitor that knows nothing of the parser's states accepts the callbacks: begin, line, headers, complete head, body of exactly the announced length, chunks of exactly their sizes or, behind a response head without framing, any data unless the status is 1xx, 204 or 304, end; the bytes still due are those the parser counts |
| HttpMonitor.LogsFromInit | src/esp32sdk/http_parser.cpp:703-2049 | the same from a new parser |
| HttpSkip.SkipName | src/esp32sdk/http_parser.cpp:1248-1367 | a run of name bytes taken one by one moves the matcher over the run and adds the run to the reported name |
| HttpSkip.SkipValue | src/esp32sdk/http_parser.cpp:1469-1668 | the same for value bytes, with the failures of the scan |
| HttpSkip.SkipCounted | src/esp32sdk/http_parser.cpp:1873-1908 | a run of counted body bytes is reported and taken off the counter |
| HttpSkip.SkipToEof | src/esp32sdk/http_parser.cpp:1910-1914 | a run of body bytes until the end of the input is reported |
| HttpTidy.TidyByte | src/esp32sdk/http_parser.cpp:703-2049 | every arm uses marks in pairs: it ends only the data that is being read and starts new data only after that |
| HttpTidy.TidyBodyByte | src/esp32sdk/http_parser.cpp:1873-2028 | the same for the bytes of bodies and chunks, with the body mark live or not |
| HttpMarks.OpsAgree | src/esp32sdk/http_parser.cpp:104-141 | marks into a long buffer and marks into one-byte buffers report the same merged data |
| HttpLength.DigitsCount | src/esp32sdk/http_parser.cpp:1524-1557 | along a run of Content-Length digits the counter is the number written, never wraps, never equals the sentinel; the run is refused exactly when the number before its last digit is above the conservative limit |
| HttpLength.SizeCounts | src/esp32sdk/http_parser.cpp:1941-1976 | the same for chunk sizes, together with the header limit |
| HttpLength.HighByteIsADigit | src/esp32sdk/http_parser.cpp:224-233 | the size line `1` followed by byte 0x80 is read as 16 |
| HttpLength.SizeBytesExact | src/esp32sdk/http_parser.cpp:224-233 | the bytes taken in a chunk size are exactly the hexadecimal digits and the bytes from 128 up |
| HttpLength.NoSizeByte | src/esp32sdk/http_parser.cpp:1925-1965 | any other byte is refused with INVALID_CHUNK_SIZE, but for CR, ; and the space behind at least one digit |
| HttpSpelling.HexPlace | src/esp32sdk/http_parser.cpp:224-233 | a hexadecimal character of either case counts as its place in the alphabet |
| HttpSpelling.WrittenNumber | src/esp32sdk/http_parser.cpp:1941-1976 | what is counted for a size is the number that its characters write, each by its place in the alphabet |
| HttpSpelling.PlacesWeigh | src/esp32sdk/http_parser.cpp:1941-1976 | every number is written by its digits |
| HttpNames.NameRecognised | src/esp32sdk/http_parser.cpp:1198-1367 | the incremental matcher agrees with comparing the name with the five names of interest |
| HttpNames.SpecialNames | src/esp32sdk/http_parser.cpp:1198-1367 | the names that change how a message is read are recognised if and only if they are the name, in any case of letters |
| HttpMethods.MethodRuns | src/esp32sdk/http_parser.cpp:920-1014 | each of the 34 method names and a space is recognised as its method |
| HttpMethods.MethodSound | src/esp32sdk/http_parser.cpp:963-1014 | what is recognised as a method is that method's name, letter by letter |
| HttpMethods.MethodRecognised | src/esp32sdk/http_parser.cpp:920-1014 | bytes before a space are taken as a method if and only if they are the name of one |
| HttpTarget.TargetRuns | src/esp32sdk/http_parser.cpp:1016-1087 | a target that the URL automaton accepts is reported unchanged and leads to the version |
| HttpTarget.TargetStops | src/esp32sdk/http_parser.cpp:1066-1078 | a line end behind a target stands for version 0.9 |
| HttpSpelling.PlainMethods | src/esp32sdk/http_parser.h:163-172 | the method names, letter by letter |
| HttpSpelling.ResourceMethods | src/esp32sdk/http_parser.h:173-181 | the same |
| HttpSpelling.PropertyMethods | src/esp32sdk/http_parser.h:178-180 | the same |
| HttpSpelling.BindingMethods | src/esp32sdk/http_parser.h:182-185 | the same |
| HttpSpelling.VersionMethods | src/esp32sdk/http_parser.h:186-190 | the same |
| HttpSpelling.EventMethods | src/esp32sdk/http_parser.h:191-195 | the same |
| HttpSpelling.ChangeMethods | src/esp32sdk/http_parser.h:196-200 | the same |
| HttpSpelling.LinkMethods | src/esp32sdk/http_parser.h:201-205 | the same |
| HttpSpelling.HeaderNames | src/esp32sdk/http_parser.cpp:164-171 | the names of headers and the words in them, letter by letter |
| HttpSpelling.SingleCharacters | src/esp32sdk/http_parser.cpp:414-415 | the single characters of the parser |
| HttpSpelling.LettersAndDigits | src/esp32sdk/http_parser.cpp:416-420 | letters, digits and hexadecimal digits are these characters |
| HttpSpelling.UrlClasses | src/esp32sdk/http_parser.cpp:421-433 | so are marks, the characters of user information, hosts and URLs |
| HttpSpelling.Tokens | src/esp32sdk/http_parser.cpp:189-222 | the tokens are those of section 3.2.6 of RFC 7230, letters in lower case |
| HttpSpelling.HeaderChars | src/esp32sdk/http_parser.cpp:446-447 | the characters a field value may hold |
| HttpSpelling.FirstLines | src/esp32sdk/http_parser.cpp:1089-1196 | HTTP/ and ICE/ and a version, as they stand in a text |
| HttpHeaders.PlainRuns | src/esp32sdk/http_parser.cpp:1198-1753 | a header of no interest, ended by CR LF or LF alone, is reported as name and value and changes neither flags nor length |
| HttpFraming.LengthRuns | src/esp32sdk/http_parser.cpp:1399-1557 | a Content-Length header whose value is digits within the conservative limit and then spaces sets its flag and the length to its number |
| HttpSpelling.WrittenLength | src/esp32sdk/http_parser.cpp:1524-1557 | a length written in decimal, with spaces behind it, is taken as that length up to the limit on what stands before the last digit |
| HttpFraming.LengthRefused | src/esp32sdk/http_parser.cpp:1399-1557 | any other Content-Length header, also an empty or a second one, is refused, with UNEXPECTED_CONTENT_LENGTH for a second number and INVALID_CONTENT_LENGTH else |
| HttpFraming.LengthScan | src/esp32sdk/http_parser.cpp:1524-1562 | the bytes behind the first digit are taken if and only if they are digits within the limit and then spaces, and the length is then their number |
| HttpFraming.LengthAndTab | src/esp32sdk/http_parser.cpp:1524-1562 | 5 with a space behind it is taken, and with a tab is not |
| HttpCoding.LengthExact | src/esp32sdk/http_parser.cpp:1524-1562 | a value is taken if and only if it is a number within the limit once white space is trimmed, and has no tab |
| HttpFraming.EncodingRuns | src/esp32sdk/http_parser.cpp:1409-1574 | a Transfer-Encoding header, whatever its value, sets the chunked flag if and only if it is the word chunked, in any case, with spaces behind it, and changes nothing else |
| HttpFraming.CodingScan | src/esp32sdk/http_parser.cpp:1413-1574 | along any value the scanner knows exactly whether it is the word chunked, the beginning of it, or neither |
| HttpCoding.ChunkedExact | src/esp32sdk/http_parser.cpp:1413-1574 | a value is recognised if and only if its last coding is chunked and it has neither a comma nor a tab |
| HttpCoding.MissedChunks | src/esp32sdk/http_parser.cpp:1413-1420 | a request whose header lists chunked last but is not recognised ends at its head, and the first byte of its first chunk is refused with INVALID_METHOD |
| HttpCoding.GzipChunked | src/esp32sdk/http_parser.cpp:1413-1420 | so is the digit 5 behind a POST with Transfer-Encoding: gzip, chunked |
| HttpConnection.ConnectionRuns | src/esp32sdk/http_parser.cpp:1444-1707 | a Connection header with any value, also an empty one, leaves exactly the flags that FlagsAfter gives for its comma-separated elements, and is reported as it stands |
| HttpList.ListExact | src/esp32sdk/http_parser.cpp:1576-1668 | a flag is set if and only if its word is an element that the scanner reaches afresh |
| HttpConnection.JoinElements | src/esp32sdk/http_parser.cpp:1576-1668 | every value is such a list: its elements joined by commas are the value |
| HttpList.HeardIsNamed | src/esp32sdk/http_parser.cpp:1576-1668 | whatever the list, no flag is set whose word is not in it, white space around it set aside |
| HttpList.AllReached | src/esp32sdk/http_parser.cpp:1576-1668 | every element is reached afresh if and only if the value does not start with a comma, no element but the last is blank, starts with a byte that is no token, or stops within a word of interest |
| HttpList.ListMeans | src/esp32sdk/http_parser.cpp:1576-1668 | without tabs, and if every element but the last is left well, that is whether the word is in the list |
| HttpList.SwallowedComma | src/esp32sdk/http_parser.cpp:1606-1631 | the list clo,close names close and sets no flag |
| HttpList.CommaFirst | src/esp32sdk/http_parser.cpp:1465-1631 | the list ,close names close and sets no flag |
| HttpList.TabBehind | src/esp32sdk/http_parser.cpp:1633-1668 | the list close, with a tab behind it, names close and sets no flag |
| HttpList.TabInFront | src/esp32sdk/http_parser.cpp:1584-1604 | with a tab behind the comma, close as second element is named and not heard |
| HttpList.EmptyElement | src/esp32sdk/http_parser.cpp:1584-1604 | close behind an empty element is named and not heard |
| HttpLines.UpgradeRuns | src/esp32sdk/http_parser.cpp:1409-1412 | an Upgrade header with a value sets its flag |
| HttpLines.LineRuns | src/esp32sdk/http_parser.cpp:1198-1753 | any header line that is taken is reported as it stands and changes just the flags and the length it stands for |
| HttpLines.LinesRun | src/esp32sdk/http_parser.cpp:1198-1753 | any block of lines with at most one Content-Length, which is taken, is reported line by line, and its flags and length are those of the lines in turn |
| HttpLines.LinesRefused | src/esp32sdk/http_parser.cpp:1198-1753 | any other block of lines is refused with the error of the first line that is not taken |
| HttpLines.HeadersTell | src/esp32sdk/http_parser.cpp:1198-1753 | a body is chunked if and only if a line says so, and counted if and only if a line counts it; the other framing flags stay |
| HttpFolded.FoldedRuns | src/esp32sdk/http_parser.cpp:1681-1719 | a header that goes on in further lines is reported with its value and theirs as one |
| HttpFolded.PlainFolded | src/esp32sdk/http_parser.cpp:1681-1719 | in a header of no interest further lines have no meaning |
| HttpFolded.EncodingFolded | src/esp32sdk/http_parser.cpp:1681-1719 | a Transfer-Encoding header that goes on in a further line does not set the chunked flag, whatever its value |
| HttpFolded.LengthFolded | src/esp32sdk/http_parser.cpp:1681-1719 | a Content-Length keeps its number behind blank further lines |
| HttpFolded.LateValue | src/esp32sdk/http_parser.cpp:1721-1730 | a value may start in a further line |
| HttpChunked.ChunkedRoundTrip | src/esp32sdk/http_parser.cpp:1757-2045 | every list of non-empty chunks, in any hexadecimal spelling with extensions, with any trailer fields that are taken, is consumed whole; the callbacks are chunk header, data and chunk end per chunk, the last chunk's with the trailer fields in it, and one message end; a message that asked for another protocol then leaves |
| HttpSpelling.WrittenChunks | src/esp32sdk/http_parser.cpp:1925-1976 | the chunks of that round trip are exactly those whose size, in hexadecimal characters of either case, is the length of their data |
| HttpSpelling.DataRoundTrip | src/esp32sdk/http_parser.cpp:1925-2045 | any data, cut into any blocks each behind its length in hexadecimal, is consumed whole, and the callbacks deliver the data |
| HttpChunked.TrailerRuns | src/esp32sdk/http_parser.cpp:1757-1766 | trailer fields are reported as headers are, count towards the header limit, and can still say whether the connection goes on |
| HttpChunked.DeliversWhatIsSent | src/esp32sdk/http_parser.cpp:2007-2028 | the body data in those callbacks is the concatenation of the chunks |
| HttpMessage.RequestRuns | src/esp32sdk/http_parser.cpp:920-1923 | a request with any spaces in its line, HTTP/ or ICE/ and any version or none, any header lines that are taken and the body they announce is consumed whole and its callbacks are exactly its own; one that is CONNECT or asks for an upgrade leaves the rest unread, behind any other the parser waits for the next if the connection goes on and is dead if it does not |
| HttpMessage.RequestRefused | src/esp32sdk/http_parser.cpp:1198-1775 | any other block of header lines, or one with both a Content-Length and chunked, is refused, with the error of the first line or UNEXPECTED_CONTENT_LENGTH |
| HttpMessage.Pipelined | src/esp32sdk/http_parser.cpp:920-2127 | for any list of such requests that keep the connection open and in HTTP the callbacks are those of the requests one after the other |
| HttpMessage.PipelinedFromInit | src/esp32sdk/http_parser.cpp:920-2127 | the same from a new parser, which ends waiting for a request |
| HttpMessage.ClosedConnection | src/esp32sdk/http_parser.cpp:716-724 | a dead parser ignores line ends and refuses any other byte, that byte, with CLOSED_CONNECTION |
| HttpMessage.ClosedAfter | src/esp32sdk/http_parser.cpp:716-2127 | behind requests that keep the connection open and one that closes it, in a head or a trailer, by a list that hears close or by an old version without keep-alive, the next byte that is no line end is refused with CLOSED_CONNECTION |
| HttpMessage.LeftAfter | src/esp32sdk/http_parser.cpp:1826-1923 | behind requests that keep the connection open and one that asks for another protocol everything is left unread |
| HttpResponse.StatusCounts | src/esp32sdk/http_parser.cpp:858-886 | the status is the value of its digits, however many, and is refused exactly above 999 |
| HttpSpelling.WrittenStatus | src/esp32sdk/http_parser.cpp:858-886 | a status written in decimal is that status |
| HttpSpelling.StatusesWithoutBody | src/esp32sdk/http_parser.cpp:2096-2101 | the statuses without a body are 100 to 199, 204 and 304 |
| HttpResponse.StatusLineRuns | src/esp32sdk/http_parser.cpp:763-918 | a status line of any version, with any number of spaces in front of the code, with or without one behind it, ended by CR LF or LF alone, is consumed, its reason reported, also an empty one |
| HttpResponse.ResponseRuns | src/esp32sdk/http_parser.cpp:763-2127 | a response of any version with any header lines that are taken, that has Content-Length, is chunked, or has status 1xx, 204 or 304 and no framing, is consumed whole with exactly its callbacks; a switch of protocols leaves the rest unread, behind any other the parser waits for the next if the connection goes on and is dead if it does not |
| HttpResponse.ResponseRefused | src/esp32sdk/http_parser.cpp:1198-1775 | any other block of header lines, or one with both a Content-Length and chunked, is refused |
| HttpResponse.ResponsesRun | src/esp32sdk/http_parser.cpp:763-2127 | for any list of such responses that keep the connection open the callbacks are those of the responses one after the other |
| HttpResponse.ClosedAfterResponse | src/esp32sdk/http_parser.cpp:716-2127 | behind one that closes it the next byte that is no line end is refused with CLOSED_CONNECTION |
| HttpResponse.ResponseUntilEof | src/esp32sdk/http_parser.cpp:1826-1914 | any other response without framing, also with a transfer coding that is not recognised, has everything behind its head as its body |
| HttpEither.EitherRequest | src/esp32sdk/http_parser.cpp:726-761 | a parser for either kind reads a request as one for requests does |
| HttpEither.EitherResponse | src/esp32sdk/http_parser.cpp:726-761 | and a response as one for responses does |
| HttpEither.EitherFromInit | src/esp32sdk/http_parser.cpp:2148-2156 | a new parser for either kind is such a parser |
| HttpEither.NeitherOf | src/esp32sdk/http_parser.cpp:746-761 | behind an H anything but T and E is refused |
| HttpRefusals.StatusLineRefuses | src/esp32sdk/http_parser.cpp:763-918 | in a status line every byte that has no place where it stands is refused with its error |
| HttpRefusals.RequestLineRefuses | src/esp32sdk/http_parser.cpp:920-1196 | the same in a request line |
| HttpRefusals.TargetRefuses | src/esp32sdk/http_parser.cpp:1016-1087 | a target is refused at the byte that the URL automaton does not take |
| HttpRefusals.LineRefuses | src/esp32sdk/http_parser.cpp:1198-2045 | the same in header lines and the chunk framing |
| UrlFields.UrlStep | src/esp32sdk/http_parser.cpp:490-636 | the URL automaton goes through the components from left to right and leaves only delimiters between them |
| UrlFields.FirstPassStep | src/esp32sdk/http_parser.cpp:2362-2418 | each step of the first pass keeps the spans exact, in order, and the note of an @ right |
| UrlHost.HostStep | src/esp32sdk/http_parser.cpp:2176-2256 | the same for the host automaton; the code opens a span exactly when the component changes |
| UrlHost.SecondPassStep | src/esp32sdk/http_parser.cpp:2271-2321 | each step of the second pass keeps its spans exact and in order, and the port's bytes digits |
| UrlSplit.UrlParts.ParseHost | src/esp32sdk/http_parser.cpp:2258-2338 | the second pass fails exactly if the host automaton does not end in a host, an address or a port, and otherwise replaces the server's span by those of its parts |
| UrlSplit.UrlParts.ParseUrl | src/esp32sdk/http_parser.cpp:2345-2466 | a URL is accepted if and only if both automata accept, a scheme has a host, CONNECT has exactly host and port, and the port is at most 65535; the report is then exact |
| UrlSplit.ReportedComponents | src/esp32sdk/http_parser.cpp:2345-2466 | reported components are non-empty and in bounds, share no byte, come in textual order, every other byte is one of the seven delimiters, and the port is the value of its digits |
| HttpSpelling.WrittenPort | src/esp32sdk/http_parser.cpp:2449-2463 | a port written in decimal is reported as that number |
| UrlSplit.AcceptedEnds | src/esp32sdk/http_parser.cpp:2420-2425 | an accepted URL does not stop in or right behind its scheme |
| UrlSplit.UrlAgreement | src/esp32sdk/http_parser.cpp:1016-1087 | any URL the splitter accepts is accepted in the request line of the matching method, reported unchanged, and the space behind it leads to the version |
| UrlRoundTrip.RoundTrip | src/esp32sdk/http_parser.cpp:2345-2466 | every URL put together from scheme, user information, name or bracketed address with zone, port, path, query and fragment is accepted, and the bytes labelled as each component are that component |
| UrlRoundTrip.ReportedBack | src/esp32sdk/http_parser.cpp:2345-2466 | what a call then reports has a span exactly for each non-empty component, the span spells the component, and the port is its value |
| UrlRoundTrip.ConnectRoundTrip | src/esp32sdk/http_parser.cpp:2432-2436 | a host and a port, also with an @ in front or a ? and some # behind, are accepted as the target of CONNECT, and given back |
| UrlGrammar.ServerSound | src/esp32sdk/http_parser.cpp:2176-2338 | every server part that the host automaton accepts is user information, a name or an address, and a port, spelled in the one way |
| UrlGrammar.AcceptedSound | src/esp32sdk/http_parser.cpp:2345-2466 | every accepted URL can be taken apart into such components that spell it |
| UrlGrammar.AcceptedIff | src/esp32sdk/http_parser.cpp:2345-2466 | the URLs that are accepted are exactly those that can be put together from components, with a port of at most 65535 |
| UrlGrammar.ConnectSound | src/esp32sdk/http_parser.cpp:2432-2436 | every target that CONNECT accepts is a host and a port with no more than those delimiters around them |
| UrlGrammar.ConnectIff | src/esp32sdk/http_parser.cpp:2432-2436 | the targets that CONNECT accepts are exactly these |
| SpiClock.UnpackPack | src/cores/esp32-hal-spi.cpp:1294-1303 | the register holds its five fields |
| SpiClock.FieldPlaces | src/cores/esp32-hal-spi.cpp:1294-1303 | the fields stand at bits 0, 6, 12, 18 and 31 |
| SpiClock.RowBest | src/cores/esp32-hal-spi.cpp:1345-1356 | for one clkcnt_n no pre-divider beats the two around the quotient, clamped |
| SpiClock.FrequencyToClockDiv | src/cores/esp32-hal-spi.cpp:1319-1372 | the returned register holds n at bit 12, half of n + 1 at bit 0 and the pre-divider at bit 18 of a pair that gives the largest frequency not above the request among all 63 times 8192 pairs, for every APB clock below 2^31 and every request from the slowest setting up; faster requests get bit 31 alone and slower ones 0x7FFFF000 |
| SpiClock.RateIs | src/cores/esp32-hal-spi.cpp:1305-1312 | the frequency of a pair is the APB clock divided by both dividers |
| SpiClock.NothingSlower | src/cores/esp32-hal-spi.cpp:1327-1331 | the register returned for slower requests is the slowest setting |
| Crc.Division | src/intf/crccalc.cpp:26-43 | the bit-serial CRC is division of polynomials over GF(2): message times x^32 plus seed equals quotient times generator plus CRC |
| Crc.GeneratorTerms | src/intf/crccalc.cpp:26-27 | the generator has the terms of section 3.2.9 of IEEE 802.3 |
| Crc.DivisionUnique | src/intf/crccalc.cpp:26-43 | quotient and remainder of that division are unique |
| Crc.EightSteps | src/intf/crccalc.cpp:45-49 | one table look-up does the work of eight steps of the division |
| Crc.TrailerCheck | src/intf/crccalc.cpp:45-49 | four big-endian bytes behind a message drive the remainder to zero if and only if they are its CRC |
| Crc.BurstDetected | src/intf/crccalc.cpp:45-49 | messages that differ within four neighbouring bytes have different CRCs |
| Crc.CrcTable.Init | src/intf/crccalc.cpp:26-43 | each entry of the table is what eight steps do to its byte |
| Crc.CrcTable.Update | src/intf/crccalc.cpp:45-49 | with that table one byte updates the CRC |
| Crc.CrcTable.Signature | src/tbintf/tft.cpp:345-352 | updating byte by byte gives the CRC of the message |
| FlashLayout.OverlapExact | src/modules/cchanflash.cpp:171-177 | the overlap test is exactly whether the ranges share an address |
| FlashLayout.ClashIff | src/modules/cchanflash.cpp:158-189 | an overlap is reported exactly if an address of the new range is in the chip |
| FlashLayout.InsertAdds | src/modules/cchanflash.cpp:158-189 | adding a range adds its addresses to those of the chip and no others |
| FlashLayout.InChipIff | src/modules/cchanflash.cpp:34-49 | the addresses of the chip are those of its ranges, first and last included |
| FlashLayout.InsertOk | src/modules/cchanflash.cpp:158-189 | ranges of whole sectors, in order and disjoint, stay so if and only if the new range is of whole sectors and meets none of them |
| FlashLayout.InsertInOrder | src/modules/cchanflash.cpp:158-189 | whatever the new range, the ranges stay in the order of their first addresses |
| FlashLayout.InBounds | src/modules/cchanflash.cpp:28-32 | sector, page and word numbers of an address stay inside what is allocated |
| FlashLayout.Injective | src/modules/cchanflash.cpp:28-32 | two addresses of any ranges share a sector entry exactly if they are in the same sector, and a page entry exactly if they are in the same page |
| FlashChip.WordsAfter | src/modules/cchanflash.cpp:271-359 | over every run each word holds the last value programmed since its sector was erased, read off the history alone |
| FlashChip.KnownAfter | src/modules/cchanflash.cpp:271-293 | a sector is known exactly if an erase command with its number, modulo 2^20, is in the history and its address in the chip |
| FlashChip.EraseExact | src/modules/cchanflash.cpp:271-289 | an erase of a sector in the chip answers 0, makes exactly that sector known and removes exactly the words with an address from 4096 times its number on |
| FlashChip.EraseRefused | src/modules/cchanflash.cpp:274-279 | outside the chip it answers 1 and changes nothing |
| FlashChip.ProgramExact | src/modules/cchanflash.cpp:295-359 | a program command that fits a page of a known sector answers 0 and exactly the words from its address on take its data; any other answers 1 and changes nothing |
| FlashChip.ReadCases | src/modules/cchanflash.cpp:361-426 | reads are refused outside the chip, random from an unknown sector, blank from an unused page, and endless or empty exactly at the wrapped end positions |
| FlashChip.OnePageExact | src/modules/cchanflash.cpp:316 | the page test is whether the data ends within 256 bytes of the page's start |
| FlashChip.ReadBack | src/modules/cchanflash.cpp:361-426 | after every run a page-contained read of a known sector answers 4*size+1 bytes, little-endian, word by word: the last value; 0 below a later programmed word; all ones elsewhere |
| FlashChip.Frame | src/modules/cchanflash.cpp:261-428 | a run in which no command has a word as its target leaves it as it was |
| FlashChip.BytesOfWord | src/modules/cchanflash.cpp:349-353 | the bytes read back are the bytes that were sent |
| FlashStore.EraseKeeps | src/modules/cchanflash.cpp:284-289 | erasing keeps the vectors an image of the chip |
| FlashStore.ProgramKeeps | src/modules/cchanflash.cpp:336-354 | programming, with the extension of the page by zeros, keeps the vectors an image of the chip |
| FlashStore.AnswerOffPage | src/modules/cchanflash.cpp:400-424 | what a page answers for a word is what the chip holds there |
| Flash.FlashDevice.AddRange | src/modules/cchanflash.cpp:158-189 | after initialisation or for an empty range nothing changes; otherwise the range is inserted in order and an overlap is reported exactly if there is one |
| Flash.FlashDevice.RangeInit | src/modules/cchanflash.cpp:191-242 | fails exactly without ranges or sectors; otherwise the device is a chip of unknown contents |
| Flash.FlashDevice.GetRange | src/modules/cchanflash.cpp:34-49 | for any ranges in order, also overlapping ones, the early exit finds the first range with the address, or that there is none |
| Flash.FlashDevice.Check | src/modules/cchanflash.cpp:295-326 | a program command is allowed exactly if its address is in a range, its sector known, its size 1 to 64 and its words in one page |
| Flash.FlashDevice.Erase | src/modules/cchanflash.cpp:271-293 | the device does and answers what the chip does |
| Flash.FlashDevice.Program | src/modules/cchanflash.cpp:328-359 | storing the data of a program command that has passed its checks is what the chip does |
| Flash.FlashDevice.Read | src/modules/cchanflash.cpp:361-426 | the same, with the reads that never end |
| Flash.FlashDevice.Serve | src/modules/cchanflash.cpp:261-428 | over every stream of bytes the device answers, stops reading, hangs and keeps its chip exactly as the message loop over the chip does |
| Flash.FlashDevice.OneMessage | src/modules/cchanflash.cpp:261-428 | one message: an erase, a program with its data line if it is allowed and without it if not, or a read, with the last address and size if the line has none |
| FlashDriver.CommandHeard | src/esp32sdk/spi_flash/esp_spi_flash.cpp:73-175 | the line that the driver sends for a command is taken as that command |
| FlashDriver.DriverHeard | src/esp32sdk/spi_flash/esp_spi_flash.cpp:73-175 | if every program command meets its checks, the device answers each command of the driver as the chip does, whatever the data |
| FlashDriver.DriverReadsBack | src/esp32sdk/spi_flash/esp_spi_flash.cpp:73-175 | from power-up, after any commands of the driver that meet their checks and are answered, a page-contained read of an erased sector is answered with the little-endian words of the history and a 0 |
| FlashDriver.WhatIsWrittenIsRead | src/esp32sdk/spi_flash/esp_spi_flash.cpp:73-175 | from power-up, whatever came before, what the driver programs into a page of a sector that it has erased is what it reads back, byte for byte |
| FlashDriver.ErasedByNumber | src/modules/cchanflash.cpp:271-289 | an erase command with the number of the address's sector is enough for that |
| FlashDriver.LineText | src/esp32sdk/spi_flash/esp_spi_flash.cpp:73-175 | the lines of the driver, letter by letter |
| FlashDriver.Session | src/modules/cchanflash.cpp:261-428 | the same of the replies of the device itself |
| FlashDriver.RefusedHeard | src/esp32sdk/spi_flash/esp_spi_flash.cpp:114-124 | a refused program command is answered twice, by its refusal and by a read that nobody asked for |
| FlashDriver.AnsweredIff | src/esp32sdk/spi_flash/esp_spi_flash.cpp:73-175 | with data on one line the device answers the driver as the chip does if and only if every program command meets its checks, up to a read that never ends |
| FlashDriver.UnknownSector | src/modules/cchanflash.cpp:301-326 | a program to a sector never erased is answered by a refusal and then by random words |
| FlashDriver.DataErases | src/modules/cchanflash.cpp:261-293 | a line feed in the data of a refused program command makes what follows a command: it can erase a sector |
| FlashDriver.UntaggedLine | src/modules/cchanflash.cpp:322-326 | an accepted program command followed by a line without d: is answered 1, programs nothing and takes that line |
| FlashDriver.EmptyLineDropsNext | src/modules/cchanflash.cpp:322-326 | if that line is empty the one behind it is dropped in its place |
| FlashDriver.UnreadNumbers | src/modules/cchanflash.cpp:271-300 | a number that cannot be read is the one of the message before |
| I2c.I2cEngine.Transfer | src/modules/i2c.cpp:33-121 | one token: new state, levels put on the lines, and report |
| I2c.I2cEngine.Run | src/modules/i2c.cpp:25-122 | the same over a stream of tokens |
| I2c.TokenRecovered | src/modules/i2c.cpp:38-120 | with any slave that is stable while SCL is high, a receiver recovers the token from the lines if and only if the slave leaves SDA alone at S and P and a P comes while the bus is held |
| I2c.TokenShown | src/modules/i2c.cpp:38-120 | what any token shows on the lines with any stable slave, and the receiver is in step again |
| I2c.ShownIff | src/modules/i2c.cpp:38-120 | a token shows what it means if and only if it meets that condition |
| I2c.RunShown | src/modules/i2c.cpp:25-122 | over every run the receiver sees what the tokens show, one by one |
| I2c.RunRecovered | src/modules/i2c.cpp:25-122 | over every run with such a slave the receiver recovers exactly the S, P and bits that were acted on if and only if each token meets that condition |
| I2c.BusRecovered | src/modules/i2c.cpp:25-122 | the same from power-up on a free bus |
| I2c.HeldLow | src/modules/i2c.cpp:38-69 | with a stable slave that holds SDA low, S S P reads as a start and a low bit |
| I2c.ReportIsOnTheWire | src/modules/i2c.cpp:70-118 | what the engine reports for Z is the bit the receiver sees |
| I2cTransfer.WriteTransfer | src/modules/i2c.cpp:38-98 | behind an acknowledged address with direction 0 the master's bits go onto the bus, byte after acknowledged byte, up to the stop; the acknowledges are reported |
| I2cTransfer.ReadTransfer | src/modules/i2c.cpp:38-120 | behind an acknowledged address with direction 1 the slave's bits are seen and reported and the master acknowledges, its own bits do nothing, and after its refusal nothing does, up to the stop |
| I2cTransfer.RefusedTransfer | src/modules/i2c.cpp:70-79 | behind a refused address nothing goes onto the bus up to the stop |
| I2cTransfer.PowerUp | src/modules/i2c.cpp:25-31 | the bus is free at power-up |
| GpioMatrix.OutStepExact | src/modules/gpio_matrix.cpp:39-56 | an output update of a mux agrees with a recompute exactly if its function is not 257 or the pin is high |
| GpioMatrix.EnableStepExact | src/modules/gpio_matrix.cpp:58-77 | the same for an enable update and functions 257 and 258 |
| GpioMatrix.UpdateExact | src/modules/gpio_matrix.cpp:168-185 | one output or enable update keeps all muxes equal to a recompute if and only if every connected pin meets its condition |
| GpioMatrix.RunExact | src/modules/gpio_matrix.cpp:168-185 | over every run of updates the muxes stay equal to a recompute all along if and only if each update does |
| GpioMatrix.Matrix.UpdateOut | src/modules/gpio_matrix.cpp:153-180 | an output update leaves each output bit set if it was set or to be set, and clear if to be cleared, clears both requests, changes no other register, and after a delta cycle the muxes agree with a recompute exactly under that condition for every connected pin |
| GpioMatrix.Matrix.UpdateEnable | src/modules/gpio_matrix.cpp:160-185 | the same for an enable update |
| GpioMatrix.Matrix.UpdateAll | src/modules/gpio_matrix.cpp:168-259 | a full update does both and leaves every connected mux with function 256 at 258, 257 or 256 as enable and output say, and any other at its function, whatever was written before it in the same delta cycle |
| GpioMatrix.Matrix.Run | src/modules/gpio_matrix.cpp:168-185 | a run of delta-separated output-only and enable-only updates leaves exactly the registers and muxes that the updates give one by one |
| GpioMatrix.BitsAfter | src/modules/gpio_matrix.cpp:153-185 | over every run of updates each output and enable bit is what the last update that sets, clears or writes it made of it, setting before clearing before writing |
| GpioMatrix.PinShows | src/modules/gpio_matrix.cpp:39-185 | over every run that keeps the muxes right a connected pin with function 256 floats unless it was last enabled and is driven as it was last written |
| GpioMatrix.MuxPins | src/modules/gpio_matrix.cpp:83-125 | the pins without an output mux |
| GpioMatrix.PlainRunsKeep | src/modules/gpio_matrix.cpp:168-185 | without functions 257 and 258 every run does |
| GpioMatrix.OthersBreak | src/modules/gpio_matrix.cpp:168-185 | with one of them some single update leaves a mux on the wrong input, and that mux is named |
| Wire.Resolve | src/modules/gn_mixed.cpp:218-253 | the scan with its shortcuts and early exit is the fold of the table in which an unknown or analog result is final |
| Wire.StopIsFold | src/modules/gn_mixed.cpp:218-253 | without analog drivers that is the plain fold |
| Wire.AnalogIs | src/modules/gn_mixed.cpp:218-253 | the result is analog exactly if the first driver that is not Z is analog |
| Wire.FoldIs | src/modules/gn_mixed.cpp:57-66 | the fold in closed form |
| Wire.ResolvesExactly | src/modules/gn_mixed.cpp:218-253 | the result is X on any X or on 0 against 1, else strong, else weak, else Z, if and only if no strong value is scanned too late to hide a clash of weak ones |
| Wire.OrderDoesNotMatter | src/modules/gn_mixed.cpp:218-253 | without both weak values only the set of driven values counts |
| Wire.OrderMatters | src/modules/gn_mixed.cpp:218-253 | with both and one strong value the order decides |
| Wire.ValueOfOf | src/modules/gn_mixed.cpp:207-216 | a value made from a logic value has that value |
| Wire.LevelsAndStrengths | src/modules/gn_mixed.cpp:78-125 | the level and the strength of each logic value |
| Wire.Signal.Write | src/modules/gn_mixed.cpp:255-281 | a write leaves one slot per process with the last value of each, and says whether anything changed |
| Wire.Signal.Run | src/modules/gn_mixed.cpp:255-281 | after any run of writes the slots hold each process's last value and the wire has their resolution |
| CharChannel.Channel.Outtake | src/modules/cchan.cpp:51-69 | every byte sent is put on the low eight bits of the line and the ninth is toggled, so the line changes whatever the byte is and the receiver wakes exactly once |
| CharChannel.Channel.Intake | src/modules/cchan.cpp:26-49 | the receiver waits for idle, then stores each byte that finds room |
| CharChannel.Channel.Run | src/modules/cchan.cpp:26-69 | over every run of the two ends the channel is a bounded queue |
| CharChannel.Conserved | src/modules/cchan.cpp:26-69 | what was read and what waits are exactly the bytes that found room, in order and once |
| CharChannel.Lossless | src/modules/cchan.cpp:26-69 | they are all the bytes sent if and only if each found room as it came |
| Decimal.DigitCount | src/cores/Print.cpp:252-272 | in any base a number of k bits has at most k digits |
| Decimal.DigitsMean | src/cores/Print.cpp:252-272 | in any base up to 36 every character is a digit of that base in the alphabet 0 to 9 and A to Z, there is no leading zero, and read with the alphabet they are the number |
| Decimal.OtherDigits | src/cores/Print.cpp:268-269 | the characters of digits from 36 on, in signed bytes |
| Decimal.PrintNumber | src/cores/Print.cpp:252-272 | the buffer holds the digits of the number, its 64 cells are always enough, and what is written are these digits up to a byte 0, which in bases up to 36 are all, and read as the number |
| Decimal.PrintLong | src/cores/Print.cpp:114-128 | in base 10 a negative number is a minus sign and the digits of its amount; any other base writes the digits of the two's complement up to a byte 0, and base 0 one raw byte |
| Decimal.PrintedWhole | src/cores/Print.cpp:264-271 | a number is printed whole if and only if 208 is not among its digits |
| Decimal.NothingPrinted | src/cores/Print.cpp:264-271 | 208 in base 255 prints nothing |
| Decimal.Stream.PeekNextDigit | src/cores/Stream.cpp:48-64 | everything before the first digit or minus sign is discarded, nothing else |
| Decimal.Stream.ParseInt | src/cores/Stream.cpp:142-170 | value, bytes taken and overflow of the signed arithmetic are those of the bytes ahead; it waits for ever exactly if the skip character is -1 and the number ends with the stream |
| Decimal.ParseMeans | src/cores/Stream.cpp:142-170 | what is parsed: from the first digit or minus sign on, the digits that are not the skip character, read in decimal, negative behind a minus sign unless that is the skip character, up to the first other character |
| Decimal.DigitsValue | src/cores/Stream.cpp:153-164 | reading the digits of a number gives the number, and overflows exactly within 48 of the largest one |
| Decimal.RoundTrip | src/cores/Stream.cpp:142-170 | whatever stands before and behind it, a printed number is parsed back, nothing behind it is taken, and the arithmetic stays in range if and only if its amount is at most 2^63 - 49 |

## Left out

- HttpExecute.HttpParser.Execute: the header limit and the buffer together stay below 2^32, because the byte counter is a 32-bit number that larger buffers would wrap; data that a mark has collected when an error is met is not delivered, and how much that is depends on the cut.
- HttpExecute.HttpParser.ExecuteParts: where the bytes one at a time meet the header limit, only that there is an error; which one depends on the cut.
- HTTP callbacks that fail, pause, skip the body or change the parser, non-strict mode, and callers that write parser fields themselves.
- HttpLines.LinesRun: lines that go on in further lines are not in the blocks; `HttpFolded` describes them one header at a time, without the Connection header.
- HttpList.ListMeans: says when a list means what it says, one way; the exact condition for one element is `ListExact`.
- UrlSplit.UrlParts.ParseUrl: URLs shorter than 65536 bytes, because offsets are 16-bit numbers.
- SpiClock.FrequencyToClockDiv: APB clocks below 2^31, where the signed variables are exact; a request of 0 with an APB clock below 2^19 divides by zero.
- Flash.FlashDevice.Serve: waiting times, and an input that ends within a message, for which the device waits; ranges of whole sectors that do not overlap, because with others the maps are not injective.
- FlashDriver.AnsweredIff: the data of a refused command holds no line feed; if it does, it is commands of its own, and can by chance be answered like those that were meant.
- `preload` and `preerase` of the flash, which set up tests, and the end of the simulation when a command is refused.
- I2c.RunRecovered: SCL is not stretched by the slave.
- GpioMatrix.Matrix.Run: the input muxes, the pad driver and pins without a pad.
- Wire.Resolve: analog levels.
- CharChannel.Channel.Run: a receiver that starts while bytes are already being sent; the baud period.
- Decimal.PrintLong: the smallest number in base 10, whose negation overflows.
- Floating-point printing and parsing, `find` and `findUntil`, the ADC.
- Boards, wiring, tracing, UARTs, interrupts, LEDC, PCNT, NVS, the network interface and the SPI transfer code.

# minihttpd core, modelled in Dafny

minihttpd is a small HTTP/1.x server. It reads one configuration object. It
accepts a bounded number of clients at a time. For each client it runs a
keep-alive loop:

1. Read bytes until the blank line that ends the header block.
2. Parse the request line and the header fields.
3. Drain the request body announced by `Content-Length`.
4. Answer `GET`, `POST` and `DELETE` with a stub HTML page, and any other
   method with a 501 error page.

An oversized or unparsable header block gets a 400 page and closes the
connection. A header block cut off by the end of the stream, or a body
shorter than its `Content-Length`, closes the connection without a reply.

This project models that core:

- `text.dfy` (module `Text`) holds the string search, decimal rendering and
  counting that the other modules share. These are `std::string::find` and
  `std::to_string` in the source.
- `utils.dfy` (module `Utils`) holds `trim`, `to_lower`, `hexval`,
  `url_decode`, `html_escape` and `error_page_html`. The loops of the source
  are methods, each proved equal to a specification function. The inverse
  properties are proved about those functions.
- `http.dfy` (module `Http`) holds the request parser `parse_http_request_headers`:
  - the CRLF line split;
  - the request-line checks;
  - the header-line loop;
  - the `Content-Length` conversion with its overflow guard;
  - `build_response_head`;
  - `status_reason`, `content_type_for_path` and `is_token_char`.
- `http_properties.dfy` (module `HttpProperties`) holds the lemmas about the
  parser:
  - every error and the way it arises;
  - the fields of a successful parse;
  - a well-formed request text parses back into its parts;
  - the last duplicate header wins;
  - `Content-Length` round-trips;
  - a response head is framed by CRLF CRLF, splits back into its lines, and
    lists every header.
- `config.dfy` (module `Config`) holds the getters `get_u64`, `get_str` and
  `get_bool` and the validation of `load_config_json`. They work over an
  already parsed JSON object.
- `logger.dfy` (module `Logging`) holds `parse_level`, `level_to_string` and
  the `Logger` class. The class keeps its level field and its level filter.
  The records it writes are a sequence field.
- `socket.dfy` (module `Socket`) models the peer of a connection:
  - what `recv` can return (data, `EINTR`, an error, or end of stream);
  - how far `send` gets before the socket fails.
- `server.dfy` (module `Server`) holds the connection engine:
  - `wants_keepalive`, `send_all`, `send_error`, `send_stub_response` and
    `drain_body`;
  - the header accumulation, parse, dispatch and keep-alive loop of
    `handle_client`;
  - the admission check of `run`, as a class with a counter of active clients.
- `server_properties.dfy` (module `ServerProperties`) holds the lemmas that
  relate keep-alive negotiation, dispatch and the response head.

Bytes are modelled as `char`s. Unsigned machine integers are `nat`s, with
their bounds written out where the source checks them:

- `Content-Length` must not exceed 2^64-1.
- The configuration's `uint32_t` fields must not exceed 2^32-1.
- The JSON library stores integers of 2^64 and above as floating point.
- `get<long long>` turns values from 2^63 up negative.

## Model

| member | source | states |
|---|---|---|
| Text.IndexOf | src/http.cpp:83 | a position that `find` reports lies at or after the start and the pattern occurs there |
| Text.IndexOfFirst | src/http.cpp:83 | the reported position is the first occurrence; no result means no occurrence from the start on |
| Text.IndexOfSuffix | src/http.cpp:83 | searching from an offset is searching the suffix, shifted by that offset |
| Text.NatToString | src/server.cpp:80 | `std::to_string` of a size is a non-empty digit string without a leading zero |
| Text.CountAppend | src/utils.cpp:71-81 | occurrences of a character in a concatenation add up |
| Text.IntToStringAbsent | src/server.cpp:99 | a rendered status code contains no markup character |
| Text.IndexOfPrefix | src/server.cpp:183 | the first CRLF CRLF of a buffer is still the first in any prefix that contains it |
| Utils.Trim | src/utils.cpp:9-15 | the two index loops return exactly the whitespace-trimmed string |
| Utils.TrimmedIsInnerSlice | src/utils.cpp:9-15 | the trimmed string is a contiguous slice; only whitespace is cut at either end; the result neither starts nor ends with whitespace |
| Utils.TrimIdempotent | src/utils.cpp:9-15 | trimming twice is trimming once |
| Utils.LowerAscii | src/utils.cpp:17-21 | same length, each character folded on its own |
| Utils.ToLower | src/utils.cpp:17-21 | the in-place loop yields the ASCII lower-casing of its input |
| Utils.LowerAsciiSpec | src/utils.cpp:17-21 | `A`-`Z` move up by 32 into `a`-`z`; every other character is unchanged; lower-casing is idempotent |
| Utils.HexVal | src/utils.cpp:23-28 | the value is within -1..15, and it is non-negative exactly for hex digits |
| Utils.HexValInvertsDigit | src/utils.cpp:23-28 | `hexval` maps both the upper-case and the lower-case spelling of a hex digit back to its value |
| Utils.UrlDecoded | src/utils.cpp:30-53 | decoding never lengthens the string |
| Utils.UrlDecodedStep | src/utils.cpp:34-50 | `%` followed by two hex digits becomes one byte 16*hi+lo; `+` becomes a space; anything else, including a `%` too close to the end or before a non-hex digit, is copied |
| Utils.UrlDecode | src/utils.cpp:30-53 | the index loop yields the decoded string |
| Utils.UrlDecodeInvertsPercentEncoding | src/utils.cpp:30-53 | decoding the `%XX` encoding of any byte string gives that string back |
| Utils.UrlDecodePlainIdentity | src/utils.cpp:30-53 | a string without `%` and `+` decodes to itself |
| Utils.HtmlEscaped | src/utils.cpp:55-69 | the escaped text holds none of `<` `>` `"` `'` and is at least as long as the input |
| Utils.HtmlEscape | src/utils.cpp:55-69 | the loop yields the escaped text |
| Utils.HtmlEscapeRoundTrip | src/utils.cpp:55-69 | unescaping the five entities restores the input, so escaping loses nothing |
| Utils.HtmlEscapePlainIdentity | src/utils.cpp:57-66 | text without the five special characters is left as it is |
| Utils.EscapedHasNoTagOpen | src/utils.cpp:61 | escaped text contains no `<` |
| Utils.CountConcatPointwise | src/utils.cpp:71-81 | pages assembled from pieces with equally many `<` have equally many `<` |
| Utils.ErrorPageMarkupIsFixed | src/utils.cpp:71-81 | `error_page_html`: whatever the status, title and detail, an error page opens exactly the tags of its template, so no caller text injects markup |
| Http.LastIndexOf | src/http.cpp:39 | `find_last_of('.')` reports the last dot; no result means there is no dot |
| Http.OverflowGuardExact | src/http.cpp:67 | the guard `v > (max - d) / 10` fires exactly when `v*10 + d` would exceed 2^64-1 |
| Http.DecimalValuePrefix | src/http.cpp:64-69 | the accumulated value only grows digit by digit, so a guard that never fired means the whole value fits |
| Http.ParseContentLength | src/http.cpp:61-72 | success exactly for a non-empty digit string whose value is at most 2^64-1; the value is the decimal value; on failure the output is left untouched |
| Http.WordEnd | src/http.cpp:92-93 | a word read by `>>` runs up to, and not including, the next whitespace |
| Http.ParseHeaderLines | src/http.cpp:114-130 | success exactly when no error is set; the only errors are the three header-line errors; the request-line fields and the content length are untouched |
| Http.SplitCRLFStep | src/http.cpp:81-88 | one turn of the split loop takes the line up to the next CRLF and continues after it |
| Http.SplitLines | src/http.cpp:81-88 | the loop yields the CRLF-terminated lines of the blob, dropping a final unterminated piece |
| Http.ReadRequestLine | src/http.cpp:90-112 | the request-line checks set the same success flag, partial request and error as the reference parse, in the source's order: words, version, method, target |
| Http.ReadHeaderLines | src/http.cpp:114-130 | the header loop agrees with the reference parse of the header lines |
| Http.ParseRequestHeaders | src/http.cpp:74-142 | the whole parser returns exactly the reference parse of the blob, including the partially filled request on failure |
| Http.BuildResponseHead | src/http.cpp:144-152 | the head is the status line, one `Name: value` line per header in the map's enumeration order and an empty line, each ended by CRLF |
| HttpProperties.StatusReasonKnown | src/http.cpp:26-36 | `status_reason` gives a real phrase exactly for its six statuses 200, 400, 403, 404, 501 and 503, and "Unknown" for any other |
| HttpProperties.StatusReasonDistinct | src/http.cpp:26-36 | distinct known statuses have distinct reasons |
| HttpProperties.ContentTypeByLastExtension | src/http.cpp:38-55 | `content_type_for_path`: the type is chosen by the text after the last dot, compared case-insensitively |
| HttpProperties.ContentTypeWithoutDot | src/http.cpp:38-55 | a path without a dot is `application/octet-stream` |
| HttpProperties.TokenCharIsNoSeparator | src/http.cpp:57-59 | `is_token_char`: a token character is never a colon, CR, LF or whitespace |
| HttpProperties.LowerHeaderName | src/http.cpp:124-129 | lower-casing a valid header name keeps it valid |
| HttpProperties.MethodTokenCheckUnreachable | src/http.cpp:103-106 | the method check fails exactly when some character is not upper case, and its token test can never fail after that |
| HttpProperties.DecimalOfNatToString | src/http.cpp:61-72 | reading back a rendered number gives the number |
| HttpProperties.ContentLengthRoundTrip | src/http.cpp:61-72 | a rendered length parses back to itself, and is accepted exactly when it fits 64 bits |
| HttpProperties.LeadingZeroIgnored | src/http.cpp:64-69 | a leading zero does not change the value |
| HttpProperties.FirstCRLFAfterLine | src/http.cpp:83 | the first CRLF after a line without CR is the one that ends it |
| HttpProperties.SplitJoinRoundTrip | src/http.cpp:81-88 | splitting CRLF-terminated lines without CR gives the lines back |
| HttpProperties.NoCRLFBeforeFirst | src/http.cpp:83-85 | the text before the first CRLF contains none |
| HttpProperties.SplitLinesHaveNoCRLF | src/http.cpp:81-88 | no split line contains CRLF |
| HttpProperties.SplitCRLFCoversPrefix | src/http.cpp:81-88 | rejoining the split lines gives a prefix of the blob, and the dropped rest contains no CRLF |
| HttpProperties.WordEndAt | src/http.cpp:92-93 | a word followed by whitespace or the end is read whole |
| HttpProperties.WordAt | src/http.cpp:92-93 | reading words at a word yields that word first |
| HttpProperties.WordEndShift | src/http.cpp:92-93 | word boundaries in a suffix are those of the suffix, shifted |
| HttpProperties.WordsFromStep | src/http.cpp:92-93 | whitespace is skipped, otherwise the next word is taken |
| HttpProperties.WordsFromShift | src/http.cpp:92-93 | reading words from inside a suffix is reading the suffix |
| HttpProperties.WordsCons | src/http.cpp:92-93 | a spaceless word, a space and a rest read as that word followed by the rest's words |
| HttpProperties.ThreeWords | src/http.cpp:92-93 | three spaceless words joined by spaces read back as those three words |
| HttpProperties.WordsAreSpaceless | src/http.cpp:92-93 | every word read is non-empty and free of whitespace |
| HttpProperties.ParseOutcome | src/http.cpp:74-142 | `parse_http_request_headers`: a parse succeeds exactly when it sets no error, and a failure names one of the parser's nine reachable errors ("invalid method token" cannot occur) |
| HttpProperties.EmptyRequestIffNoLine | src/http.cpp:81-90 | the error is "empty request" exactly when the blob holds no CRLF |
| HttpProperties.StoreHeaderKeepsWellFormed | src/http.cpp:121-129 | storing a trimmed, lower-cased, valid header keeps every stored name a lower-case token and every value trimmed |
| HttpProperties.HeaderLinesWellFormed | src/http.cpp:114-130 | after the header loop, all names are lower-case tokens and all values are trimmed |
| HttpProperties.RequestLineSound | src/http.cpp:90-112 | an accepted request line has at least three words; method, target and version are the first three; the version is 1.0 or 1.1; the method is upper case; the target starts with `/`; headers are empty and the length is zero |
| HttpProperties.RequestLineErrors | src/http.cpp:92-111 | fewer than three words gives "invalid request line"; otherwise the words already stored in the request give, in order, "unsupported http version", "invalid method" exactly for a non-upper-case method, then "invalid target" exactly for a target not starting with `/`; "invalid method token" never occurs |
| HttpProperties.ParseSuccessLine | src/http.cpp:74-112 | a successful parse took method, target and version from the first line's first three words and they pass every request-line check |
| HttpProperties.ParseSuccessHeaders | src/http.cpp:114-141 | after a successful parse, headers are well formed, and the length is the decimal value of a valid `content-length` header, or zero without one |
| HttpProperties.ParsedPieces | src/http.cpp:74-142 | a successful parse is the request line, then the header lines, then the length conversion, each succeeding |
| HttpProperties.FoldHeadersLastWins | src/http.cpp:129 | of several fields with the same name regardless of case, the last one's value is kept |
| HttpProperties.FoldHeadersUntouched | src/http.cpp:129 | a name that no field line carries keeps its old presence and value |
| HttpProperties.FoldHeadersKeys | src/http.cpp:129 | the stored names are the old ones plus the lower-cased names of the fields |
| HttpProperties.TrimmedAfterSpace | src/http.cpp:121-122 | the optional space after the colon is trimmed off a trimmed value |
| HttpProperties.FieldLineParts | src/http.cpp:118-122 | a `name: value` line splits at its first colon into the trimmed name and value |
| HttpProperties.HeaderLineStep | src/http.cpp:115-129 | one well-formed field line stores its lower-cased name with its value |
| HttpProperties.FieldLinesParse | src/http.cpp:114-130 | well-formed field lines always parse, storing each field, the last duplicate winning |
| HttpProperties.RequestLineParses | src/http.cpp:90-112 | an upper-case method, a `/` target and an HTTP/1.x version form an accepted request line |
| HttpProperties.RequestTextSplits | src/http.cpp:81-88 | a request text built from a request line and field lines splits back into those lines |
| HttpProperties.WellFormedRequestParses | src/http.cpp:74-142 | a request text built from valid parts parses back to those parts, failing only on an invalid `content-length`, with the length taken from that header |
| HttpProperties.LinesOfWellFormedRequestParse | src/http.cpp:74-142 | the same holds for any blob whose lines are those parts, whatever it ends with |
| HttpProperties.ContentLengthStep | src/http.cpp:131-141 | the length conversion changes only the length; it fails with "bad content-length" exactly for an invalid header, and otherwise takes its value or keeps zero |
| HttpProperties.FieldLinesShape | src/http.cpp:147-149 | one `Name: value` line per header in enumeration order |
| HttpProperties.ResponseHeadFraming | src/http.cpp:144-152 | a head starts with `HTTP/1.1 ` and ends with CRLF CRLF |
| HttpProperties.ResponseHeadSplitsBack | src/http.cpp:144-152 | a head without stray CRs splits back into its status line, header lines and empty line |
| HttpProperties.ResponseHeadListsEveryHeader | src/http.cpp:147-149 | every header appears as exactly one line between the status line and the empty line, and every such line is a header |
| Config.GetU64 | src/config.cpp:12-20 | a missing key gives the default; a non-integer gives a "not an integer" error; an integer that fails gives a "negative" error, including values from 2^63 up that wrap; otherwise the value |
| Config.GetStr | src/config.cpp:22-28 | a missing key gives the default; a non-string is an error naming the key; otherwise the string |
| Config.GetBool | src/config.cpp:30-36 | a missing key gives the default; a non-boolean is an error naming the key; otherwise the boolean |
| Config.ReadNetwork | src/config.cpp:53-72 | the address, port, client limit, root and log keys are read in order; a failure names a key that fails the check made when it is read, and every key read before it in this group passed, with the kind of error its check reports; on success exactly those fields are set |
| Config.ReadSession | src/config.cpp:74-88 | keep-alive is read first; the timeout and request limit must then be at least 1 while it is on; a failure names a failing key whose predecessors in this group passed, with the kind of error its check reports; on success exactly those fields are set |
| Config.ReadBuffers | src/config.cpp:90-102 | the two buffer sizes must lie in [1024, 2^32-1]; a failure names a failing key whose predecessor in this group passed, with the kind of error its check reports; on success exactly those fields are set |
| Config.AcceptableByGroups | src/config.cpp:53-105 | an object is accepted exactly when each group of checks passes and address and root are non-empty |
| Config.LoadConfig | src/config.cpp:38-108 | loading succeeds exactly for acceptable objects, giving each present value and the defaults elsewhere; a failure is the first failing check in reading order, with the kind that check reports (wrong type, negative, out of range), and the emptiness of `server_ip` and then `root_dir` is checked only after every key was read; whatever loads satisfies every bound |
| Config.FirstFailureUnique | src/config.cpp:38-108 | the first failing check is determined by the object, so the key and the kind of error `load_config_json` reports depend on nothing else |
| Config.EmptyObjectLoadsDefaults | include/config.hpp:7-25 | an empty object loads the built-in defaults, and those pass the validation |
| Config.AcceptedIsValid | src/config.cpp:38-108 | every accepted configuration has non-empty address and root, a port in 1..65535, positive keep-alive limits when keep-alive is on, and buffer sizes of at least 1024 |
| Config.WrappedValueRejected | src/config.cpp:17-18 | a numeric value from 2^63 to 2^64-1 reads as negative through `long long` and makes the object unacceptable |
| Config.KeepAliveZeroLimits | src/config.cpp:74-88 | a zero timeout or request limit is accepted exactly when keep-alive is off |
| Logging.Ord | include/logger.hpp:8 | the five levels have ranks 0..4 |
| Logging.UpperAscii | src/logger.cpp:33-34 | same length, each character upper-cased on its own |
| Logging.ParseLevel | src/logger.cpp:32-42 | the comparison chain returns the level the name denotes |
| Logging.Logger.constructor | include/logger.hpp:25 | a new logger passes Info and more severe, and has written nothing |
| Logging.Logger.Configure | src/logger.cpp:55-63 | sets the level and writes nothing |
| Logging.Logger.Level | src/logger.cpp:65-68 | returns the configured level |
| Logging.Logger.Log | src/logger.cpp:70-87 | a message at or above the configured severity is appended with its level; any other changes nothing; the level stays |
| Logging.UpperOfLower | src/logger.cpp:33-34 | upper-casing ignores a previous lower-casing |
| Logging.ParseLevelCaseInsensitive | src/logger.cpp:32-42 | level names are matched without regard to case |
| Logging.ParseLevelAliases | src/logger.cpp:32-42 | both WARN and WARNING mean Warn; INFO and every unknown name mean Info |
| Logging.UpperAsciiOfUpper | src/logger.cpp:33-34 | a name without lower-case letters is its own upper-casing |
| Logging.LevelNameRoundTrip | src/logger.cpp:44-53 | `level_to_string`: parsing a level's name gives the level back, so names are distinct |
| Logging.FilterMonotone | src/logger.cpp:72 | a level that passes lets every more severe level pass; Fatal always passes; Debug lets all pass |
| Logging.OrdIsSeverity | include/logger.hpp:8 | ranks are distinct and ordered Fatal < Error < Warn < Info < Debug |
| Socket.Recv | src/server.cpp:186-192 | `recv` returns at most what was asked; the data comes off the front of what the peer sent; zero bytes mean end of stream or a zero request; `EINTR` loses nothing |
| Socket.Send | src/server.cpp:40 | `send` never reports more than was offered |
| Socket.SendStep | src/server.cpp:38-47 | each partial write moves the remaining budget forward; `EINTR` keeps it; an error or a zero write means the socket takes no more |
| Server.SendAll | src/server.cpp:36-49 | success exactly when the socket takes every byte; the bytes that reach the peer are the longest prefix it accepts |
| Server.EnumerateKeys | src/http.cpp:147 | every header name is listed once, in some order |
| Server.SendResponse | src/server.cpp:83-85 | the head is `build_response_head` of the reply in some enumeration order; the page is sent after it; the peer receives a prefix of head then page |
| Server.SendError | src/server.cpp:70-86 | the reply sent is the error page for the status with the given keep-alive flag; earlier output is kept |
| Server.SendStubResponse | src/server.cpp:88-123 | the reply is the stub for the request, with keep-alive negotiated again from its headers and the configuration; the peer receives what `send_all` gets through of its head, in some enumeration order of the headers, and then of its page; nothing is read |
| Server.ReceiveSome | src/server.cpp:186-192 | a read delivers 1..want bytes off the front of the stream; `EINTR` is retried without loss; the end of the stream or an error stops |
| Server.DrainBody | src/server.cpp:125-157 | a zero length consumes nothing; success exactly when the buffered bytes and what the peer still sends cover the length; the body is taken first from the buffer, then from the socket; what is left of the buffer is kept as the next request's start |
| Server.Accumulate | src/server.cpp:181-198 | reading stops at the first CRLF CRLF, at the end of the stream, or once a read pushes the buffer over the header cap; it stops for the cap only when its last read, of at most one chunk, was made on a buffer without CRLF CRLF that was within the cap (or was the buffer it started with) and pushed it over the cap |
| Server.ReadHeader | src/server.cpp:176-202 | the header is the buffer through the first CRLF CRLF and the rest is kept; it is too large only when a read of new bytes pushed a buffer without CRLF CRLF over the cap; a lost header means the stream ended first; with a zero chunk size nothing is read |
| Server.ReadRequest | src/server.cpp:176-209 | a request is handed on only when its header block, the buffer and input up to the first CRLF CRLF, parses, and the header with the bytes read after it fits the cap when the buffer it started with did; every refusal is justified by the input: a lost header means no CRLF CRLF was visible, an oversize header means a read pushed a header-less buffer over the cap, an unparsable one gets 400 with the parser's error; the last two are answered 400 without keep-alive; a parsed request and a lost header leave the output untouched |
| Server.Interpret | src/server.cpp:203-209 | a parse failure answers 400 with the parser's error; success passes on the parsed request |
| Server.Answer | src/server.cpp:211-224 | the request is served exactly when its body can be drained; it is then dispatched with the keep-alive decision of `wants_keepalive`; what is left of the buffer for the next request is never longer than what the header left; a stub reply reaches the peer as `send_all` gets its head and page through, with nothing read meanwhile; a short body closes without writing anything |
| Server.ServeOne | src/server.cpp:176-224 | one turn of the loop consumes header, body and nothing more from the stream, and answers as dispatch decides; when it starts from a buffer within the header cap, the header it serves and the bytes it carries on stay within the cap; a served stub reply is on the wire as `send_all` got it through; a lost header or a short body stops without writing anything; every stop is justified by the input, and a short body stops only when the parsed `Content-Length` exceeds what the buffer and the stream hold after the header |
| Server.HandleClient | src/server.cpp:159-229 | every exchange is parsed, answered and kept alive except possibly the last; every served header block, and the bytes carried past the last exchange, fit within `read_header_max_bytes`; the loop ends after a close decision, at the request limit, or on a stop that the unread input justifies (lost header, oversize header, unparsable header, short body); with keep-alive off at most one request is served; the exchanges and the carried bytes form a prefix of what the client sent |
| Server.ServedUpTo | src/server.cpp:159-229 | the loop's state at any of its exits, with the input it had not read, establishes what `handle_client` promises |
| Server.KeptAliveSnoc | src/server.cpp:226-227 | the loop goes on only after a kept-alive exchange |
| Server.AllOkSnoc | src/server.cpp:226 | a further well-answered exchange keeps the log well answered |
| Server.FramedAppend | src/server.cpp:201-216 | the bytes an exchange consumed extend the framed prefix of the stream |
| Server.FramedSnoc | src/server.cpp:201-216 | the framing of a longer log is the old framing followed by the new header and body |
| Server.Admission.constructor | src/server.cpp:278 | no client is active at start |
| Server.Admission.Admit | src/server.cpp:278-286 | a client is admitted exactly when fewer than the limit are active, and the count goes up by one |
| Server.Admission.Release | src/server.cpp:160-163 | a finishing client lowers the count by one |
| Server.Admission.Accept | src/server.cpp:278-287 | a refused client gets a 503 page without keep-alive and nothing is served; an admitted one is served with everything `handle_client` promises about its exchanges, their header sizes and its exit; either way the active count is unchanged after the handler returns and earlier output is kept |
| ServerProperties.KeepaliveDefaults | src/server.cpp:55-68 | `wants_keepalive`: keep-alive is off when the configuration disables it; without a Connection header it is on exactly for HTTP/1.1; a non-1.1 request keeps the connection only by asking for it |
| ServerProperties.KeepaliveIgnoresCase | src/server.cpp:58-59 | the Connection value is compared without regard to case |
| ServerProperties.ConnectionTokens | src/server.cpp:63-66 | `close` and `keep-alive` are lower case, and neither contains the other |
| ServerProperties.ConnectionValueRoundTrip | src/server.cpp:55-68 | a client that echoes the server's Connection header gets the same decision again under HTTP/1.1 and HTTP/1.0 |
| ServerProperties.DispatchStatus | src/server.cpp:220-224 | the dispatch of `handle_client`: GET gets 200 and every other method 501; POST and DELETE get the stub page, the rest the error page |
| ServerProperties.DispatchAgreesWithLoop | src/server.cpp:211-227 | the keep-alive flag of the reply is the loop's own decision, so the Connection header says what the loop then does |
| ServerProperties.HeadForHeaders | src/server.cpp:76-81 | every head carries status and reason, Date, Server, the HTML type, a Content-Length that the server's own parser reads back as the page length, and the Connection decision; Keep-Alive appears exactly on stub replies that keep the connection |
| ServerProperties.StubPageMarkupIsFixed | src/server.cpp:97-105 | whatever method, target and status, a stub page opens exactly the tags of its template, so nothing the client sends injects markup |

## Left out

- Sockets are a scripted peer. Its inbox lists what each `recv` returns and
  its outbox how far each `send` gets. The end of the inbox stands for a
  closed peer or an expired `SO_RCVTIMEO`/`SO_SNDTIMEO` timeout.
  `set_socket_timeouts`, `socket`, `bind`, `listen` and `accept` are not
  modelled.
- Threads, the detached handler thread and the atomic client counter are
  modelled sequentially. `Server.Admission.Accept` runs the handler to
  completion before the next accept. The race between `load` and
  `fetch_add` in `run` is not captured.
- The `Guard` destructor of `handle_client` (close plus decrement) is the
  `Release` call at the end of `Accept`. Closing descriptors is not modelled.
- `http_date_now` is a `date` parameter, because it reads the clock. One
  date serves every response of a connection, while the source calls
  `http_date_now` again for each response.
- `is_within_root` and `safe_join_under_root` are not modelled, because
  they work on the filesystem and no request path reaches them in this
  server.
- JSON text parsing, file opening and the wording of the exception messages
  are not modelled. The validation works on a parsed object and reports the
  key and the kind of error. Floating-point JSON numbers are one
  "other" kind of value.
- The logger's file and console output, its timestamps, its mutex and its
  singleton are left out. `Logging.Logger.Log` records the messages that
  pass the filter in a sequence.
- The `LOG_*` calls inside `handle_client`, `run` and `drain_body` are not
  modelled, because they do not change what is sent or read.
- `main.cpp` (argument handling and signals) is not part of this model.
- `std::unordered_map` iteration order is an arbitrary enumeration of the
  header names. It is a parameter, or an output that is only known to list
  each name once.
- Server.SendError: states the reply it describes and that earlier output is
  kept. It does not state the exact bytes written. Those are stated by
  `Server.SendResponse`, which it calls on `Render` of that reply. Stating
  them in its own contract would hand every caller the page of a constant
  status, which the verifier then expands in full at each call.
- Server.Admission.Accept: states which 503 reply a refused client is
  sent, not the bytes of that page on the wire, for the reason given for
  `Server.SendError`. For an admitted client it states the replies of the
  served requests as `Server.HandleClient` does, not their bytes.
- Server.Interpret: states which 400 reply an unparsable header is sent,
  not the bytes of that page on the wire, for the reason given for
  `Server.SendError`.
- Server.Answer: states the bytes on the wire for a stub reply. For the
  501 page of any other method it states only the reply and that output
  grows, for the reason given for `Server.SendError`.
- Server.ReadRequest: states which 400 reply an oversize or unparsable
  header is sent, not the bytes of that page on the wire, for the reason
  given for `Server.SendError`.
- Server.ServeOne: states the bytes on the wire for a served stub reply.
  For a served 501 reply and for the 400 replies of a refused header it
  states only the reply and that output grows, as `Server.Answer` and
  `Server.ReadRequest` do.
- Server.HandleClient: states the framing of what was read and the answer
  decided for each exchange. It does not restate the bytes each answer put
  on the wire, only that output grows; the 400 replies of a refused header
  are stated as for `Server.ReadRequest`.
- Server.DrainBody: on failure it states only that the buffered bytes are
  not reported as drained. It does not state how much of the stream was
  consumed before the peer stopped.
- Bytes are `char`s. `url_decode` yields the byte value 16*hi+lo as a
  character, as the source does with its `char` cast.

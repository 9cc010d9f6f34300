# Verified model of a web framework's protocol engines

This project models, in Dafny, the protocol engines that the repository writes by hand, and proves what each of them
is for. The repository is a web framework whose server core and command-line tool are written in Rust. The engines
are:

- **DEFLATE** (`src/fmtool/src/deflate.rs`): the bit reader, canonical Huffman tables, dynamic block headers, the
  inflater with its 32 KiB window kept across messages, and the stored-block encoder. Modules `Bits`, `CanonicalCode`,
  `HuffmanTables`, `BitReaders`, `Lz77`, `InflateSpec`, `DynamicTables`, `MessageSpec`, `Inflaters`, `StoredMessages`,
  `FixedCode`, `DynamicBlocks`.
- **HPACK** (`hpack.rs`, `hpack_huffman.rs`): the 257-word Huffman code and its bit-serial decoder, bounded integers,
  the dynamic table with eviction, and the encoders. Modules `HpackCode`, `HpackHuffman`, `HpackPrimitives`, `Hpack`,
  `HpackLiterals`, `HpackExamples`.
- **HTTP/2** (`http2.rs`, `http2_io.rs`, `http2_frames.rs`, `http2_request.rs`, `http2_response.rs`, the dispatch and
  finish steps of `io.rs`, and the tool's client `src/fmtool/src/http2.rs`). Modules `Http2Frames`, `Http2Requests`,
  `Http2Announced`, `Http2Spec`, `Http2Framing`, `Http2Control`, `Http2Lifecycle`, `Http2`, `Http2Io`, `Http2Client`,
  `Http2Sessions`, `Http2Delivery`, `Http2Responses`, `Http2ResponseBytes`, `Http2ResponseReader`.
- **Regular expressions** (`regex.rs`): the parser and the matcher with its step budget. Modules `Decimals`,
  `RegexMeaning`, `RegexCost`, `RegexBudget`, `RegexCaps`, `RegexMatcher`, `RegexParser`, `RegexWritten`,
  `RegexDenotes`, `RegexAnchoring`, `Regex`.
- **Calendar, byte ranges, multipart and base64** (`file_protocol.rs`, `file_serve.rs`, `multipart.rs`). Modules
  `Calendar`, `HttpDates`, `Texts`, `ByteRanges`, `RangeRequests`, `Base64`, `Searching`, `Multipart`,
  `MultipartOverrun`, `MultipartRoundTrip`, `MultipartHeaders`, `MultipartBodies`, `MultipartParser`.
- **The WebSocket event loop** (`conn.rs`, `io.rs`, `ws_session_ffi.rs`, `conn/deadlines.rs`): connection slots,
  phases, deadlines and the event queue. Modules `WsLoopSpec`, `WsLoopRuns`, `WsSessions`, `WsDeadlines`, `WsLoop`.

`dafny verify dfyconfig.toml` checks everything.

## How the parts fit

Each engine has a specification on values (what a standard or the documentation promises, with unbounded history and
whole byte strings), theorems about that specification, and the code itself as a class or as methods with loops, whose
contracts equate every new state and result with the specification. So a theorem about the specification is one about
the code. What is shared by an encoder and a decoder, or by a method and its specification, is stated once more
without it: as closed forms, as declarative if-and-only-ifs over the text or the octets that come in, and as the
standards' own examples. The main theorems:

- *Decoding inverts encoding, and accepts nothing else.* For every prefix-free code a length vector allows, every
  token list, every dynamic header and every list of blocks, decoding the encoded bits gives the LZ77 expansion, and
  whatever decodes was an encoding (`TokenReadsBack`, `BlockRoundTrip`, `BlockIsEncoded`, `HeaderReadsBack`,
  `HeaderIsEncoded`, `MessageRoundTrip`, `MessageIsEncoded`). `Inflater` keeps only the last 32 KiB, yet computes the
  same as the specification, whose history is unbounded. What the bits are is said by the tables of RFC 1951
  themselves (`FixedLiteralCode`, `FixedBlockIsRead`, `DynamicBlockIsRead`, `ChunkIsReceived`).
- *HPACK.* The code of Appendix B is canonical and complete; the decoder accepts exactly the padded encodings
  (`AcceptsExactlyEncodings`); the dynamic table is the longest newest-first run of the insertions that fits
  (`KeptIff`), and the examples of RFC 7541 Appendix C are read octet by octet (`CodedRequest`).
- *An HTTP/2 request is what its fields announce*, in whatever framing: priority, padding, continuations and pieces of
  body (`RequestMeans`, `AnyRequestIsTaken`, `ExtrasAreSkipped`), and every control frame has its stated effect
  or is refused exactly as listed (`SettingsMean`, `ControlRefusedIff`).
- *No HTTP/2 request is lost, repeated or reordered*, over every run of receiving, dispatching and finishing, failed
  feeds included (`EveryRunDelivers`); how bytes are cut into chunks does not matter (`ChunkingIsInvisible`); what the
  tool's client sends the server takes (`SessionArrives`), and over every run that interleaves receiving, dispatching
  and finishing the application is handed exactly the requests of the session (`SessionIsDelivered`); what the server
  answers the client reads (`ResponseReadsBack`), and its octets are given (`ResponseBytes`); no control frame is lost
  or invented (`AnswersAreSent`).
- *A pattern means what its text says.* A pattern compiles exactly if it is the text of a syntax tree, and matches
  exactly where that tree means to (`CompilesIff`, `CompiledMeans`).
- *The regular-expression matcher* is sound for every budget. What it costs is a function of pattern, text and start
  (`EndPositions`), so that, where its sets of positions do not overflow (`ShortIsRoomy`, `BoundedIsRoomy`), it is
  known exactly what it finds (`RgxMatch`, `RightIff`, `FoundAtIff`): everything, unless a repeat idles or the text is
  too long for the pattern (`AffordableIsRight`, `DrainedIsMissed`). Anchoring a pattern means matching the whole text
  (`RgxFullmatch`).
- *The event queue never overflows* and stays first in, first out, whatever happens on the connections, as long as the
  application completes only what it was given (`EveryRunIsOrderly`, `HandleKeepsIff`). Deadlines close exactly the
  connections that are due (`DeadlinesMean`), and a silent session gets exactly its pings first (`SilentIsClosed`).
- *A rendered form is parsed to its parts* (`FormReadsBack`), and so is any other way to write bodies, headers,
  attributes and boundaries (`BodyMeans`, `SplitIff`, `FieldLineMeans`, `AttributeIsRead`, `BoundaryIsRead`); a range
  header gives exactly the bytes its text asks for (`HeaderMeans`), as the one normal list that covers them
  (`ParseRangeHeader`, `NormalIsUnique`); day numbers follow the Gregorian calendar (`NextDayIsNext`), and stamps are
  told by their text (`TextTellsStamp`).

## Where the code differs from its promises

The model follows the code. Each of these is a lemma or a clause of the table below.

- A message of the largest size the inflater may produce is refused once stored: its wire form is over the same limit
  (`StoredMessages.LargestMessageIsRefused`); `StoredMessageRoundTrip` gives the exact condition.
- Bytes that arrive together with the HTTP/2 preface are not looked at until more bytes arrive, even if they hold
  whole requests (`Http2Lifecycle.LeftoverWaits`, and exactly then: `Http2Delivery.LeftoverTakenIff`).
- A negative result of receiving that does not mean "try again" is used as a length, which ends the program
  (`Http2Lifecycle.AbortsIff`); the client reads past the end of a header block cut off before a string
  (`Http2ResponseReader.FieldAbortsIff`).
- `finish_current` loses a request that is already ready, and `queue_request` overtakes requests pending behind an
  empty ready slot: `FinishKeepsWaitingIff` and `QueueKeepsOrderIff` say exactly when, and `StepKeeps` that no run
  gets there.
- A change of the initial window never takes the send window below zero, unlike RFC 7540 section 6.9.2
  (`WindowFollowsIff`); HEADERS on a stream that is not new, trailers among them, and DATA on even streams are ignored
  rather than refused or decoded (`IgnoredFrames`), so that a header block sent that way is missing from the table of
  the decoder; a request without a method is taken (`MethodMayBeMissing`).
- In patterns, a question mark behind a quantifier stands for itself (`LazyMarkIsLiteral`); a range that ends in a
  class escape loses its start (`RangeLosesItsStart`); `\D` excludes letters as well as digits (`NegatedEscapes`); an
  unbounded repeat of something that has matched nothing uses up the whole budget, wherever it stands in the pattern,
  and a sequence or repeat that does so before its first match is not found (`DrainedIsMissed`): `(a*)*` is missed on
  every text below 1024 (`NestedStarIsMissed`); `RightIff` and `FoundAtIff` give the exact condition, and
  `SettledIsAffordable` one that is read off the pattern and the length of the text. A set of positions keeps 1024 of
  them, so that a repeat of single characters never gets further: from 1024 on, `a*b` is not found to match the whole
  of that many `a` and a `b` (`LongRunIsMissed`). A pattern that ends in an open brace such as `a{3` compiles alone
  but not anchored (`OpenBraceDisagrees`, and exactly those: `AnchoringCompiles`); `a)(b` compiles only anchored
  (`CrossedGroupsDisagree`, `CrossedAlternativesDisagree`), and `AnchoringRepairsIff` says which patterns do. A class
  that starts with `]` is refused, although a comment in the source says it is a literal there, while `[^]` is taken
  to match everything (`EmptyClassIff`, `ClosedClassIsRefused`).
- A stamp before 1970 shows a time of day only at midnight (`EarlierTimesIff`).
- A boundary that starts with a blank is not found again (`BoundaryFoundIff`); a plain field whose name contains
  `filename=` is read as a file (`NameReadsAsFileIff`), and such a name hides the file name of a file unless they
  agree (`FilenameReadsBackIff`, and for whole forms `FormIsOwnIff`); of more than 32 parts only the first 32 are kept
  (`FormReadsBack`); a part without a blank line that ends in a lone carriage return makes the parser slice out of
  range (`OutOfRangeIff`, for whole bodies `OverrunIff`, and `OverrunBody` for one such body).
- A header with over 100 ranges is answered with an empty list rather than an error (`ParseRangeHeader`, `ManyMean`),
  and one range that starts behind the end of the file refuses all the others too (`HeaderMeans`).
- Calls that complete a session while its message is still queued break the event bookkeeping (`HandleKeepsIff`); the
  loop relies on the application never doing so.

## Model

| member | source | states |
|---|---|---|
| CanonicalCode.MatchIsUnique | src/fmtool/src/deflate.rs:222-237 | A canonical code is prefix-free: at most one of its words heads any bit string, complete or not, over-subscribed or not. |
| CanonicalCode.CompleteCodeMatches | src/fmtool/src/deflate.rs:222-237 | If the last length class reaches the end of its range, some word heads every long enough bit string. |
| CanonicalCode.WordRoundTrip | src/fmtool/src/deflate.rs:222-237 | Reading a symbol gives s and the rest exactly when s has a word that fits its length and the bits are that word followed by the rest. |
| HuffmanTables.BookIsCanonical | src/fmtool/src/deflate.rs:244-265 | Every vector of lengths up to 15 assigns the canonical code of RFC 1951 section 3.2.2, hence a prefix-free one. |
| HuffmanTables.CodesFitIffKraft | src/fmtool/src/deflate.rs:244-265 | All codes fit their lengths if and only if the Kraft sum is at most one. |
| HuffmanTables.SymbolRoundTrip | src/fmtool/src/deflate.rs:222-237 | For every such vector, reading returns symbol s and the rest if and only if s is used, its code fits, and the bits are the code of s followed by the rest. |
| HuffmanTables.CompleteCodeAlwaysReads | src/fmtool/src/deflate.rs:222-237 | A code whose Kraft sum is exactly one reads a symbol from any 15 bits. |
| HuffmanTables.CountLengths | src/fmtool/src/deflate.rs:245-252 | Counts how often each length occurs, and rejects the vector exactly when a length exceeds 15. |
| HuffmanTables.StartOffsets | src/fmtool/src/deflate.rs:253-256 | Gives each length class the number of used symbols of shorter lengths. |
| HuffmanTables.PlaceSymbols | src/fmtool/src/deflate.rs:257-263 | Sorts the used symbols by length and then by number, in place: every used symbol lands in its own slot of the table. |
| HuffmanTables.UsedSymbols | src/fmtool/src/deflate.rs:257 | The table has as many slots as there are symbols with a length other than zero. |
| HuffmanTables.NewHuffman | src/fmtool/src/deflate.rs:244-265 | Succeeds exactly when all lengths are at most 15, and then the counts and the sorted symbols are those of the canonical code. |
| BitReaders.BitReader.Bit | src/fmtool/src/deflate.rs:180-189 | Takes the next bit of the data, least significant bit of each byte first, or reports the end. |
| BitReaders.BitReader.Bits | src/fmtool/src/deflate.rs:191-197 | Takes an n-bit number, least significant bit first. |
| BitReaders.BitReader.Byte | src/fmtool/src/deflate.rs:199-207 | Drops the rest of the current byte and takes a whole one. |
| BitReaders.BitReader.Align | src/fmtool/src/deflate.rs:209-214 | Moves to the next byte boundary. |
| BitReaders.BitReader.UsizeLe16 | src/fmtool/src/deflate.rs:216-220 | Takes a 16-bit number, low byte first, from the next byte boundary on. |
| BitReaders.BitReader.Decode | src/fmtool/src/deflate.rs:222-237 | The bit-by-bit comparison with the first code of each length reads exactly the symbol whose canonical code heads the input, consumes exactly its bits, and fails exactly when there is none; the subtraction never goes negative and the index stays inside the table. |
| Lz77.CopyBackIsPeriodic | src/fmtool/src/deflate.rs:117-120 | A copy, overlapping or not, is the only extension of the history by that length in which every new byte equals the one a distance before it. |
| Lz77.WindowByte | src/fmtool/src/deflate.rs:111-120 | For distances up to 32768 the 32 KiB window has the byte exactly when the whole history does, and it is the same byte. |
| Lz77.WindowPush | src/fmtool/src/deflate.rs:130-140 | Pushing a byte and dropping the surplus keeps the window equal to the last 32768 bytes of the history. |
| InflateSpec.ReferenceBounds | src/fmtool/src/deflate.rs:337-362 | Every copy token has a length from 3 to 258 and a distance from 1 to 32768, so no decodable reference leaves the window. |
| InflateSpec.EveryReferenceHasAToken | src/fmtool/src/deflate.rs:337-362 | The base and extra-bit tables leave no gap: every length from 3 to 258 and every distance from 1 to 32768 has a token. |
| InflateSpec.TokenReadsBack | src/fmtool/src/deflate.rs:91-128 | Decoding the bits of a token and going on is applying the token and going on; it fails exactly when the distance exceeds the history or the output passes 1 MiB. |
| InflateSpec.BlockRoundTrip | src/fmtool/src/deflate.rs:91-128 | For every token list inside the history and every usable pair of codes, decoding its RFC 1951 section 3.2.5 bits gives its LZ77 expansion and leaves exactly the bits after it; the only failure is output over 1 MiB. |
| InflateSpec.BlockIsEncoded | src/fmtool/src/deflate.rs:91-128 | Whatever bits decode successfully are the encoding of some token list, and the result is its expansion. |
| DynamicTables.TriplesRoundTrip | src/fmtool/src/deflate.rs:296-300 | The three-bit code lengths are read exactly from their encoding. |
| DynamicTables.RunRoundTrip | src/fmtool/src/deflate.rs:306-323 | A length or a repeat (codes 16, 17 and 18) is read exactly from its code and extra bits; a repeat with nothing before it is refused. |
| DynamicTables.RunsReadBack | src/fmtool/src/deflate.rs:303-327 | Runs that fill the announced number of lengths exactly are read back as those lengths. |
| DynamicTables.RunsAreEncoded | src/fmtool/src/deflate.rs:303-327 | Whatever lengths are read were written as such runs; overshooting the count is never accepted. |
| DynamicTables.HeaderReadsBack | src/fmtool/src/deflate.rs:288-335 | Every dynamic header that can be written is read back as its two length vectors, consuming exactly its bits. |
| DynamicTables.HeaderIsEncoded | src/fmtool/src/deflate.rs:288-335 | Every header that is read was written as one. |
| MessageSpec.FixedCodesFit | src/fmtool/src/deflate.rs:267-286 | The fixed literal code has Kraft sum one, and every symbol of both fixed codes can be written; which words they are FixedCode says. |
| FixedCode.FixedLiteralCode | src/fmtool/src/deflate.rs:267-281 | The table of RFC 1951 section 3.2.6: symbols below 144 are the 8 bits of 48 + s, those below 256 the 9 bits of 400 + s - 144, those below 280 the 7 bits of s - 256 and the others the 8 bits of 192 + s - 280, most significant bit first. |
| FixedCode.FixedDistanceCode | src/fmtool/src/deflate.rs:283-286 | Distance symbol s is the 5 bits of s, most significant bit first. |
| FixedCode.LengthClass | src/fmtool/src/deflate.rs:337-357 | Four length classes for each number of extra bits: class 257 + 4e + m, for m from 4 to 7, has e extra bits and starts at 3 + m * 2^e. |
| FixedCode.DistanceClass | src/fmtool/src/deflate.rs:345-362 | Two distance classes for each number of extra bits: class 2e + m, for m 2 or 3, has e extra bits and starts at 1 + m * 2^e. |
| FixedCode.CopyToken | src/fmtool/src/deflate.rs:337-362 | A copy of any length from 3 to 258 and any distance up to 32768 is the token whose symbols are read off the leading binary digits of length - 3 and distance - 1, with the other digits as extra bits. |
| FixedCode.FixedBlockIsRead | src/fmtool/src/deflate.rs:42-128 | A final fixed block given bit by bit, as three flag bits, the words of that table and the digits of lengths and distances, is inflated to the text its bytes and back references stand for, whatever trails it, up to 1 MiB. |
| FixedCode.LetterIsInflated | src/fmtool/src/deflate.rs:42-89 | The three octets 4b 04 00 are inflated to the letter `a`. |
| DynamicTables.OrderIs | src/fmtool/src/deflate.rs:288-300 | The order in which the code lengths of the 19 run symbols are sent, in closed form. |
| DynamicTables.OrderIsOnto | src/fmtool/src/deflate.rs:288-300 | Every one of the 19 symbols has exactly one place in it. |
| DynamicTables.RunMeans | src/fmtool/src/deflate.rs:306-323 | A length up to 15 is its own code; 3 to 6 copies of the last length are code 16 and two bits, 3 to 10 zeros code 17 and three bits, 11 to 138 zeros code 18 and seven bits. |
| DynamicTables.RunsAreThese | src/fmtool/src/deflate.rs:306-323 | No other runs exist: repeats need a length before them, and their extra numbers stay below 4, 8 and 128. |
| DynamicTables.LargeTablesAreRefused | src/fmtool/src/deflate.rs:288-295 | A header that announces more than 286 literal codes or more than 30 distance codes is refused, whatever follows. |
| DynamicBlocks.HeaderIsAnnounced | src/fmtool/src/deflate.rs:288-335 | A header written as three counts (minus 257, 1 and 4), three-bit lengths in the fixed order, and lengths, repeats and runs of zeros announces exactly those two vectors of lengths; distances that are all zero are no code at all. |
| DynamicBlocks.DynamicBlockIsRead | src/fmtool/src/deflate.rs:42-128 | A final dynamic block given bit by bit, with any such header, is inflated to the text that the bytes and back references written in its two codes stand for, whatever trails it, up to 1 MiB. |
| MessageSpec.BodyReadsBack | src/fmtool/src/deflate.rs:59-82 | A stored, fixed or dynamic block that is written is read back as its expansion, unless the output passes 1 MiB. |
| MessageSpec.BodyIsEncoded | src/fmtool/src/deflate.rs:59-82 | Every block body that is read was written so. |
| MessageSpec.MessageRoundTrip | src/fmtool/src/deflate.rs:42-89 | For every list of blocks with references inside the history, reading its bits gives the expansion of all of them and whether the last was final; too much output is the only error. |
| MessageSpec.MessageIsEncoded | src/fmtool/src/deflate.rs:42-89 | Whatever message is accepted is the encoding of some list of blocks. |
| Inflaters.Inflater.constructor | src/fmtool/src/deflate.rs:31-40 | A new inflater has seen nothing. |
| Inflaters.Inflater.PushByte | src/fmtool/src/deflate.rs:130-140 | Appends a byte to output and window, or refuses at 1 MiB and changes neither. |
| Inflaters.Inflater.CopyReference | src/fmtool/src/deflate.rs:103-121 | With only the window at hand, copies what the unbounded history would give; fails exactly where the specification does. |
| Inflaters.Inflater.InflateBlock | src/fmtool/src/deflate.rs:91-128 | The decoding loop with the bounded window computes the specification with unbounded history: result, bits left, error and output. |
| Inflaters.Inflater.CopyStored | src/fmtool/src/deflate.rs:67-70 | Copies the bytes of a stored block, or stops where the specification does. |
| Inflaters.Inflater.InflateStored | src/fmtool/src/deflate.rs:60-71 | Checks the length against its complement, then copies the block as specified. |
| Inflaters.Inflater.InflateNext | src/fmtool/src/deflate.rs:56-87 | One turn of the block loop: the message reads the same from here on. |
| Inflaters.Inflater.DecompressMessage | src/fmtool/src/deflate.rs:42-89 | Over any sequence of messages the result, the error and the history kept are those of the specification, which FixedCode and DynamicBlocks give bit by bit; after a final block the history starts afresh, and a too long input changes nothing. |
| Inflaters.ReadDynamicTables | src/fmtool/src/deflate.rs:288-335 | Reads exactly the headers of the specification and builds the tables of both length vectors. |
| StoredMessages.CompressStoredMessage | src/fmtool/src/deflate.rs:145-163 | Produces the stored wire form with its four-byte tail removed, in chunks of at most 65535 bytes. |
| StoredMessages.StoredMessageRoundTrip | src/fmtool/src/deflate.rs:42-89 | After any history, inflating a stored message gives the message if and only if its length, plus 5 for every started chunk of 65535, plus 1, is at most 1 MiB. |
| StoredMessages.LargestMessageIsRefused | src/fmtool/src/deflate.rs:145-163 | A message of exactly 1 MiB is encoded but its wire form is refused. |
| StoredMessages.EmptyWireFails | src/fmtool/src/deflate.rs:50-71 | An empty wire form is refused: its tail alone is a truncated block. |
| StoredMessages.ChunkIsReceived | src/fmtool/src/deflate.rs:59-71 | Octet by octet: a zero, the length low octet first, its complement, the data and a zero are inflated to the data, after any history. |
| HpackCode.EveryCodeFound | src/fastapi_mojo_rs/src/bridge/hpack_huffman.rs:7-265 | Every one of the 257 table entries is the word at its own place in its length class. |
| HpackCode.EveryWordListed | src/fastapi_mojo_rs/src/bridge/hpack_huffman.rs:7-265 | Each length class is one contiguous interval of codes, in the order of its symbols. |
| HpackCode.BookIsCanonical | src/fastapi_mojo_rs/src/bridge/hpack_huffman.rs:7-265 | The code of RFC 7541 Appendix B is canonical, so prefix-free. |
| HpackCode.BookIsComplete | src/fastapi_mojo_rs/src/bridge/hpack_huffman.rs:7-265 | It is complete at 30 bits, and fewer than eight one bits are never a word. |
| HpackHuffman.AcceptsExactlyEncodings | src/fastapi_mojo_rs/src/bridge/hpack_huffman.rs:272-304 | Decoding yields s if and only if the input is the encoding of s followed by at most seven one bits (section 5.2), so EOS and long padding are refused. |
| HpackHuffman.DecodingIsInjective | src/fastapi_mojo_rs/src/bridge/hpack_huffman.rs:272-304 | No two byte strings decode to the same text. |
| HpackHuffman.DecodeEncode | src/fastapi_mojo_rs/src/bridge/hpack_huffman.rs:272-304 | Decoding inverts the encoder of section 5.2 on every byte string. |
| HpackHuffman.FindSymbol | src/fastapi_mojo_rs/src/bridge/hpack_huffman.rs:282-288 | The table scan finds a byte with the given code and length exactly when there is one. |
| HpackHuffman.PushBit | src/fastapi_mojo_rs/src/bridge/hpack_huffman.rs:277-293 | One bit either completes the only symbol that heads the bits, is refused, or leaves a string that starts no word; the register never passes 30 bits. |
| HpackHuffman.Decode | src/fastapi_mojo_rs/src/bridge/hpack_huffman.rs:272-304 | The bit-serial loop computes the decoding that AcceptsExactlyEncodings characterises. |
| HpackPrimitives.IntegerReadsBack | src/fastapi_mojo_rs/src/bridge/hpack.rs:211-281 | For prefixes of 4 to 7 bits, every integer below 2^24 is read back from its encoding with the rest untouched. |
| HpackPrimitives.IntegerIsRefused | src/fastapi_mojo_rs/src/bridge/hpack.rs:211-245 | Every integer from 2^24 on is refused, however it is encoded with that prefix. |
| HpackPrimitives.DecodeInteger | src/fastapi_mojo_rs/src/bridge/hpack.rs:211-245 | Reads the integer at a position, with the limits on size and length of the source. |
| HpackPrimitives.EncodeInteger | src/fastapi_mojo_rs/src/bridge/hpack.rs:266-281 | Writes the encoding that IntegerReadsBack reads. |
| HpackPrimitives.StringReadsBack | src/fastapi_mojo_rs/src/bridge/hpack.rs:247-287 | Every string below 1 MiB on the wire is read back, plain or Huffman-coded. |
| HpackPrimitives.StringIsRefused | src/fastapi_mojo_rs/src/bridge/hpack.rs:247-264 | Every string of 1 MiB or more on the wire is refused. |
| HpackPrimitives.ReadStringAt | src/fastapi_mojo_rs/src/bridge/hpack.rs:247-264 | Reads a plain or coded string at a position, or fails as specified. |
| HpackPrimitives.EncodeString | src/fastapi_mojo_rs/src/bridge/hpack.rs:283-287 | Writes the plain form that StringReadsBack reads. |
| Hpack.FitIsLongest | src/fastapi_mojo_rs/src/bridge/hpack.rs:125-133 | Eviction is never needless: no longer newest-first run of entries would fit. |
| Hpack.KeptIff | src/fastapi_mojo_rs/src/bridge/hpack.rs:125-153 | The newest k entries are kept if and only if the octets of their names and values and 32 more for each fit (RFC 7541 section 4.1). |
| Hpack.InsertByEvicting | src/fastapi_mojo_rs/src/bridge/hpack.rs:144-153 | Evicting for a new entry and then putting it in front is keeping the longest run that fits with it; an entry larger than the table empties it (RFC 7541 section 4.4). |
| Hpack.RepresentationReadsBack | src/fastapi_mojo_rs/src/bridge/hpack.rs:156-208 | Reading any encoded representation, in any state of the table, is carrying out its meaning (section 6). |
| Hpack.BlockReadsBack | src/fastapi_mojo_rs/src/bridge/hpack.rs:156-208 | The same for whole header blocks, size updates and failing representations included. |
| Hpack.HpackDecoder.constructor | src/fastapi_mojo_rs/src/bridge/hpack.rs:98-104 | The table starts empty with a limit of 4096. |
| Hpack.HpackDecoder.LookupField | src/fastapi_mojo_rs/src/bridge/hpack.rs:110-123 | Index 62 + k is the k-th newest of all insertions ever made, if it is still kept. |
| Hpack.HpackDecoder.EvictTo | src/fastapi_mojo_rs/src/bridge/hpack.rs:125-133 | Keeps the longest newest-first run within the limit, with `size` its exact sum. |
| Hpack.HpackDecoder.SetMaxSize | src/fastapi_mojo_rs/src/bridge/hpack.rs:135-142 | Refuses a limit over 4096 and changes nothing, or resizes and evicts. |
| Hpack.HpackDecoder.Insert | src/fastapi_mojo_rs/src/bridge/hpack.rs:144-153 | The table is the new entry and as many older ones as fit; it stays a newest-first prefix of the insertions, with the exact size and within 4096. |
| Hpack.HpackDecoder.DecodeField | src/fastapi_mojo_rs/src/bridge/hpack.rs:159-206 | Carries out the representation at a position and records exactly the field it indexes; on an error the table is unchanged. |
| Hpack.HpackDecoder.Decode | src/fastapi_mojo_rs/src/bridge/hpack.rs:156-208 | Computes the block, keeps the table invariant after any sequence of calls, failing ones included, and grows the list of insertions by exactly the indexed literals of the block up to the first error, newest first. |
| Hpack.InsertionsReadBack | src/fastapi_mojo_rs/src/bridge/hpack.rs:156-208 | The insertions of an encoded list of representations are its indexed literals, up to the first that fails. |
| HpackLiterals.StatelessBlock | src/fastapi_mojo_rs/src/bridge/hpack.rs:290-302 | A block of literals that are not indexed and of static references decodes to its fields in every state and leaves the table alone. |
| HpackLiterals.EncodeIndexedName | src/fastapi_mojo_rs/src/bridge/hpack.rs:290-294 | Writes a literal with a static name that decodes to that name and the value. |
| HpackLiterals.EncodeLiteralName | src/fastapi_mojo_rs/src/bridge/hpack.rs:297-302 | Writes a literal with a spelled-out name that decodes to that name and the value. |
| HpackExamples.Integers | src/fastapi_mojo_rs/src/bridge/hpack.rs:266-281 | The integers of RFC 7541 C.1, 10 and 1337 with a prefix of five bits, and the largest table size in its update, octet by octet. |
| HpackExamples.StaticField | src/fastapi_mojo_rs/src/bridge/hpack.rs:14-76 | In every state of the table the octets 129 to 189 are each a whole field: the names the client has in its own table, and the values listed, which entries 2 to 14 and 16 have. |
| HpackExamples.AddedField | src/fastapi_mojo_rs/src/bridge/hpack.rs:110-123 | The octets from 190 on are the newest field that was added, the one before it and so on; numbers beyond the table and the number 0 are refused. |
| HpackExamples.SizeUpdates | src/fastapi_mojo_rs/src/bridge/hpack.rs:135-208 | A size update to 0 empties the table; one beyond 4096 and one behind a field are refused. |
| HpackExamples.LiteralWithIndexing | src/fastapi_mojo_rs/src/bridge/hpack.rs:156-208 | RFC 7541 C.2.1, octet by octet: the field is read and put in front of the table. |
| HpackExamples.IndexedNameOnly | src/fastapi_mojo_rs/src/bridge/hpack.rs:156-208 | C.2.2: a value with a static name is read and the table stays. |
| HpackExamples.NeverIndexed | src/fastapi_mojo_rs/src/bridge/hpack.rs:156-208 | C.2.3: a field that must not be indexed is read and the table stays. |
| HpackExamples.HostIsEncoded | src/fastapi_mojo_rs/src/bridge/hpack_huffman.rs:7-304 | C.4.1: the Huffman code of `www.example.com` is the twelve octets of the standard. |
| HpackExamples.CodedRequest | src/fastapi_mojo_rs/src/bridge/hpack.rs:156-208 | C.4.1: the Huffman-coded request is read as its four fields, and the host is put in front of the table. |
| Http2Frames.FrameReadsBack | src/fastapi_mojo_rs/src/bridge/http2_frames.rs:21-28 | Every frame with fewer than 2^24 payload bytes on a 31-bit stream is cut out of the receive buffer again, with the rest behind it. |
| Http2Frames.PaddingReadsBack | src/fastapi_mojo_rs/src/bridge/http2_frames.rs:43-52 | Stripping the padding of a padded payload gives the payload. |
| Http2Requests.BuildRequest | src/fastapi_mojo_rs/src/bridge/http2.rs:389-457 | The scan over the fields gives the request or the first error of the specification. |
| Http2Requests.RequestIsWellFormed | src/fastapi_mojo_rs/src/bridge/http2.rs:389-457 | Every request that is built has clean, lower-case, connection-independent headers without pseudo-headers among them, and the required pseudo-headers. |
| Http2Announced.RequestMeans | src/fastapi_mojo_rs/src/bridge/http2.rs:389-457 | A request is built from a header list if and only if the list announces it: pseudo-headers at the front, each at most once with a value, a scheme and a target that starts with a slash among them, then clean lower-case headers that do not concern the connection; said without the scan. |
| Http2Announced.MethodMayBeMissing | src/fastapi_mojo_rs/src/bridge/http2.rs:389-457 | A scheme and a path alone announce a request with an empty method. |
| Http2Announced.TargetSplits | src/fastapi_mojo_rs/src/bridge/http2.rs:440-457 | The target is the path, or the path, a question mark and the query, split at its first question mark. |
| Http2Announced.ContentLengthMeans | src/fastapi_mojo_rs/src/bridge/http2_request.rs:35-48 | A request announces a length if and only if its first content-length header is a decimal number below 2^64, and none if and only if it has no such header. |
| Http2Spec.DrainSplit | src/fastapi_mojo_rs/src/bridge/http2.rs:136-163 | Draining a buffer and then what follows is draining both at once, even if a SETTINGS frame changes the frame limit in between. |
| Http2Spec.DrainSettles | src/fastapi_mojo_rs/src/bridge/http2.rs:136-163 | After a successful drain nothing more can be drained. |
| Http2Spec.ChunkingIsInvisible | src/fastapi_mojo_rs/src/bridge/http2.rs:136-163 | However bytes within the buffer limit are cut into chunks, feeding them ends with the same connection state, queues, control frames and error. |
| Http2Lifecycle.FrameKeeps | src/fastapi_mojo_rs/src/bridge/http2.rs:165-224 | While nothing is pending behind an empty ready slot, a frame of any kind, failing or not, only appends accepted requests to the waiting ones, each complete and on a higher stream. |
| Http2Lifecycle.DrainKeeps | src/fastapi_mojo_rs/src/bridge/http2.rs:136-163 | The same for everything in the receive buffer. |
| Http2Lifecycle.FinishKeepsWaitingIff | src/fastapi_mojo_rs/src/bridge/http2.rs:91-95 | Finishing the current request keeps the waiting requests if and only if none is ready. |
| Http2Lifecycle.QueueKeepsOrderIff | src/fastapi_mojo_rs/src/bridge/http2.rs:477-486 | A new request joins at the end if and only if nothing is pending behind an empty ready slot. |
| Http2Lifecycle.StepKeeps | src/fastapi_mojo_rs/src/bridge/http2_io.rs:108-160 | Receiving, dispatching, finishing and closing keep: accepted requests are those handed over followed by those waiting; none is ready while one is current. |
| Http2Lifecycle.EveryRunDelivers | src/fastapi_mojo_rs/src/bridge/http2_io.rs:108-160 | Over every run, failed feeds included, requests are handed over in strictly increasing stream order, each once, each complete; while the connection lives none is lost. |
| Http2Lifecycle.RunsOnlyAppend | src/fastapi_mojo_rs/src/bridge/http2_io.rs:108-160 | What was handed over or accepted is never taken back. |
| Http2Lifecycle.NextPumpDelivers | src/fastapi_mojo_rs/src/bridge/http2_io.rs:115-121 | The next pump of an idle live connection hands over the oldest waiting request. |
| Http2Lifecycle.LeftoverWaits | src/fastapi_mojo_rs/src/bridge/http2_io.rs:38-44 | As long as no pump brings bytes, those that came with the preface are not looked at and nothing is handed over. |
| Http2Delivery.LeftoverTakenIff | src/fastapi_mojo_rs/src/bridge/http2_io.rs:38-44 | With a whole session of up to 101 requests among the bytes that came with the preface, over any run of pumps and finishes whose bytes fit, its first request has been handed over by the next pump if and only if some pump brought bytes; draining the buffer would take all of them at once. |
| Http2Lifecycle.AbortsIff | src/fastapi_mojo_rs/src/bridge/http2_io.rs:108-131 | A step ends the program exactly when a live, idle connection with nothing waiting is pumped, its frames are sent, and receiving fails hard. |
| Http2Lifecycle.ClosesIff | src/fastapi_mojo_rs/src/bridge/http2_io.rs:108-160 | A step closes a live connection if and only if it is told to, or a pump with no request under way cannot send its frames, finds the request to hand over to be no text, or finds the peer gone; errors of the protocol do not close it. |
| Http2Lifecycle.AnswersAreSent | src/fastapi_mojo_rs/src/bridge/http2_io.rs:48-60 | Over every run the control frames taken for sending, with those still queued, are exactly those the steps queued, in order; none is lost, repeated or invented. After an error the last one is a GOAWAY with code 10, for a request that is not text a RST_STREAM with code 3. |
| Http2.H2Connection.constructor | src/fastapi_mojo_rs/src/bridge/http2.rs:54-76 | A new connection has announced its settings and kept the bytes given. |
| Http2.H2Connection.QueueRequest | src/fastapi_mojo_rs/src/bridge/http2.rs:477-486 | Puts the request in the free slot or the queue, or refuses above 100, as specified. |
| Http2.H2Connection.StartRequest | src/fastapi_mojo_rs/src/bridge/http2.rs:458-474 | Queues a request without a body, or keeps it until its body is there. |
| Http2.H2Connection.DecodeHeaders | src/fastapi_mojo_rs/src/bridge/http2.rs:376-475 | Decodes the block and starts the request, with every error of the specification; the table keeps its updates. |
| Http2.H2Connection.HandleHeaders | src/fastapi_mojo_rs/src/bridge/http2.rs:310-337 | Strips padding and priority, and keeps or decodes the block; Http2Framing.ExtrasAreSkipped says what stripping means. |
| Http2.H2Connection.HandleContinuation | src/fastapi_mojo_rs/src/bridge/http2.rs:339-374 | Extends the kept block of the same stream within its limit, and decodes it at its end. |
| Http2.H2Connection.HandleData | src/fastapi_mojo_rs/src/bridge/http2.rs:272-308 | Answers with window updates, extends the body within the limit, and finishes the request at its announced length. |
| Http2.H2Connection.HandleSettings | src/fastapi_mojo_rs/src/bridge/http2.rs:226-255 | Applies the settings in order; those before a bad one stand. |
| Http2.H2Connection.HandleWindowUpdate | src/fastapi_mojo_rs/src/bridge/http2.rs:257-270 | Grows the merged window, or fails as specified. |
| Http2.H2Connection.HandleControl | src/fastapi_mojo_rs/src/bridge/http2.rs:188-222 | Treats the frames that are not requests as specified: settings, ping, reset, window, priority, push and unknown ones. |
| Http2.H2Connection.HandleFrame | src/fastapi_mojo_rs/src/bridge/http2.rs:165-224 | Every frame is treated as specified; during a header block only its continuation is. |
| Http2.H2Connection.Feed | src/fastapi_mojo_rs/src/bridge/http2.rs:136-163 | The draining loop computes the specification, so Http2Spec.ChunkingIsInvisible and the lemmas of Http2Framing and Http2Control are about it. |
| Http2.H2Connection.HasReady | src/fastapi_mojo_rs/src/bridge/http2.rs:78-80 | Says whether any accepted request waits. |
| Http2.H2Connection.FinishCurrent | src/fastapi_mojo_rs/src/bridge/http2.rs:91-95 | Clears the current request and promotes the next pending one. |
| Http2.H2Connection.TakeReady | src/fastapi_mojo_rs/src/bridge/http2.rs:97-105 | Hands over the oldest waiting request as the current one, if there is one. |
| Http2.H2Connection.TakeFrames | src/fastapi_mojo_rs/src/bridge/http2.rs:107-109 | Gives the queued control frames and empties the queue. |
| Http2.H2Connection.TakeSendWindow | src/fastapi_mojo_rs/src/bridge/http2.rs:114-120 | Reserves exactly the bytes asked for if the window has them, else changes nothing. |
| Http2.H2Connection.EnqueueGoaway | src/fastapi_mojo_rs/src/bridge/http2.rs:122-127 | Queues a GOAWAY frame with the last stream and the error code. |
| Http2.H2Connection.EnqueueRstStream | src/fastapi_mojo_rs/src/bridge/http2.rs:129-134 | Queues a RST_STREAM frame with the error code. |
| Http2Framing.ExtrasAreSkipped | src/fastapi_mojo_rs/src/bridge/http2.rs:310-337 | Whatever five octets of priority and whatever padding a HEADERS frame carries, the server does the same as without them. |
| Http2Framing.HeadersRefusedIff | src/fastapi_mojo_rs/src/bridge/http2.rs:310-337 | A HEADERS frame that does not end its block is refused if and only if its padding is longer than its payload, its priority octets are not all there, or its block is longer than 16384 octets. |
| Http2Framing.OpeningIsRead | src/fastapi_mojo_rs/src/bridge/http2.rs:310-374 | However a header block is cut into HEADERS and CONTINUATION frames, padded and prioritised, the server decodes the whole of it and goes on with what follows. |
| Http2Framing.PieceIsRead | src/fastapi_mojo_rs/src/bridge/http2.rs:272-308 | Any piece of a body, padded or not, is answered with the two window updates for its whole length, padding included, given octet by octet, and extends the body or is refused beyond the limit. |
| Http2Framing.BodyIsRead | src/fastapi_mojo_rs/src/bridge/http2.rs:272-308 | A body in any pieces within the limit is joined and the request finished. |
| Http2Framing.AnyRequestIsTaken | src/fastapi_mojo_rs/src/bridge/http2.rs:136-475 | A request with any fields in any framing, prioritised, padded, its block cut anywhere, its body in any padded pieces: if the fields announce it and the length announced, if any, is that of the body, exactly this request with exactly this body is queued, and each piece is answered. |
| Http2Framing.BrowserGetIsTaken | src/fastapi_mojo_rs/src/bridge/http2.rs:310-337 | The frame of a browser that sends a weight, HEADERS with flags 25 and the payload 00 00 00 00 0f 82 87 84, leaves a fresh connection with one waiting request: GET of `/`. |
| Http2Framing.FinishedIff | src/fastapi_mojo_rs/src/bridge/http2.rs:290-308 | At its end a body is accepted if and only if it is as long as announced and there is room. |
| Http2Framing.QueueIsFullIff | src/fastapi_mojo_rs/src/bridge/http2.rs:477-486 | A request is refused for lack of room if and only if one is ready and a hundred more are waiting; otherwise it joins at the end, or takes the free slot. |
| Http2Framing.StrayDataIsRefused | src/fastapi_mojo_rs/src/bridge/http2.rs:272-308 | Data for any other stream than that of the request under construction is refused and concerns no request. |
| Http2Framing.OverlapIsRefused | src/fastapi_mojo_rs/src/bridge/http2.rs:310-337 | A new stream while a request is under construction is refused. |
| Http2Framing.LongHeadersAreRefused | src/fastapi_mojo_rs/src/bridge/http2.rs:339-388 | More than 256 fields are refused, and so is a header block that grows beyond 16384 octets. |
| Http2Framing.LongFrameIsRefused | src/fastapi_mojo_rs/src/bridge/http2.rs:136-163 | A frame longer than the limit is refused as soon as its nine octets are there. |
| Http2Framing.BufferExceededIff | src/fastapi_mojo_rs/src/bridge/http2.rs:136-163 | A feed exceeds the buffer if and only if it would hold more than 2097152 octets, and then none of them is read. |
| Http2Control.SettingsMean | src/fastapi_mojo_rs/src/bridge/http2.rs:226-255 | Any list of settings is refused if and only if one of them is out of bounds; otherwise the last frame size and the last initial window hold, and only these and the send window change. |
| Http2Control.WindowFollows | src/fastapi_mojo_rs/src/bridge/http2.rs:226-255 | As long as it stays in range, the send window moves by exactly as much as the initial window, over any list of settings. |
| Http2Control.WindowFollowsIff | src/fastapi_mojo_rs/src/bridge/http2.rs:226-255 | A change of the initial window moves the send window by as much if and only if the result is from 0 to 2^31 - 1; below zero the source stops at zero, unlike RFC 7540 section 6.9.2. |
| Http2Control.SettingsAreAcknowledged | src/fastapi_mojo_rs/src/bridge/http2.rs:188-255 | A SETTINGS frame is applied and answered with the nine octets of its acknowledgement. |
| Http2Control.PingIsEchoed | src/fastapi_mojo_rs/src/bridge/http2.rs:188-222 | A PING is answered with its own eight octets and the acknowledge flag; an acknowledgement is not answered. |
| Http2Control.WindowGrows | src/fastapi_mojo_rs/src/bridge/http2.rs:257-270 | A WINDOW_UPDATE for the connection or the current stream adds its 31 bits up to 2^31 - 1 and changes nothing else; zero is refused. |
| Http2Control.ResetDropsTheRequest | src/fastapi_mojo_rs/src/bridge/http2.rs:188-222 | A RST_STREAM drops the request under construction on its stream, and does nothing else. |
| Http2Control.ControlRefusedIff | src/fastapi_mojo_rs/src/bridge/http2.rs:188-270 | Which frames other than those of requests are refused, by the numbers of RFC 7540 section 11.2, in both directions. |
| Http2Control.IgnoredFrames | src/fastapi_mojo_rs/src/bridge/http2.rs:165-224 | Frames of unknown types, DATA and HEADERS on even streams, and HEADERS on a stream that is not new, do nothing at all: trailers are neither decoded nor refused. |
| Http2Control.OnlyContinuation | src/fastapi_mojo_rs/src/bridge/http2.rs:165-187 | While a header block is under way only its continuation is read; all other types are refused. |
| Http2Control.FirstFrame | src/fastapi_mojo_rs/src/bridge/http2.rs:54-76 | What a server says first, octet by octet: at most 100 streams, a window of 1 MiB, frames of 1 MiB. |
| Http2Io.ServerConn.SendControlFrames | src/fastapi_mojo_rs/src/bridge/http2_io.rs:48-60 | Takes the queued frames for sending and empties the queue; a failed send closes the connection. |
| Http2Io.ServerConn.ApplyRequest | src/fastapi_mojo_rs/src/bridge/http2_io.rs:88-106 | Puts the request before the application, its body followed by a zero byte, or closes the connection if the body is not text. |
| Http2Io.ServerConn.Receive | src/fastapi_mojo_rs/src/bridge/http2_io.rs:132-160 | Feeds what was received and dispatches; after an error the connection stays in the table. |
| Http2Io.ServerConn.Pump | src/fastapi_mojo_rs/src/bridge/http2_io.rs:108-160 | Is exactly the pump step of the state machine, a hard receive error included, so Http2Lifecycle.EveryRunDelivers is about it. |
| Http2Io.ServerConn.ConnDone | src/fastapi_mojo_rs/src/bridge/io.rs:846-863 | Is exactly the finishing step of the state machine. |
| Http2Client.BuildHeaderBlock | src/fmtool/src/http2.rs:136-162 | Writes the client's header block as a list of representations. |
| Http2Client.HeaderBlockReadsBack | src/fmtool/src/http2.rs:136-162 | The server decodes it to the client's fields in every state of its table, and leaves the table alone. |
| Http2Client.SendRequest | src/fmtool/src/http2.rs:252-273 | Sends the header block as one frame and the body as another. |
| Http2Client.RequestWithContinuation | src/fmtool/src/http2.rs:286-299 | Sends the header block cut in two. |
| Http2Client.RequestIsTaken | src/fastapi_mojo_rs/src/bridge/http2.rs:310-475 | Every request within the limits, its header block whole or cut anywhere, is taken by any connection with room: same method, path, query, authority, headers and body, last in line. |
| Http2Client.SessionIsTaken | src/fastapi_mojo_rs/src/bridge/http2.rs:136-163 | A whole session of requests on increasing streams is taken in order. |
| Http2Client.SessionArrives | src/fastapi_mojo_rs/src/bridge/http2.rs:136-163 | However the bytes of a session are cut, partly even before the switch to HTTP/2, a fresh connection takes exactly its requests, in order. |
| Http2Sessions.RemainingIsSession | src/fmtool/src/http2.rs:252-299 | What is left to send at the start of a session is the whole session. |
| Http2Sessions.DrainPrefix | src/fastapi_mojo_rs/src/bridge/http2.rs:136-163 | From any point inside a session, even in the middle of a frame, draining any part of what is left takes exactly the requests completed by it and stops at a point inside the session again; too many waiting requests are the only error. |
| Http2Delivery.SessionIsAccepted | src/fastapi_mojo_rs/src/bridge/http2_io.rs:108-160 | Over every run in which pumps with the bytes of a session and finishes interleave in any way, feeds succeed and the text is good, the accepted requests are a prefix of the session; once all bytes were read they are the whole session, of any length. |
| Http2Delivery.ServeDelivers | src/fastapi_mojo_rs/src/bridge/http2_io.rs:108-121 | Pumping and finishing in turn hands over every waiting request. |
| Http2Delivery.SessionIsDelivered | src/fastapi_mojo_rs/src/bridge/http2_io.rs:108-160 | After such a run and enough turns the application has been handed exactly the requests of the session, in order, however many. |
| Http2Delivery.OnlyCrowdingFails | src/fastapi_mojo_rs/src/bridge/http2_io.rs:108-160 | While bytes of a session arrive within the buffer limit, the only way a feed fails is more than 100 requests waiting at once. |
| Http2Responses.LinesReadBack | src/fastapi_mojo_rs/src/bridge/http2_response.rs:153-202 | Header fields rendered as lines are taken apart into the same fields, in order. |
| Http2Responses.BuildHeaderBlock | src/fastapi_mojo_rs/src/bridge/http2_response.rs:172-202 | Writes the response's header block, or refuses a malformed line and a block over 16 KiB as specified. |
| Http2Responses.BuildResponseFrames | src/fastapi_mojo_rs/src/bridge/http2_response.rs:221-251 | Produces the frames of a response, or refuses as specified. |
| Http2Responses.Chunks | src/fastapi_mojo_rs/src/bridge/http2_response.rs:239-249 | The DATA payloads are non-empty, at most 16 KiB each, and joined they are the body. |
| Http2ResponseBytes.ResponseBytes | src/fastapi_mojo_rs/src/bridge/http2_response.rs:172-251 | A response with a type, a length, one more field and up to 16 KiB of body, octet by octet: a HEADERS frame with flag 4 whose block names status, type and length by their static indices 8, 31 and 28, and a DATA frame with flag 1. |
| Http2ResponseBytes.BodylessBytes | src/fastapi_mojo_rs/src/bridge/http2_response.rs:172-251 | Without a body, or when none is to be sent, the one HEADERS frame has flags 5. |
| Http2ResponseBytes.FullChunks | src/fastapi_mojo_rs/src/bridge/http2_response.rs:239-249 | Longer bodies are cut into pieces of exactly 16384 octets, the last one excepted. |
| Http2ResponseBytes.DataFramesAt | src/fastapi_mojo_rs/src/bridge/http2_response.rs:239-249 | Each piece is a DATA frame of its own, and only the last one ends the stream. |
| Http2ResponseBytes.LineIsRefusedIff | src/fastapi_mojo_rs/src/bridge/http2_response.rs:153-163 | A header line is refused if and only if it has no colon, or the name before the first one, trimmed and in lower case, is empty, longer than 4096 octets, or one of the five that concern the connection. |
| Http2ResponseBytes.ResponseIsRefusedIff | src/fastapi_mojo_rs/src/bridge/http2_response.rs:172-251 | A response is refused if and only if one of its lines is, or its header block would be longer than 16384 octets. |
| Http2ResponseReader.DecodeInteger | src/fmtool/src/http2.rs:164-182 | Reads an integer without any limit. |
| Http2ResponseReader.DecodeString | src/fmtool/src/http2.rs:184-195 | Reads a plain string and refuses a coded one. |
| Http2ResponseReader.DecodeHeaders | src/fmtool/src/http2.rs:197-231 | Reads the fields of a block, fails, or ends the program, as specified. |
| Http2ResponseReader.FieldAbortsIff | src/fmtool/src/http2.rs:184-231 | Reading a field that is not indexed ends the program exactly when nothing follows the name index 0, or nothing follows a name that can be read. |
| Http2ResponseReader.ZeroByteAborts | src/fmtool/src/http2.rs:184-231 | The one-byte block 0 does so. |
| Http2ResponseReader.IntegersAgree | src/fmtool/src/http2.rs:164-182 | Wherever the server's decoder accepts an integer, the client reads the same one. |
| Http2ResponseReader.NamesAgree | src/fmtool/src/http2.rs:19-81 | The client's own static table has the names of the server's, for all 61 entries. |
| Http2ResponseReader.ReadingIsRefused | src/fmtool/src/http2.rs:301-335 | A GOAWAY frame ends the reading with an error, and so does a reply that breaks off within a frame. |
| Http2ResponseReader.ReadResponse | src/fmtool/src/http2.rs:301-335 | The loop over frames computes the specified reply: status, headers, body, answers sent, bytes left. |
| Http2ResponseReader.ResponseReadsBack | src/fmtool/src/http2.rs:301-335 | Every response the server does not refuse is read by the client as the same status, headers and body, whatever passing frames come before it; it ends exactly at the frame with END_STREAM, and settings and pings are answered. |
| Http2ResponseReader.StatusRecovered | src/fastapi_mojo_rs/src/bridge/http2_response.rs:145-151 | The number a status line starts with is the status the client sees. |
| RegexMeaning.MatchesStayInside | src/fastapi_mojo_rs/src/bridge/regex.rs:336-460 | Every match moves forward and ends inside the text. |
| RegexMeaning.IdleMatches | src/fastapi_mojo_rs/src/bridge/regex.rs:419-458 | An unbounded repeat of something that matches nothing here does match, without moving. |
| RegexCost.FindsIsMatch | src/fastapi_mojo_rs/src/bridge/regex.rs:336-460 | What the matcher finds with any budget is a match. |
| RegexBudget.DrainsCosts | src/fastapi_mojo_rs/src/bridge/regex.rs:419-458 | A node that runs into a reachable idle repeat, below sequences, alternatives and other repeats alike, costs more than any budget the source can give. |
| RegexBudget.BoundHolds | src/fastapi_mojo_rs/src/bridge/regex.rs:336-460 | A node that does not drain costs at most a number computed from the node and the length of the text. |
| RegexBudget.SettlesNeverDrains | src/fastapi_mojo_rs/src/bridge/regex.rs:419-458 | If no unbounded repeat has a child that may match nothing, which can be read off the pattern, the node never drains, at any position of any text. |
| RegexBudget.FoundAtIff | src/fastapi_mojo_rs/src/bridge/regex.rs:463-484 | A match that starts at s is found if all starts up to s cost less than the budget; for sequences and repeats, only then. |
| RegexBudget.RightIff | src/fastapi_mojo_rs/src/bridge/regex.rs:463-484 | The search is right about a text if and only if its first match, should there be one, is found. |
| RegexBudget.AffordableIsRight | src/fastapi_mojo_rs/src/bridge/regex.rs:463-484 | If no start drains and the bound for all starts is below the budget, the search finds something exactly when some part matches. |
| RegexBudget.SettledIsAffordable | src/fastapi_mojo_rs/src/bridge/regex.rs:463-484 | That condition holds for every pattern without repeats of something that may be empty, once the bound for the length of the text is below the budget. |
| RegexBudget.DrainedIsMissed | src/fastapi_mojo_rs/src/bridge/regex.rs:463-484 | If a start up to the first match drains, a sequence or a repeat is not found although it matches. |
| RegexCaps.CappedMatches | src/fastapi_mojo_rs/src/bridge/regex.rs:419-458 | What a node can match while its repeats of single characters stop at the cap is a match of the node. |
| RegexCaps.ShortIsRoomy | src/fastapi_mojo_rs/src/bridge/regex.rs:379-458 | On a text shorter than 1024 no set of positions overflows, whatever the pattern. |
| RegexCaps.BoundedIsRoomy | src/fastapi_mojo_rs/src/bridge/regex.rs:379-458 | Nor does one on any text if the pattern has no unbounded repeat and its longest match is shorter than 1024. |
| RegexMatcher.EndPositions | src/fastapi_mojo_rs/src/bridge/regex.rs:336-460 | For every node, text, start and budget each end is a match of the denotational relation. Where text and node leave room in the sets of positions it uses exactly the budget that the cost of node, text and start says and finds something exactly when that budget is enough; with budget left it finds every match. |
| RegexMatcher.Advance | src/fastapi_mojo_rs/src/bridge/regex.rs:382-397 | One step from a set of positions: sound always, complete when not cut short, and it costs exactly what its positions cost. |
| RegexMatcher.ConcatEnds | src/fastapi_mojo_rs/src/bridge/regex.rs:379-402 | The same for a sequence of items. |
| RegexMatcher.AltEnds | src/fastapi_mojo_rs/src/bridge/regex.rs:403-418 | The same for alternatives. |
| RegexMatcher.RepeatEnds | src/fastapi_mojo_rs/src/bridge/regex.rs:419-458 | The same for bounded and unbounded repeats, level by level. |
| RegexMatcher.Search | src/fastapi_mojo_rs/src/bridge/regex.rs:463-484 | A hit is a match somewhere, within the caps; on a text with room there is a hit exactly when some start is found within the one budget. |
| RegexParser.NegatedEscapes | src/fastapi_mojo_rs/src/bridge/regex.rs:40-50 | The upper-case classes are complements within ASCII, except that `\D` also leaves out the letters. |
| RegexParser.BracesExtend | src/fastapi_mojo_rs/src/bridge/regex.rs:183-220 | A brace form that was closed reads the same in front of `)`; one left open at the end becomes an error there. |
| RegexParser.AlternativesExtend | src/fastapi_mojo_rs/src/bridge/regex.rs:92-107 | What parses to the end of a pattern parses to the same node in front of `)`, unless it ends in an open brace form. |
| RegexParser.AnchoringCompiles | src/fastapi_mojo_rs/src/bridge/regex.rs:489-492 | For every pattern that compiles, the anchored one compiles to start, the pattern's node, end, if and only if it does not end in an open brace form. |
| RegexAnchoring.AnchoringRepairsIff | src/fastapi_mojo_rs/src/bridge/regex.rs:489-492 | A pattern that does not compile compiles anchored if and only if it breaks at an unopened `)` and what follows, put in a group behind some atom and closed by `)$`, compiles. |
| RegexAnchoring.BrokenStaysBroken | src/fastapi_mojo_rs/src/bridge/regex.rs:92-107 | A pattern whose first part up to an unopened `)` or the end is broken does not compile anchored either. |
| RegexParser.EmptyClassIff | src/fastapi_mojo_rs/src/bridge/regex.rs:222-240 | A class is refused as empty if and only if it starts with `]`; a `]` right after `^` closes the class of all characters. |
| RegexWritten.WrittenCompiles | src/fastapi_mojo_rs/src/bridge/regex.rs:82-311 | Every syntax tree of the grammar (alternatives, quantifiers with their bounds, classes with ranges and escapes, groups) whose text is well formed compiles from that text to its own node. |
| RegexWritten.CompiledIsWritten | src/fastapi_mojo_rs/src/bridge/regex.rs:82-311 | Every pattern that compiles is the text of such a tree. |
| RegexWritten.CompilesIff | src/fastapi_mojo_rs/src/bridge/regex.rs:82-311 | A pattern compiles to a node if and only if it is the text of a syntax tree with that node. |
| RegexDenotes.CompiledMeans | src/fastapi_mojo_rs/src/bridge/regex.rs:82-311 | A pattern that compiles matches from i to j, by the relation of RegexMeaning, exactly where its syntax tree means to: `+` at least once, `*` any number of times, `?` at most once, `{n,m}` from n to m times, a range the codes between its ends, a dot ASCII without the newline; said without the parser. |
| RegexDenotes.WrittenMeans | src/fastapi_mojo_rs/src/bridge/regex.rs:82-311 | The same for every tree with that text, so two trees with the same text mean the same. |
| RegexDenotes.SomewhereMeans | src/fastapi_mojo_rs/src/bridge/regex.rs:463-484 | Some part of a text matches the compiled pattern if and only if the tree means one. |
| RegexDenotes.LazyMarkIsLiteral | src/fastapi_mojo_rs/src/bridge/regex.rs:156-181 | `a+?` is no lazy repeat: each of its matches ends with a question mark. |
| RegexDenotes.RangeLosesItsStart | src/fastapi_mojo_rs/src/bridge/regex.rs:257-270 | `[a-\d]` matches digits only: the `a` and the dash are lost. |
| Regex.Parser.ParseBraceForm | src/fastapi_mojo_rs/src/bridge/regex.rs:183-220 | Reads the bounds as specified, missing closing brace included. |
| Regex.Parser.ParseQuantifier | src/fastapi_mojo_rs/src/bridge/regex.rs:156-181 | Reads the quantifier that follows an atom as specified; RegexDenotes.CompiledMeans says what that matches. |
| Regex.Parser.ParseClassEscape | src/fastapi_mojo_rs/src/bridge/regex.rs:241-255 | Reads an escape inside a class. |
| Regex.Parser.ParseClass | src/fastapi_mojo_rs/src/bridge/regex.rs:222-291 | Reads a class, with ranges, escapes and negation, or fails as specified. |
| Regex.Parser.ParseEscape | src/fastapi_mojo_rs/src/bridge/regex.rs:293-311 | Reads an escape outside a class. |
| Regex.Parser.ParseAtom | src/fastapi_mojo_rs/src/bridge/regex.rs:126-154 | Reads an atom with its quantifier, as specified. |
| Regex.Parser.ParseConcat | src/fastapi_mojo_rs/src/bridge/regex.rs:109-124 | Reads a sequence up to a bar, a closing parenthesis or the end. |
| Regex.Parser.ParseGroup | src/fastapi_mojo_rs/src/bridge/regex.rs:92-107 | Reads alternatives. |
| Regex.Parser.Parse | src/fastapi_mojo_rs/src/bridge/regex.rs:82-88 | Compiles the whole pattern, or reports trailing input. |
| Regex.RgxMatch | src/fastapi_mojo_rs/src/bridge/regex.rs:463-484 | -1 exactly for patterns that do not compile; 1 only for a real match of the node, whose meaning RegexDenotes.CompiledMeans gives from the text of the pattern. On a text with room for the pattern, which every text shorter than 1024 has, the answer is right exactly if the first match is found in the budget, and always when pattern and text are affordable, a condition on the input alone. |
| Regex.AnchoredMeansWhole | src/fastapi_mojo_rs/src/bridge/regex.rs:489-492 | Finding the anchored node anywhere is matching the whole text, or all but a final newline. |
| Regex.RgxFullmatch | src/fastapi_mojo_rs/src/bridge/regex.rs:489-492 | For a pattern that compiles: -1 exactly if it ends in an open brace form; for one that does not: anything but -1 exactly if its anchors repair it. 1 only if the whole text matches, within the caps, the node that RegexDenotes.CompiledMeans is about. On a text with room, 1 if and only if the whole text matches and the cost at position 0 is within the budget of 100000, and so for every pattern that does not drain there and whose bound is small enough. |
| Regex.OpenBraceDisagrees | src/fastapi_mojo_rs/src/bridge/regex.rs:183-220 | `a{3` compiles alone and fails anchored. |
| Regex.CrossedGroupsDisagree | src/fastapi_mojo_rs/src/bridge/regex.rs:489-492 | `a)(b` fails alone and compiles anchored. |
| Regex.CrossedAlternativesDisagree | src/fastapi_mojo_rs/src/bridge/regex.rs:489-492 | A closing parenthesis, a bar and an opening one between `a` and `b` fail alone and compile anchored to two alternatives, one tied only to the start of the text and one only to its end. |
| Regex.AnchoredFound | src/fastapi_mojo_rs/src/bridge/regex.rs:489-492 | For every node, the anchored node is found if and only if the whole text matches and the cost at position 0 is within the budget. |
| Regex.NestedStarIsMissed | src/fastapi_mojo_rs/src/bridge/regex.rs:419-458 | `(a*)*` compiles and matches every text, and no budget the source gives finds it in a text shorter than 1024. |
| Regex.LongRunIsMissed | src/fastapi_mojo_rs/src/bridge/regex.rs:441-458 | `a*b` matches the whole of n times `a` followed by `b` for every n, but within the caps if and only if n is below 1024: on longer ones the full match is never found. |
| Regex.ClosedClassIsRefused | src/fastapi_mojo_rs/src/bridge/regex.rs:222-291 | A pattern that starts with `[]` is refused whatever follows; `[^]` compiles, and matches every character. |
| Calendar.YearIsRight | src/fastapi_mojo_rs/src/bridge/file_protocol.rs:24-26 | The division formula finds the one year of the 400-year era in which the day lies. |
| Calendar.Epoch | src/fastapi_mojo_rs/src/bridge/file_protocol.rs:21-32 | Day 0 is 1 January 1970. |
| Calendar.NextDayIsNext | src/fastapi_mojo_rs/src/bridge/file_protocol.rs:21-32 | For every day, before or after 1970, as long as the year fits 32 bits, the date of the next day is the calendar successor (month lengths and the 4/100/400 rule). |
| Calendar.DaysCount | src/fastapi_mojo_rs/src/bridge/file_protocol.rs:21-32 | Day z + n is the date n days after day z. |
| Calendar.ClockTicks | src/fastapi_mojo_rs/src/bridge/file_protocol.rs:36-51 | From 1970 on, one second later is one tick of the clock: time, date and weekday carry together. |
| Calendar.FirstStamp | src/fastapi_mojo_rs/src/bridge/file_protocol.rs:36-51 | Second 0 is a Thursday, 1 January 1970, midnight. |
| Calendar.EarlierTimesIff | src/fastapi_mojo_rs/src/bridge/file_protocol.rs:36-51 | Before 1970 the hours, minutes and seconds are a time of day if and only if it is midnight. |
| HttpDates.TextTellsStamp | src/fastapi_mojo_rs/src/bridge/file_protocol.rs:36-51 | For years of up to four digits no two stamps have the same text. |
| HttpDates.FourDigits | src/fastapi_mojo_rs/src/bridge/file_protocol.rs:41-50 | A year is written with all of its four digits, zeros in front. |
| HttpDates.SomeSeptember | src/fastapi_mojo_rs/src/bridge/file_protocol.rs:36-51 | 1788996557 seconds after 1970 are `Wed, 09 Sep 2026 23:29:17 GMT`. |
| HttpDates.LeapDay | src/fastapi_mojo_rs/src/bridge/file_protocol.rs:36-51 | 951782400 seconds after 1970 are midnight of Tuesday, 29 February 2000. |
| ByteRanges.SortOrders | src/fastapi_mojo_rs/src/bridge/file_protocol.rs:175 | The ranges are ordered by start before they are merged. |
| ByteRanges.MergeSorted | src/fastapi_mojo_rs/src/bridge/file_protocol.rs:176-185 | Merging keeps exactly the bytes covered and leaves non-empty, sorted, separated ranges of the file. |
| ByteRanges.NormalIsUnique | src/fastapi_mojo_rs/src/bridge/file_protocol.rs:175-185 | Such a list is determined by the bytes it covers. |
| ByteRanges.ParseRangeHeader | src/fastapi_mojo_rs/src/bridge/file_protocol.rs:142-186 | The first failing check is the error; over 100 ranges give the empty list, and only they; otherwise the result is normal and covers exactly the bytes of the valid parts, which RangeRequests.HeaderMeans gives from the text of the header. |
| RangeRequests.PartIsRead | src/fastapi_mojo_rs/src/bridge/file_protocol.rs:111-138 | A part written as first-last, first- or -n in decimal, with any blanks the source trims, is read as that request. |
| RangeRequests.MeantIsWanted | src/fastapi_mojo_rs/src/bridge/file_protocol.rs:111-138 | What is read covers exactly the bytes asked for: from first to last within the file, from first to its end, or the last n or all; it starts behind the end of the file if and only if the request does. |
| RangeRequests.HeaderMeans | src/fastapi_mojo_rs/src/bridge/file_protocol.rs:142-186 | A header of up to 100 such parts, in any white space and the unit in any case: the error, if any, is that of its requests, and otherwise the bytes covered are exactly those that some request asks for; one start behind the end of the file refuses all of them. |
| RangeRequests.ManyMean | src/fastapi_mojo_rs/src/bridge/file_protocol.rs:142-186 | More than 100 parts, met or not, give an empty list and no error. |
| RangeRequests.PartNamesItsRange | src/fastapi_mojo_rs/src/bridge/file_serve.rs:342-384 | Each part of a multi-range answer names its range: the text behind `bytes `, read as a request, asks for exactly the bytes that follow. |
| ByteRanges.MultipartContentLength | src/fastapi_mojo_rs/src/bridge/file_protocol.rs:193-210 | The announced length is the number of bytes of the multi-range body. |
| ByteRanges.WriteRanges | src/fastapi_mojo_rs/src/bridge/file_serve.rs:342-384 | What is sent is a prefix of the body, and all of it exactly when every send succeeds. |
| WsLoop.WsEventQueue.constructor | src/fastapi_mojo_rs/src/bridge/conn.rs:350-358 | The queue starts empty. |
| WsLoop.WsEventQueue.Push | src/fastapi_mojo_rs/src/bridge/conn.rs:368-377 | The ring buffer appends at the end, unless 2112 events wait. |
| WsLoop.WsEventQueue.Pop | src/fastapi_mojo_rs/src/bridge/conn.rs:380-389 | It gives the oldest event and keeps the others in order, across the wrap-around. |
| WsLoop.EventLoop.AllocSlot | src/fastapi_mojo_rs/src/bridge/conn.rs:215-229 | A new connection gets the first free slot, else a new one up to 1024, else none. |
| WsLoop.EventLoop.Find | src/fastapi_mojo_rs/src/bridge/conn.rs:231-235 | Finds the open slot of a descriptor. |
| WsLoop.EventLoop.End | src/fastapi_mojo_rs/src/bridge/io.rs:286-304 | Queues the end event and closes the slot. |
| WsLoop.EventLoop.PumpClosingAt | src/fastapi_mojo_rs/src/bridge/io.rs:319-390 | Pumps a closing session as the state machine does. |
| WsLoop.EventLoop.PumpSessionAt | src/fastapi_mojo_rs/src/bridge/io.rs:511-683 | Pumps an open session until it has a message, ends, or runs out of input; data from the client clears its strikes. |
| WsLoop.EventLoop.CheckDeadlines | src/fastapi_mojo_rs/src/bridge/io.rs:709-825 | Takes all decisions first and then carries them out, as the state machine does; WsDeadlines.DeadlinesMean says what becomes of each connection. |
| WsLoop.EventLoop.SweepPolled | src/fastapi_mojo_rs/src/bridge/io.rs:1025-1062 | Pumps the polled connections in order, up to the first with a request. |
| WsLoop.EventLoop.RecvAndParse | src/fastapi_mojo_rs/src/bridge/io.rs:881-1073 | Is exactly one round of the state machine: an event if one waits, else reading and deadlines, with the clocks and strikes of every connection kept. |
| WsLoop.EventLoop.Call | src/fastapi_mojo_rs/src/bridge/ws_session_ffi.rs:340-448 | Each call of the application is exactly its step of the state machine, clocks included. |
| WsLoopRuns.QueueIsSmall | src/fastapi_mojo_rs/src/bridge/conn.rs:46-48 | With at most one pending event per slot, fewer events wait than there are slots, so the queue is never full. |
| WsLoopRuns.DeadlinesKeep | src/fastapi_mojo_rs/src/bridge/conn/deadlines.rs:41-107 | Carrying out deadline decisions keeps the invariant: none of them concerns a session with a pending message. |
| WsLoopRuns.RoundKeeps | src/fastapi_mojo_rs/src/bridge/io.rs:881-1073 | Every round keeps the invariant: a message event means its slot is in phase 4, an end event means it is closed, and each slot has at most one. |
| WsLoopRuns.HandleKeepsIff | src/fastapi_mojo_rs/src/bridge/ws_session_ffi.rs:340-448 | A call of the application keeps the invariant if and only if it completes nothing or no message for that descriptor still waits. |
| WsLoopRuns.EveryRunIsOrderly | src/fastapi_mojo_rs/src/bridge/conn.rs:366-389 | In every run of such rounds and calls no event is dropped, every event pushed is popped or still waits, in order, and each slot accounts for at most one. |
| WsLoopRuns.DeliveryIsTimely | src/fastapi_mojo_rs/src/bridge/io.rs:889-906 | A delivered message finds its session in phase 4 with nothing else pending; a delivered end finds no open connection with that descriptor. |
| WsDeadlines.DeadlinesMean | src/fastapi_mojo_rs/src/bridge/conn/deadlines.rs:41-107 | The world after the deadlines, connection by connection and without the deciding function: an open session that has been silent for the receive timeout is reminded while strikes are left and else ended with code 1000; a closing one is ended when its close is old enough; a started request is refused with 408 when silent for the receive timeout or older than the longest request; an idle connection is closed after the idle time; nothing else changes. |
| WsDeadlines.SilentIsReminded | src/fastapi_mojo_rs/src/bridge/io.rs:704-825 | Over any run, whatever happens on other connections, a session from which nothing comes is reminded once each time its deadline is reached, while reminders are left, and nothing else happens to it. |
| WsDeadlines.SilentIsClosed | src/fastapi_mojo_rs/src/bridge/io.rs:704-825 | A silent session gets exactly as many pings as configured, and the next time its deadline is reached it is closed with code 1000 and its slot is free. |
| WsSessions.SessionMeans | src/fastapi_mojo_rs/src/bridge/io.rs:511-683 | An open session answers the pings before the first input that stops it, and what that input asks for is done: a message is queued, or the session is closed with the code for its fault. |
| WsSessions.NextMessage | src/fastapi_mojo_rs/src/bridge/ws_session_ffi.rs:340-448 | A session whose message was completed delivers the next one in the same way. |
| WsSessions.ClosingMeans | src/fastapi_mojo_rs/src/bridge/io.rs:319-390 | After our close frame nothing is sent and no message delivered; the connection ends if and only if something ends it before input runs out. |
| WsSessions.TrickleKeepsStart | src/fastapi_mojo_rs/src/bridge/io.rs:394-509 | However slowly a request comes in, its clock runs from its first byte: reading on moves only the time of the last byte. |
| WsSessions.RequestStarts | src/fastapi_mojo_rs/src/bridge/io.rs:394-509 | The first byte starts the clock of a request, and so does a complete header. |
| Base64.EncodeReadsBack | src/fastapi_mojo_rs/src/bridge/multipart.rs:258-293 | Decoding what was encoded gives back every byte string. |
| Base64.KnownAnswers | src/fastapi_mojo_rs/src/bridge/multipart.rs:258-293 | Three examples of RFC 4648 section 10: `foobar`, `fooba` and `foob`, with no padding, one sign and two. |
| Base64.AlphabetIs | src/fastapi_mojo_rs/src/bridge/multipart.rs:258-262 | The 64 letters are the capitals, the small letters, the digits, plus and slash. |
| Base64.EncodeBytes | src/fastapi_mojo_rs/src/bridge/multipart.rs:258-293 | The loop over triples writes the encoding. |
| Base64.DecodeBytes | src/fastapi_mojo_rs/src/bridge/multipart.rs:566-599 | The loop with a wrapping 32-bit accumulator decodes as if nothing were lost, and refuses the same inputs. |
| Searching.SearchMeans | src/fastapi_mojo_rs/src/bridge/multipart.rs:130-149 | A position is found exactly when the needle occurs, and it is the first one. |
| Searching.FindFrom | src/fastapi_mojo_rs/src/bridge/multipart.rs:130-149 | The scan finds the first occurrence from the start position on, none for an empty needle. |
| MultipartParser.ExtractBoundary | src/fastapi_mojo_rs/src/bridge/multipart.rs:73-127 | Finds the boundary parameter as specified, in any case, quoted or not. |
| MultipartParser.ExtractAttribute | src/fastapi_mojo_rs/src/bridge/multipart.rs:152-196 | Finds an attribute of a header as specified. |
| MultipartParser.SplitPartHeaders | src/fastapi_mojo_rs/src/bridge/multipart.rs:200-231 | Splits a part at its first blank line. |
| MultipartParser.ParseLine | src/fastapi_mojo_rs/src/bridge/multipart.rs:235-255 | Splits a header line into its lower-cased key and its value. |
| MultipartParser.MultipartState.ParseMultipart | src/fastapi_mojo_rs/src/bridge/multipart.rs:298-429 | Stores exactly the specified parts, or none for anything else; the count is their number, -1, or -2 for the out-of-range stop that leaves the state alone, which happens exactly when some visited slice is as MultipartOverrun.OutOfRangeIff says. |
| MultipartOverrun.OutOfRangeIff | src/fastapi_mojo_rs/src/bridge/multipart.rs:351-405 | A part is sliced out of range if and only if it ends in a carriage return that is alone or follows a line feed, and has no blank line before it. |
| MultipartOverrun.OverrunIff | src/fastapi_mojo_rs/src/bridge/multipart.rs:298-429 | Parsing is stopped so exactly when one of the slices between delimiters, among those it visits, is such a part. |
| MultipartOverrun.OverrunBody | src/fastapi_mojo_rs/src/bridge/multipart.rs:298-429 | A body whose only part is a lone carriage return does it. |
| MultipartRoundTrip.BoundaryFoundIff | src/fastapi_mojo_rs/src/bridge/multipart.rs:73-127 | The boundary of a content type is found again if and only if it does not start with a blank. |
| MultipartRoundTrip.NameReadsAsFileIff | src/fastapi_mojo_rs/src/bridge/multipart.rs:152-196 | A field without a file is read as one if and only if its name contains `filename=`. |
| MultipartRoundTrip.FilenameReadsBackIff | src/fastapi_mojo_rs/src/bridge/multipart.rs:152-196 | For every item, with or without a file, the file name is read back if and only if the name has no `filename=`, or what follows its first one there reads as that very file name. |
| MultipartRoundTrip.FormIsOwnIff | src/fastapi_mojo_rs/src/bridge/multipart.rs:298-429 | A rendered form is parsed to its own parts if and only if this holds for each of its first 32 items. |
| MultipartRoundTrip.SectionParsed | src/fastapi_mojo_rs/src/bridge/multipart.rs:351-405 | A rendered section is parsed to its part: name, file name, type and body. |
| MultipartRoundTrip.SectionEnds | src/fastapi_mojo_rs/src/bridge/multipart.rs:346-352 | The first delimiter found in a section is the one behind it. |
| MultipartRoundTrip.FormReadsBack | src/fastapi_mojo_rs/src/bridge/multipart.rs:298-429 | The RFC 7578 rendering of any non-empty list of items, `filename=` in a name included, is parsed to the same items in order, bodies byte by byte with trailing line breaks kept, file names as they are read; only the first 32 are kept. |
| MultipartRoundTrip.EncodedBodyReadsBack | src/fastapi_mojo_rs/src/bridge/multipart.rs:258-293 | The stored base64 of a part decodes to its body, up to the limit for one part. |
| MultipartHeaders.SplitIff | src/fastapi_mojo_rs/src/bridge/multipart.rs:200-231 | The headers of a part are all that comes before its first empty line, which ends in a line feed with or without a carriage return, and the body all behind it. |
| MultipartHeaders.LinesMean | src/fastapi_mojo_rs/src/bridge/multipart.rs:351-385 | Header lines, each ended in either way, are carried out one after the other. |
| MultipartHeaders.FieldLineMeans | src/fastapi_mojo_rs/src/bridge/multipart.rs:235-255 | A line is a key in any case, a colon, any blanks and a value; of a disposition the two attributes count, of a type the value, and other keys say nothing. |
| MultipartHeaders.OtherLinesSayNothing | src/fastapi_mojo_rs/src/bridge/multipart.rs:235-255 | A line without a colon, or with one in front, says nothing. |
| MultipartHeaders.AttributeIsRead | src/fastapi_mojo_rs/src/bridge/multipart.rs:152-196 | The first place where the name, in any case, is followed by an equals sign gives the attribute: in quotes up to the closing one, or bare up to a blank, a semicolon or the end. |
| MultipartHeaders.AttributeIsMissing | src/fastapi_mojo_rs/src/bridge/multipart.rs:152-196 | Without such a place there is no attribute. |
| MultipartHeaders.BoundaryIsRead | src/fastapi_mojo_rs/src/bridge/multipart.rs:73-127 | The boundary may be named in any case, with blanks around the equals sign, in quotes or bare up to a semicolon, a quote or a line break. |
| MultipartHeaders.PartMeans | src/fastapi_mojo_rs/src/bridge/multipart.rs:351-405 | A slice with a name becomes a part: all behind the empty line is its body, a file without a type is an octet stream, and a body of up to 16777216 octets is kept in base64 too; without a name it is skipped. |
| MultipartBodies.BodyMeans | src/fastapi_mojo_rs/src/bridge/multipart.rs:298-429 | Any form in any layout: whatever comes before the first boundary, a line break of either kind, a lone carriage return or nothing behind each, and anything behind the closing dashes, gives the parts of its slices in order, up to 32, or stops at the first slice that overruns. |
| MultipartBodies.SlicesParse | src/fastapi_mojo_rs/src/bridge/multipart.rs:340-425 | The same from behind any boundary on, with parts already collected. |
| MultipartHeaders.FormText | src/fastapi_mojo_rs/src/bridge/multipart.rs:298-429 | The rendering, octet by octet: sections divided by a line break, two dashes and the boundary, and two more dashes at the end. |
| MultipartHeaders.FieldIsRead | src/fastapi_mojo_rs/src/bridge/multipart.rs:298-429 | One plain field, octet by octet, is parsed to its name and body. |

## Left out

- Sockets, poll, accept, TLS, file reads, global request state and mutexes: what they give is a parameter of the steps.
- HuffmanTables.NewHuffman: requires fewer than 65536 lengths, which the source's 16-bit counters need; every caller passes at most 320.
- BitReaders.BitReader.Bits: takes and returns unbounded numbers; at most 16 bits are ever asked for, so the source's 16-bit results do not wrap.
- Http2Io.ServerConn.Pump: recognising the connection preface is not modelled: the connection starts with whatever followed it. Time stamps are left out.
- Http2Io.ServerConn.ApplyRequest: whether the body is acceptable (multipart, or valid UTF-8) is one parameter, and the request globals are not modelled.
- Http2.H2Connection.TakeSendWindow: all streams share one window, as in the source; exact flow control of RFC 7540 section 6.9 is not claimed.
- Http2Responses.BuildResponseFrames: streaming, preflight and redirect responses only differ in their arguments and are not modelled; trimming and lower-casing work on ASCII bytes, not on Unicode text.
- Http2ResponseReader.DecodeHeaders: text is bytes (the client's lossy conversion is not modelled), and numbers have no width, so shifts that overflow are not modelled.
- RegexMatcher.EndPositions: positions are kept in sets and taken from them in any order, where the source uses hash sets and lists; its final truncation of a set is omitted, since sets are capped while they grow. Where a set overflows the order decides what is kept, so there only soundness within the caps is stated.
- Entity tags, content dispositions and boundary generation of the file server.
- ByteRanges.ParseRangeHeader: the header is ASCII bytes, so Unicode blanks and letters are not modelled; the library sort is an insertion sort.
- ByteRanges.WriteRanges: a send takes a whole piece or fails, and the file is a byte string, so short reads are not modelled.
- WsLoop.EventLoop.PumpSessionAt: the frame parser, the handshake and HTTP/1 parsing are inputs, namely the results of feeding bytes and of pumping a request; payload buffers are not modelled, and a notice of what was sent stands for its bytes.
- WsLoop.EventLoop.CheckDeadlines: the clock is read once in each round or call; its arithmetic is unbounded, where the source saturates at 64 bits.
- Http2Io.ServerConn.SendControlFrames: a flush that fails takes all queued frames for sending, however many of them went out.
- MultipartParser.MultipartState.ParseMultipart: the accessors that save, hash and print stored parts are not modelled.
- Gzip and streaming compression, SHA and MD5, JSON, CORS, middleware, metrics, traces and configuration parsing: library wrappers or branch tables that would only add easy members.

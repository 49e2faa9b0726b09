# Models and proofs for the Amiga network tools

This project models the byte-level code of the Amiga network tools (the WebSocket client, the hashes, the JSON
scanners, the HTTP chunk decoder, the Gemini browser, the MCP server, the Claude client and its proxy, and the
integer geometry of the boing demo) and proves what that code is meant to do. Nothing here executes the tools.

Each C function that works in place is a method with the same cursors, buffers and branches, proved against a
function on sequences; the properties are then lemmas about those functions. A reference that does not look like
the code stands on the other side of every main result: a stream decoded at once, a padded message folded in one
go, a JSON value and its printer, a list of chunks, a stack of path segments, a document of HTML glyphs, an
unbounded history.

| file | what it models |
|---|---|
| `WsFrame`, `WsReader` | frame codec, receive window, message assembler (RFC 6455) |
| `Handshake`, `NostrClient` | the handshake answer, and the subscription loop from the stream to what is shown |
| `NostrMessages` | every kind of relay message and what a run of them shows; what the client sends, as JSON |
| `ShaBlocks`, `HashStream` | SHA-1 and SHA-256, streamed (FIPS 180-4) |
| `Sha256Example`, `AcceptExample` | two published examples worked out round by round: the digest of `abc`, and the handshake of RFC 6455, section 1.3 |
| `Base64` | the encoding of the handshake key (RFC 4648) |
| `CText`, `JsonText`, `JsonScan` | C strings, escaping and decoding (RFC 8259, section 7), key search and balanced spans |
| `JsonValue`, `JsonLookup` | JSON values, a printer, and what the scanners find in every printed document |
| `JsonUnicode` | what escapes decode to, against a reader of UTF-8 (RFC 3629); what the escapers write |
| `JsonUnique` | printed JSON can be read in one way only |
| `ClaudeCollector`, `ClaudeHistory` | content blocks of a reply; the bounded history and its join |
| `MastodonEnvelope`, `MastodonStatus`, `MastodonLines` | the double-escaped request envelope; status objects and HTML stripping; tags, paragraphs and entities |
| `NostrEvent` | events pulled out of relay messages, and the hashed serialization |
| `Numbers`, `Dechunk` | `rc_strtoul` and the in-place chunk decoder (RFC 9112, section 7.1) |
| `GeminiPath`, `GeminiUrl`, `Gemtext` | dot segments, URLs and resolution (RFC 3986), the line renderer |
| `GeminiForms`, `GemtextLines` | every form of address and reference, and every kind of line, in its own letters |
| `McpLines`, `McpServer`, `McpExchange`, `McpInitialize`, `McpMethods` | the line-framed request loop, what each end reads of the other's lines, and the answer to each method |
| `RateLimit`, `Translate` | the proxy's sliding window and its message translation |
| `Boing` | integer square root, ellipse and sphere |
| `Wrappers`, `Bytes` | options, octets, sequence lemmas |

## What the proofs say about the code

Where the code does not do what its comments or a caller would expect, the exact condition is proved.

- `find_key` knows neither depth nor escapes in keys. It stops at the first member, in printing order and at any
  depth, whose written key is the wanted one or ends in an escaped quote followed by it
  (`JsonLookup.LookupString`). So it stops at a given match exactly when nothing before it matches
  (`FoundIffFirst`), and returns its value exactly then or when the first earlier match has the same value
  (`SameValueIff`). Two printed documents on which it reads the wrong field: `TopLevelMissed`,
  `EscapedKeyMatched`.
- A WebSocket message arrives whole exactly when it leaves room for the terminator; a longer one silently loses
  fragments (`WsReader.ArrivesWholeIffItFits`).
- `extract_first_object` copies the right event exactly when the subscription name holds no opening brace
  (`NostrEvent.ExtractedIffPlainName`).
- An absolute URL resolves to itself exactly when its host holds no `#` (`GeminiUrl.ResolveAbsolute`).
- The Gemini path rule keeps a trailing slash only if the input had one. A base and its normal form answer every
  path reference alike, as far as there is room, exactly when the base's last segment, if it fits the segment
  buffer, is empty, or a dot segment directly under the root, or a name that still fits the stack
  (`GeminiUrl.BaseMayBeNormalized`; for any two bases, `SameAnswersIff`). An empty or query-only reference keeps
  the base path as it is: there they agree exactly when that path is already normal (`QueryAnsweredIff`).
- Which references are refused: a Gemini URL with a bad address; any other with `://` before a fragment, be it only
  in its query; and one that begins with `//` and goes on with a bad address (`GeminiUrl.RefusedIff`,
  `QueryRefused`).
- A header line longer than the line buffer is read in pieces, and a later piece can be taken for the accept header
  (`Handshake.LaterPieceTaken`; `OpensIff` is the condition for lines of any length).
- The protocol version goes into an `initialize` reply without escaping. The reply is a reply object exactly when
  the decoded version is a string body (`McpInitialize.InitializeIsReplyIff`), and one line exactly when the version
  is (`McpServer.ReplyIsOneLine`). So the output of a whole session can be cut back into its replies exactly when
  no such version holds a line feed (`OneReplyALine`).
- The MCP comment that a tool's output always fits its escape buffer is wrong: control characters grow sixfold
  (`McpExchange.FallbackIsReachable`). `OutputFitsIff` is the exact condition in character counts.
- The id that is echoed is the first match of `id` in the line, at any depth. If it is a scalar it is echoed whole
  exactly when it fits the id buffer; a longer string loses its closing quote (`McpExchange.TokenEchoes`).
- A run of `\u` escapes decodes to UTF-8 exactly when none of them is half of a surrogate pair. Pairs are not joined,
  so a character outside the basic plane becomes six octets that no UTF-8 reader takes
  (`JsonUnicode.EscapesAreUtf8`).
- `html_strip` breaks a line at four tags only. `<br />`, with a blank, is not one of them
  (`MastodonLines.LineTagIff`).
- The text blocks of a reply are shown whole exactly when together they leave two characters of the buffer free; a
  block that does not fit is left out, and later ones are still added (`ClaudeCollector.CollectsBlocks`,
  `TextIsWholeOrLeft`).
- An argument text of a tool call survives translation exactly when it can be parsed
  (`Translate.ExchangeSurvives`); calls and text of a turn survive exactly when it has no
  tool results, or none of them to lose (`TurnKeeps`).

## Model

| member | source | states |
|---|---|---|
| WsFrame.MaskedTwice | nostr/nostr.c:401-405 | masking twice with the same key gives the payload back |
| WsFrame.ParseEncode | nostr/nostr.c:333-408 | for every frame, length form and following bytes, parsing consumes exactly the frame and returns FIN, opcode and payload; over the cap it is refused |
| WsFrame.ParsedIsFrame | nostr/nostr.c:370-408 | whatever parses is a valid frame followed by untouched bytes |
| WsFrame.ParseStable | nostr/nostr.c:370-408 | a verdict does not change when more bytes arrive |
| WsFrame.StrictPrefixIncomplete | nostr/nostr.c:370-408 | every strict prefix of a frame within the cap asks for more bytes |
| WsFrame.IncompleteIsShort | nostr/nostr.c:370-408 | while a frame is incomplete its window is below the cap plus 14, so a full window is never an unfinished acceptable frame |
| WsFrame.ClientFrameIsShortest | nostr/nostr.c:333-364 | a built frame uses the shortest of the three length forms of section 5.2 of RFC 6455 |
| WsFrame.BuiltFrameRoundTrip | nostr/nostr.c:333-364 | a built frame parses back to a final frame with the low four opcode bits and the payload, whatever follows |
| WsFrame.BuildFrame | nostr/nostr.c:333-364 | the output is the encoding of the masked client frame, or -1 with the buffer untouched exactly when 14 spare bytes are missing |
| WsFrame.ReadLead | nostr/nostr.c:370-394 | header, length and mask as the specification parses them, on any window of the buffer |
| WsFrame.CopyPayload | nostr/nostr.c:401-405 | the copied payload is the window, unmasked when there is a mask |
| WsFrame.ParseFrame | nostr/nostr.c:370-408 | verdict, FIN, opcode, payload and consumed length agree with parsing the window as a sequence |
| WsFrame.WireLayout | nostr/nostr.c:333-364 | every octet of an encoded frame: the head, the length in big-endian order behind 126 or 127, the mask, and each payload octet with exactly the bits flipped that are set in mask octet i modulo 4 |
| WsFrame.ClientWire | nostr/nostr.c:333-364 | every octet of a built frame, with the sizes of the three headers |
| Bytes.XorIsBitwise | nostr/nostr.c:401-405 | the exclusive or of two octets is that of bit vectors |
| WsReader.FragmentsJoin | nostr/nostr.c:1140-1194 | fragments with control frames anywhere between them give the joined payloads under the first opcode, one answer per ping in order, and leave the rest of the stream alone |
| WsReader.MessageFits | nostr/nostr.c:1178-1192 | an assembled message always leaves room for its terminator |
| WsReader.ArrivesWholeIffItFits | nostr/nostr.c:1140-1194 | a message arrives whole exactly when its data is shorter than the buffer less one |
| WsReader.SessionDelivers | nostr/nostr.c:1140-1194 | called again and again on one connection: every message is delivered in order and every ping answered, whatever follows |
| WsReader.ClientFrameSends | nostr/nostr.c:333-364 | what is written parses back as one masked final frame with the opcode and payload |
| WsReader.HeaderEndPrefix | nostr/nostr.c:983-990 | a header end found in a prefix is the header end of the stream, and conversely once enough has arrived |
| WsReader.FindHeaderEnd | nostr/nostr.c:983-990 | the index just past the first blank line of the buffered bytes, or -1 |
| WsReader.WsConn.ConnRead | nostr/nostr.c:895-901 | a read delivers any non-empty prefix of what is pending, up to the room left |
| WsReader.WsConn.Compact | nostr/nostr.c:1121-1125 | unread bytes move to the front unchanged |
| WsReader.WsConn.Ensure | nostr/nostr.c:1117-1133 | the unread stream stays the same; success means enough is buffered, failure means the stream ended or the window is full |
| WsReader.WsConn.AwaitHeader | nostr/nostr.c:1027-1043 | when the blank line has arrived, the header is the beginning of the stream and the unread stream exactly what follows, leftover bytes included |
| WsReader.WsConn.SendPong | nostr/nostr.c:1167-1175 | one more frame is sent, a pong carrying the ping's payload |
| WsReader.WsConn.SendText | nostr/nostr.c:1094-1113 | one more frame is sent, carrying the text; nothing, exactly when it is too long for its buffer |
| WsReader.WsConn.NextFrame | nostr/nostr.c:1146-1161 | pulls bytes until the frame at the head of the stream is decided, with the verdict of parsing the whole stream |
| WsReader.WsConn.ReadMessage | nostr/nostr.c:1140-1194 | message, rest of the stream and pongs are those of assembling the whole stream at once, however reads split it |
| WsReader.WsConn.ReadAll | nostr/nostr.c:1140-1194 | all messages and pongs of repeated calls equal those of decoding the stream at once |
| WsReader.CloseEnds | nostr/nostr.c:1140-1166 | after any fragments and control frames, a close frame ends the connection cleanly with the pings before it answered; an unfinished message is given up and nothing after is read |
| WsReader.SessionCloses | nostr/nostr.c:1140-1194 | a connection of any messages up to a close frame: exactly those messages and pongs, and a clean end |
| WsReader.OversizeFails | nostr/nostr.c:1146-1161 | a frame over the payload buffer is an error, with the pings before it answered |
| WsReader.CutOffEnds | nostr/nostr.c:1146-1161 | a stream that stops inside a frame ends cleanly |
| WsReader.FrameCodes | nostr/nostr.c:1163-1192 | what each frame does, by the number in its first octet: 8 closes, 9 is answered, 10 is passed over, any other adds its payload if there is room |
| WsReader.DeliveredOpcode | nostr/nostr.c:1178-1192 | a message is delivered under the opcode of its first data frame, a continuation counting as text |
| WsReader.DataFrameStep | nostr/nostr.c:1178-1192 | a fragment that does not leave room for the terminator is dropped, and the message goes on |
| WsReader.SentCode | nostr/nostr.c:1167-1175 | a sent frame is final and carries its code in the first octet; a pong is code ten |
| WsReader.HeaderEndIsFirst | nostr/nostr.c:983-990 | the header end is just behind the first CR LF CR LF, and there is none exactly when there is no such place |
| Handshake.ValueFound | nostr/nostr.c:1057-1077 | for header lines of any length, the scan finds the value of the first piece that begins like an accept header, or none |
| Handshake.ShortLines | nostr/nostr.c:1057-1077 | a line that fits the line buffer is one piece |
| Handshake.LaterPieceTaken | nostr/nostr.c:1057-1077 | the input: a line longer than the buffer whose second piece begins like an accept header is taken for one |
| Handshake.OpensIff | nostr/nostr.c:1045-1082 | an answer opens the connection exactly when its first line says 101 and the first accept header among its pieces has the expected value |
| Handshake.RightAnswerOpens | nostr/nostr.c:1045-1082 | a 101 answer with an accept header, in any case and with any blanks, is accepted exactly when its value is the hash of the key |
| Handshake.WsAcceptKey | nostr/nostr.c:317-326 | the expected value: base64 of the SHA-1 digest of key and protocol identifier (section 1.3 of RFC 6455) |
| Handshake.CheckHandshake | nostr/nostr.c:1045-1082 | the verdict on a header block |
| Handshake.StandardAnswer | nostr/nostr.c:1045-1082 | the four header lines of RFC 6455, section 1.3, open the connection exactly when the value is the one for the key |
| AcceptExample.AnswerToExample | nostr/nostr.c:1505-1507 | the example key is answered with `s3pPLMBiTxaQ9kYGzzhZRbK+xOo=`, through both SHA-1 blocks and the Base64 encoding |
| AcceptExample.ExampleOpens | nostr/nostr.c:1045-1082 | the header block of that example opens the connection |
| NostrClient.WatchIsSession | nostr/nostr.c:1263-1300 | the loop shows what all messages of the stream hold up to the first that ends it, and answers no other pings |
| NostrClient.ReadsNumber | nostr/nostr.c:1212-1232 | time and kind, printed as numbers, are read back when only blanks follow the colon |
| NostrClient.NoteIsShown | nostr/nostr.c:1198-1285 | a printed event message shows author, time, kind and content of its event |
| NostrClient.EventsAreShown | nostr/nostr.c:1140-1300 | end to end: for every list of printed events, in any fragmentation with control frames between, author, time, kind and content of each are shown in order |
| NostrClient.PrintEvent | nostr/nostr.c:1198-1241 | author, time, kind and content of the first object, or the message that there is none |
| NostrClient.WatchAll | nostr/nostr.c:1263-1300 | what is shown and which pings are answered depend on the stream only, not on how reads cut it |
| NostrClient.RunSubscribe | nostr/nostr.c:1026-1300 | after the handshake answer is accepted, what is shown is what the rest of the stream holds, and what is written is the request, one pong for each ping, and the farewell; header and frames may share reads |
| NostrMessages.WordIsRead | nostr/nostr.c:534-553 | the leading word of any printed array is read back, whatever follows |
| NostrMessages.MessageIsSeen | nostr/nostr.c:1267-1293 | EVENT, EOSE, NOTICE, CLOSED and unknown messages each show what they should; the loop ends at CLOSED, and at EOSE where asked |
| NostrMessages.OnlyTextCounts | nostr/nostr.c:1267-1267 | messages of any opcode but 1 are passed over |
| NostrMessages.EventWithoutObject | nostr/nostr.c:1206-1209 | an EVENT array without an object shows nothing |
| NostrMessages.MessagesAreSeen | nostr/nostr.c:1140-1300 | a run of messages of any kinds, in any fragmentation, is shown one by one in order |
| NostrMessages.LastIsLast | nostr/nostr.c:1263-1300 | the message that ends the loop is shown and nothing after it, whatever the stream still holds |
| NostrMessages.RequestIsPrinted | nostr/nostr.c:1258-1261 | the request is the printed REQ array with kinds and limit |
| NostrMessages.FarewellIsPrinted | nostr/nostr.c:1296-1297 | the farewell is the printed CLOSE array |
| ShaBlocks.OrForms | common/rtc_common.c:76-108 | the code's forms of the choice and majority functions are the standard's |
| ShaBlocks.Sha1Block | nostr/nostr.c:95-119 | the block function of section 6.1.2 of FIPS 180-4, in place |
| ShaBlocks.Sha256Block | nostr/nostr.c:205-232 | the block function of section 6.2.2 of FIPS 180-4, in place |
| ShaBlocks.WordIs | nostr/nostr.c:211-213 | a word of a block is four octets, the first one most significant |
| Sha256Example.DigestOfAbc | nostr/nostr.c:1482-1484 | every word of the SHA-256 digest of `abc`, through padding, schedule, all constants and 64 rounds |
| HashStream.PadIsMinimal | nostr/nostr.c:249-269 | the padding adds the fewest zeros that leave whole blocks |
| HashStream.FoldAppend | nostr/nostr.c:234-247 | folding blocks in two runs equals folding them in one |
| HashStream.CarryOut | nostr/nostr.c:121-134 | comparing the new low word with the old detects exactly the carry |
| HashStream.CountBits | nostr/nostr.c:234-247 | the two words hold the bit count modulo 2^64 after every update, including the bits lost by the shift |
| HashStream.TailCompletes | nostr/nostr.c:234-247 | filling the partial block compresses exactly one block more |
| HashStream.DigestOfTail | nostr/nostr.c:249-269 | the last block with marker, zeros and length gives the one-shot digest |
| HashStream.HashCtx.Update | nostr/nostr.c:234-247 | the context absorbs the chunk: block state, buffered tail and counter stay in step with everything fed in |
| HashStream.HashCtx.Final | common/rtc_common.c:132-158 | the output is the one-shot digest of everything fed in |
| HashStream.HashChunks | common/rtc_common.c:110-158 | for every list of chunks, streaming equals padding and folding the concatenation |
| HashStream.HashHex | nostr/nostr.c:271-282 | the digest in lower-case hexadecimal, high nibble first |
| HashStream.PadLayout | nostr/nostr.c:249-269 | the padded message octet by octet: message, 0x80, zeros, bit count in 64 big-endian bits |
| HashStream.DigestWords | common/rtc_common.c:152-157 | octets 4i to 4i+3 of a digest, read in big-endian order, are word i of the final state |
| HashStream.HexReads | nostr/nostr.c:271-282 | two digits an octet, the high one first, which read back as the octet |
| Base64.DecodeEncode | nostr/nostr.c:293-314 | for every octet sequence, decoding the encoded text gives it back |
| Base64.EncodeLength | nostr/nostr.c:293-314 | four symbols for every three octets begun |
| Base64.JoinedSextets | nostr/nostr.c:304-308 | the shifts of the joined 24 bits are the four sextets |
| Base64.EncodeInto | nostr/nostr.c:293-314 | the encoded text, or -1 exactly when text and terminator do not fit |
| Base64.EncodeLayout | nostr/nostr.c:293-314 | every symbol of the text is the alphabet entry for its six bits of the 24-bit group; missing octets count as zero and end in padding |
| JsonText.UnescapeEscape | claude/client/claude.c:83-158 | decoding undoes escaping for every text, whatever follows it |
| JsonText.UnescapeNostrEscape | nostr/nostr.c:562-583 | decoding undoes the NIP-01 escaping for every text |
| JsonText.UnescapeWithinIsPrefix | claude/client/claude.c:113-158 | a short buffer holds a prefix of the decoded text, and all of it when four characters are to spare |
| JsonText.EscapeIsBody | claude/client/claude.c:83-109 | escaped text is a string body: no bare quote, no cut escape |
| JsonText.EscapeHasNoControls | claude/client/claude.c:83-109 | escaped text has no raw control character |
| JsonText.JsonEscape | mastodon/mastodon.c:98-124 | the escaped text and its length, or -1 exactly when fewer than eight characters were left before some character |
| JsonText.JsonUnescape | mastodon/mastodon.c:128-173 | the decoded text as far as the buffer reaches |
| JsonUnicode.EscapesAreUtf8 | claude/client/claude.c:129-148 | a run of `\u` escapes, digits of either case, decodes to the UTF-8 of its codes exactly when no code is a surrogate |
| JsonUnicode.SimpleEscapes | claude/client/claude.c:118-152 | the eight two-character escapes by code point; any other backslash stays, and so does a `\u` cut short |
| JsonUnicode.PlainCharacter | claude/client/claude.c:150-152 | any other character stands for itself |
| JsonUnicode.EscapedForms | claude/client/claude.c:83-109 | what each character is written as, control characters in lower-case hexadecimal |
| JsonUnicode.NostrForms | nostr/nostr.c:562-583 | the seven escapes of NIP-01, and nothing else changed |
| CText.HexTable | claude/client/claude.c:131-137 | sixteen digits of either case have their values, no other character has one |
| CText.LowerTable | nostr/nostr.c:969-979 | the 26 capital letters become small ones, all else stays |
| JsonScan.FindKeyPtr | claude/client/claude.c:164-183 | the text after the colon of the first match in key position, or nothing |
| JsonScan.GetJsonString | claude/client/claude.c:186-210 | the decoded string value, as a C string, or an empty buffer and failure |
| JsonScan.GetRawSpan | claude/client/claude.c:214-247 | the balanced array or object that is the value, or failure |
| JsonScan.NextObjPtr | common/rtc_common.c:232-274 | the copy of the next object cut to the buffer, and where to go on |
| JsonValue.BalanceValue | common/rtc_common.c:250-272 | a printed value leaves the scan's depth unchanged, whatever its strings contain |
| JsonValue.BalanceWhole | claude/client/claude.c:228-246 | the scan of a printed array or object stops exactly at its end |
| JsonValue.NextPrinted | mastodon/mastodon.c:268-310 | the next-object scan copies exactly the printed object and returns the text after it |
| JsonValue.ArrayWalk | common/rtc_common.c:232-274 | walking a printed array yields every object's text in order, cut only by the buffer, then stops |
| JsonLookup.QuietValue | claude/client/claude.c:160-183 | a string in value position never produces a false key match |
| JsonLookup.QuietOtherKey | claude/client/claude.c:160-183 | a key that does not end in an escaped quote and the wanted key is skipped, whole and in part |
| JsonLookup.MatchFound | claude/client/claude.c:164-183 | a key that does end so stops the search |
| JsonLookup.SearchValue | claude/client/claude.c:164-183 | on every printed value the search finds the first matching member in printing order, at its place, or nothing |
| JsonLookup.LookupString | claude/client/claude.c:186-210 | the first matching value, decoded into the buffer, if it is a string; otherwise nothing |
| JsonLookup.LookupFits | claude/client/claude.c:186-210 | a string with room in the buffer arrives whole |
| JsonLookup.LookupSpan | claude/client/claude.c:214-247 | exactly the printed text of the first matching array or object; nothing for other values |
| JsonLookup.FieldIsFirst | mastodon/mastodon.c:177-196 | the lookup is right about a field when nothing before it matches at any depth |
| JsonLookup.EarlierNestedKeyWins | mastodon/mastodon.c:177-196 | otherwise the first nested match is returned |
| JsonLookup.SameValueIff | mastodon/mastodon.c:177-196 | the value of a matching member is returned exactly when nothing before it matches at any depth, or the first earlier match has the same value |
| JsonLookup.FoundIffFirst | mastodon/mastodon.c:177-196 | the search stops at a matching member, at its place in the text, exactly when nothing before it matches at any depth |
| JsonLookup.TopLevelMissed | mastodon/mastodon.c:177-223 | a printed document on which a nested field is read instead of the top-level one |
| JsonLookup.EscapedKeyMatched | mastodon/mastodon.c:177-223 | a printed document on which the search stops inside another key |
| JsonLookup.FirstMatchWins | mastodon/mastodon.c:177-196 | the first member that matches or holds a match decides the answer |
| JsonUnique.PrintIsInjective | nostr/nostr.c:587-599 | values with the same printed text are equal |
| ClaudeCollector.CollectPrinted | claude/client/claude.c:258-300 | for every array of objects that fit, scanning the text agrees with reading the values |
| ClaudeCollector.CollectsBlocks | claude/client/claude.c:258-300 | the first tool calls in order with id, name and exact input, and the decoded texts joined, whole exactly when they leave two characters free; blocks of other types count for nothing |
| ClaudeCollector.HandleBlock | claude/client/claude.c:267-299 | one block is appended, recorded or skipped as the specification says |
| ClaudeCollector.CollectTextAndTools | claude/client/claude.c:258-300 | the buffers hold what collecting the text yields |
| ClaudeCollector.TextIsWholeOrLeft | claude/client/claude.c:267-280 | a text block is added whole when it leaves room for the terminator, and left out otherwise |
| ClaudeHistory.JoinedIsLongest | claude/client/claude.c:413-438 | the joined suffix fits with its terminator, and one entry more would fail the size test |
| ClaudeHistory.InnerBreakUnreachable | claude/client/claude.c:424-436 | once the size test passed, the overflow test of the copy loop never fires |
| ClaudeHistory.FinalSuffix | claude/client/claude.c:413-438 | where the search loop stops, the copy loop writes the longest passing suffix, or nothing |
| ClaudeHistory.StoredNext | claude/client/claude.c:393-409 | one addition appends, dropping the two oldest when full |
| ClaudeHistory.BoundedSuffix | claude/client/claude.c:393-409 | after any additions: a suffix of the log, at most 48 entries, an even number evicted, none evicted early |
| ClaudeHistory.History.Add | claude/client/claude.c:393-409 | the array holds the stored suffix of the longer log |
| ClaudeHistory.History.JoinInto | claude/client/claude.c:413-438 | the buffer holds the comma-join of the longest suffix that passes the size test |
| MastodonEnvelope.ReadField | mastodon/mastodon.c:199-223 | every string field of a flat object is read back decoded |
| MastodonEnvelope.EnvelopeRoundTrip | mastodon/mastodon.c:504-532 | host, path, token and body are read back out of the envelope as they went in |
| MastodonEnvelope.StatusReadsBack | mastodon/mastodon.c:488-499 | the status text is read back out of the status body |
| MastodonEnvelope.DoubleEscape | mastodon/mastodon.c:488-532 | the text survives both escapings: body out of envelope, status out of body |
| MastodonEnvelope.BuildStatusPostBody | mastodon/mastodon.c:488-499 | the printed status object, or -1 when it does not fit |
| MastodonEnvelope.BuildProxyEnvelope | mastodon/mastodon.c:504-532 | the printed envelope, or -1 when a field or the whole does not fit |
| MastodonStatus.TrimCutsBlanks | mastodon/mastodon.c:410-412 | all trailing blanks are cut, and nothing else |
| MastodonStatus.StripIsShow | mastodon/mastodon.c:353-414 | stripping a document of glyphs, entities and tags shows it, cut only by the buffer, without trailing blanks |
| MastodonStatus.EscapedTextComesBack | mastodon/mastodon.c:353-414 | plain text, escaped as HTML, comes back without its trailing blanks |
| MastodonStatus.EntryIsShown | mastodon/mastodon.c:541-575 | an entry shows author and text of the boosted status for a boost, of the status itself otherwise |
| MastodonStatus.HtmlStripInto | mastodon/mastodon.c:353-414 | the buffer holds the stripped and trimmed text |
| MastodonStatus.ParseStatusInto | mastodon/mastodon.c:541-575 | the fields as the specification reads them |
| MastodonLines.LineTagIff | mastodon/mastodon.c:366-386 | exactly `br`, `br/`, `/p` and `/blockquote`, in letters of either case, break a line; `br /` does not |
| MastodonLines.TagShows | mastodon/mastodon.c:382-391 | a breaking tag adds one line feed unless the line is already ended; any other tag adds nothing |
| MastodonLines.GlyphShows | mastodon/mastodon.c:394-409 | a character, however it is written, shows itself |
| MastodonLines.ParagraphsAreLines | mastodon/mastodon.c:353-414 | a status of paragraphs is shown with each on a line of its own |
| MastodonLines.EntityShows | mastodon/mastodon.c:337-405 | each of the seven named entities shows its character |
| MastodonLines.AmpersandStays | mastodon/mastodon.c:394-408 | an ampersand before anything else stays |
| NostrEvent.TagIsRead | nostr/nostr.c:534-553 | the word EVENT of an event message is read back |
| NostrEvent.ExtractedIffPlainName | nostr/nostr.c:502-530 | the copied object is the event's text exactly when the subscription name holds no opening brace |
| NostrEvent.EventIsExtracted | nostr/nostr.c:502-530 | the copied object is the event's text, cut only by the buffer, whatever its strings contain |
| NostrEvent.ContentIsShown | nostr/nostr.c:1198-1241 | the decoded content of the event is what is shown |
| NostrEvent.SerializationIsInjective | nostr/nostr.c:587-599 | events that differ in key, time, kind, content or any tag have different serializations |
| NostrEvent.ExtractFirstObject | nostr/nostr.c:502-530 | no object, an unfinished one or a whole one, each with its copy |
| NostrEvent.FirstArrayString | nostr/nostr.c:534-553 | the leading string of an array, or nothing |
| NostrEvent.EscapeContent | nostr/nostr.c:562-583 | the escaped content, or -1 exactly when fewer than three characters were left before some character |
| NostrEvent.BuildSerialization | nostr/nostr.c:587-599 | the NIP-01 array, or nothing when content or whole does not fit |
| NostrEvent.EventId | nostr/nostr.c:602-612 | the hexadecimal SHA-256 digest of the serialization |
| NostrMessages.SerializationIsPrinted | nostr/nostr.c:587-599 | the hashed text is the compact JSON array of zero, key, time, kind, tags and escaped content |
| Numbers.ValueOfPrint | mastodon/mastodon.c:599-620 | reading a printed number gives the number |
| Numbers.StrToUlReads | mastodon/mastodon.c:599-620 | a digit string below 2^32 is read to its value, up to the first character that is no digit |
| Numbers.StrToUlPtr | mastodon/mastodon.c:599-620 | value modulo 2^32 and end pointer |
| Numbers.PrintedDigits | mastodon/mastodon.c:599-620 | printed numbers digit by digit, in decimal or lower-case hexadecimal |
| Numbers.ValueOfDigit | mastodon/mastodon.c:599-620 | one more digit of either case counts for itself, the earlier ones ten or sixteen times |
| Numbers.StrToUlWraps | mastodon/mastodon.c:599-620 | after blanks and a hexadecimal prefix, a digit string of any length is read modulo 2^32, up to the first other character |
| Dechunk.SizeLine | mastodon/mastodon.c:774-784 | a size line is read to its value whatever extension follows |
| Dechunk.ChunkStep | mastodon/mastodon.c:774-791 | one chunk on the wire is one step of the decoder |
| Dechunk.DecodeWire | claude/client/claude.c:832-849 | every list of chunks with a last chunk decodes to the joined data, and the decoder stays in the buffer |
| Dechunk.PrintedSizeIsValid | mastodon/mastodon.c:599-620 | a size printed in hexadecimal makes a valid chunk |
| Dechunk.DechunkInPlace | mastodon/mastodon.c:774-791 | the buffer ends as the decoded text and a NUL; the write cursor never passes the read cursor and unread text is untouched |
| GeminiPath.StackHasNames | gemini/gemini.c:343-364 | for every path at most 48 names, none empty, ".", ".." or with a slash |
| GeminiPath.StackOfRender | gemini/gemini.c:334-378 | printing a stack and reading it back is the identity |
| GeminiPath.NormalizedPath | gemini/gemini.c:334-378 | the result is rooted and holds the same names |
| GeminiPath.NormalizeIdempotent | gemini/gemini.c:334-378 | normalising twice is normalising once |
| GeminiPath.WalkIsFold | gemini/gemini.c:347-364 | within the limits the walk is the plain fold of the dot-segment rule |
| GeminiPath.MergeIsFold | gemini/gemini.c:382-399 | a merged path is the base directory followed by the reference, segment by segment |
| GeminiPath.MergeIsPlainFold | gemini/gemini.c:334-399 | within the limits a merged path is the dot-segment rule over the base directory and then over the reference |
| GeminiPath.SameTargetIff | gemini/gemini.c:334-399 | two bases merge every non-empty reference into the same normal path exactly when their directories hold the same names |
| GeminiPath.DirNamesOfNormal | gemini/gemini.c:334-399 | the directory names of a normalised base: all its names after a trailing slash, else all but the last |
| GeminiPath.MergeNormalizedBase | gemini/gemini.c:334-399 | merging with a base or with its normal form gives the same normal path for every non-empty reference exactly when the last segment is empty, or a dot segment directly under the root, or a name that fits the stack |
| GeminiPath.DotBaseDiffers | gemini/gemini.c:382-399 | an example of a base whose normal form merges differently |
| GeminiPath.RenderFits | gemini/gemini.c:366-378 | with room for it the buffer holds the whole normalised path |
| GeminiPath.NormalizedLength | gemini/gemini.c:334-378 | normalising lengthens a path by at most the slashes of split segments and three |
| GeminiPath.NormalizePath | gemini/gemini.c:334-378 | the buffer holds the rendered stack, as far as it fits |
| GeminiPath.MergePath | gemini/gemini.c:382-399 | the buffer holds the merged path, as far as it fits |
| GeminiForms.SegmentIsWorkedOff | gemini/gemini.c:343-364 | behind plain names, ".." takes one off, "." and an empty segment none, and a name is added while there are fewer than 48, whatever follows |
| GeminiUrl.ParseOfBuild | gemini/gemini.c:134-212 | parsing what was built gives back host, port and path |
| GeminiUrl.HostIsPiece | gemini/gemini.c:134-170 | a parsed host is what the address after the scheme begins with |
| GeminiUrl.ParseRefusedIff | gemini/gemini.c:134-196 | an address is refused exactly for another scheme, a missing host or a port outside 1 to 65535 |
| GeminiUrl.ResolveAbsolute | gemini/gemini.c:411-435 | an absolute URL resolves to itself against every base exactly when its host has no '#' |
| GeminiUrl.NormalizedSegments | gemini/gemini.c:334-378 | the segments of a resolved path are exactly the stacked names |
| GeminiUrl.ResolveRelative | gemini/gemini.c:465-509 | the result is the normalised merge of base and reference followed by the reference's own query, when both fit |
| GeminiUrl.ResolvedByRule | gemini/gemini.c:465-509 | within the limits the names of the result are the dot-segment rule over base directory and reference, followed by the reference's query |
| GeminiUrl.SameAnswersIff | gemini/gemini.c:465-509 | two bases answer every path reference that has room alike exactly when their directories hold the same names |
| GeminiUrl.BaseMayBeNormalized | gemini/gemini.c:411-509 | a base and its normal form answer every path reference that has room alike exactly when the last segment is empty, or a dot segment directly under the root, or a name that fits the stack |
| GeminiUrl.QueryAnsweredIff | gemini/gemini.c:441-463 | an empty or query-only reference is answered alike exactly when the base path is already normal |
| GeminiUrl.RefusedIff | gemini/gemini.c:411-440 | the references refused: a Gemini URL with a bad address; else one with "://" before a fragment, or one that begins with "//" and goes on with a bad address; no others |
| GeminiUrl.QueryRefused | gemini/gemini.c:433-435 | a reference refused for its query alone |
| GeminiUrl.DecodeEncode | gemini/gemini.c:272-325 | decoding undoes percent encoding for every text |
| GeminiUrl.EncodeAlphabet | gemini/gemini.c:272-296 | encoded text holds unreserved characters and %XX only |
| GeminiUrl.UrlEncode | gemini/gemini.c:272-296 | the encoded text, or -1 exactly when it does not fit |
| GeminiUrl.UrlDecode | gemini/gemini.c:306-325 | the decoded text, or -1 exactly when it does not fit |
| GeminiUrl.GemParseUrl | gemini/gemini.c:134-196 | host, port and path as the specification parses them, or failure |
| GeminiUrl.GemBuildUrl | gemini/gemini.c:201-212 | the printed address, or -1 when it does not fit |
| GeminiUrl.GemResolveUrl | gemini/gemini.c:411-509 | the resolved address as the specification gives it |
| GeminiForms.QueryIsReplaced | gemini/gemini.c:441-463 | a query-only reference keeps the path before the base's query and puts its own query behind it; an empty one keeps the base's path and query |
| GeminiForms.QueryFits | gemini/gemini.c:441-463 | the same without any cut when there is room: an empty reference gives the base itself |
| GeminiForms.FragmentIsDropped | gemini/gemini.c:429-431 | what follows a `#` makes no difference to any reference |
| GeminiForms.SchemeIsAdded | gemini/gemini.c:437-441 | a reference of two slashes and an address is that address with the scheme put before it |
| GeminiForms.AbsoluteIsParsed | gemini/gemini.c:433-435 | a reference with a scheme is parsed on its own, whatever the base |
| GeminiForms.AddressIsRead | gemini/gemini.c:134-196 | host, path and query of every address without a port; the port is 1965, a missing path the root, the fragment dropped, the scheme in letters of either case |
| GeminiForms.PortIsRead | gemini/gemini.c:134-196 | the same with a port, accepted exactly from 1 to 65535 |
| GeminiForms.EscapeIsOctet | gemini/gemini.c:306-325 | a percent sign and two digits of either case stand for one octet |
| GeminiForms.NoEscape | gemini/gemini.c:306-325 | every other character, a percent sign without two digits included, stands for itself |
| Gemtext.RenderIsPerLine | gemini/gemini.c:544-646 | output and links are the per-line renderings up to the first that does not fit |
| Gemtext.RenderWhole | gemini/gemini.c:544-646 | when everything fits, everything is there |
| Gemtext.PreIsVerbatim | gemini/gemini.c:556-580 | from a fence to the next, the output is the lines as they are, and none is a link |
| Gemtext.BlockIsVerbatim | gemini/gemini.c:544-646 | in the rendered output, opening line, the lines between two fences verbatim and closing line follow one another |
| Gemtext.LinkNumbersAgree | gemini/gemini.c:582-606 | the k-th link line is printed as k, and entry k-1 of the table is its address |
| Gemtext.NextLine | gemini/gemini.c:517-526 | the line cut to the buffer, and the text after it |
| Gemtext.RenderGemtext | gemini/gemini.c:544-646 | the buffer and the table hold the rendering |
| GemtextLines.LinesAreCut | gemini/gemini.c:517-526 | a text is cut at its line ends, with or without a carriage return; a last line needs none |
| GemtextLines.Heading | gemini/gemini.c:608-624 | headings of one, two, and three or more marks |
| GemtextLines.Item | gemini/gemini.c:625-631 | a star and a blank, or a star alone, make a list item |
| GemtextLines.Quote | gemini/gemini.c:633-639 | a quoted line without the blanks after its mark |
| GemtextLines.PlainLine | gemini/gemini.c:556-642 | every line that begins with none of the marks is shown as it is |
| GemtextLines.Fence | gemini/gemini.c:559-574 | a fence opens a block under its own title, and closes it |
| GemtextLines.Verbatim | gemini/gemini.c:576-580 | inside a block every line but a fence is shown as it is |
| GemtextLines.Link | gemini/gemini.c:582-606 | a link shows its number and its label, or its address without a label; a link to nothing shows nothing |
| McpLines.LinesOfJoined | mcp/mcp.c:618-658 | cutting joined lines gives the lines back |
| McpLines.JoinedOfLines | mcp/mcp.c:618-658 | cutting loses and moves no character |
| McpLines.Stdio.ReadLine | mcp/mcp.c:618-638 | one line without carriage returns, cut to the buffer; -1 only when the input was at its end |
| McpServer.RawTokenLacks | mcp/mcp.c:235-261 | the id holds no character that the request does not |
| McpServer.ReplyIsOneLine | mcp/mcp.c:543-608 | no reply exactly for notifications and id-less unknown methods; every reply but `initialize` is one line, and that one exactly when the version is |
| McpServer.OneReplyALine | mcp/mcp.c:640-658 | one reply for each line that is neither blank nor silent, in order; cutting the output at line feeds gives them back exactly when no decoded version holds a line feed |
| McpServer.RequestsArrive | mcp/mcp.c:618-658 | requests written one a line are the requests handled, in order |
| McpServer.NeverTruncated | mcp/mcp.c:433-457 | no reply is ever cut by its buffer |
| McpServer.GetRawToken | mcp/mcp.c:235-261 | the raw token, quotes included, as far as the buffer reaches |
| McpServer.BuildResponse | mcp/mcp.c:433-441 | the envelope with the id echoed, or null |
| McpServer.BuildToolResult | mcp/mcp.c:460-476 | the content object with the escaped output, or the fixed notice |
| McpServer.DispatchToolCall | mcp/mcp.c:481-535 | the result of the call that the parameters stand for |
| McpServer.HandleRequest | mcp/mcp.c:543-608 | whether a reply is sent, and its text |
| McpServer.RunServer | mcp/mcp.c:640-658 | serves the whole input: the output is the replies to its lines, each with a line feed |
| McpServer.ReturnsAreDropped | mcp/mcp.c:618-638 | requests that end in CR LF are answered as those that end in LF |
| McpExchange.TokenEchoes | mcp/mcp.c:235-261 | a scalar id is captured as printed exactly when it fits; a longer string loses its closing quote |
| McpExchange.NoToken | mcp/mcp.c:235-261 | a request without an id yields no token |
| McpExchange.RespondIsPrinted | mcp/mcp.c:433-441 | the envelope is the printed reply object |
| McpExchange.ResultIsPrinted | mcp/mcp.c:460-476 | the tool result is the printed content object |
| McpExchange.ReplyReads | mcp/mcp.c:433-476 | out of a tool reply a client reads its id and the tool's output when the escaping fits, and the notice otherwise |
| McpExchange.CallOfPrinted | mcp/mcp.c:481-531 | printed parameters stand for the named tool with its decoded arguments |
| McpExchange.ToolsCallAnswered | mcp/mcp.c:481-608 | a printed tools/call request runs the tool once, and the client reads back its id and the output |
| McpExchange.EscapeLength | mcp/mcp.c:66-92 | escaping adds one for each doubled character and five for each rare control character |
| McpExchange.OutputFitsIff | mcp/mcp.c:460-470 | output is encoded exactly when its length and these additions, without the last character, leave eight places in the buffer |
| McpExchange.OrdinaryOutputFits | mcp/mcp.c:466-470 | so output under the limit without rare control characters always fits |
| McpExchange.FallbackIsReachable | mcp/mcp.c:466-470 | an output under the limit whose escaping does not fit |
| McpInitialize.InitializedIsPrinted | mcp/mcp.c:571-582 | the result of an `initialize` reply is the printed object, its version as it came |
| McpInitialize.InitializeIsReplyIff | mcp/mcp.c:571-583 | the answer to `initialize` is a reply object exactly when the decoded version is a string body |
| McpInitialize.InitializeReads | mcp/mcp.c:571-583 | out of such a reply a client reads its id and the version decoded once more; a version without backslash comes back as it is |
| McpMethods.ToolListIsPrinted | mcp/mcp.c:264-278 | the constant tool list is the printed list of the three tools with their arguments |
| McpMethods.PingAnswered | mcp/mcp.c:585-588 | `ping` is answered with the id and an empty object |
| McpMethods.ListAnswered | mcp/mcp.c:590-594 | `tools/list` is answered with the id and the three tools |
| McpMethods.UnknownAnswered | mcp/mcp.c:603-607 | any other method gets error -32601 if the request has an id, and nothing without one |
| McpMethods.NotificationIsSilent | mcp/mcp.c:567-569 | a notification gets no answer, with an id or without |
| McpMethods.CallAnswered | mcp/mcp.c:460-601 | a tool call is answered member by member: the escaped output and `isError` true exactly when the tool failed |
| McpMethods.BadCall | mcp/mcp.c:500-532 | a missing argument or an unknown tool gives its fixed text and counts as failed |
| McpMethods.GoodCall | mcp/mcp.c:500-532 | what a tool puts into its buffer is the outcome |
| McpMethods.InitializeAnswered | mcp/mcp.c:571-583 | `initialize` is answered with the client's version, or with 2024-11-05 if it names none |
| RateLimit.Limiter.RateOk | claude/proxy/claude_amiga_proxy.py:79-87 | verdict and table after one call |
| RateLimit.VerdictIsReference | claude/proxy/claude_amiga_proxy.py:79-87 | over runs with a clock that does not step back, verdicts are those of a limiter that forgets nothing |
| RateLimit.AcceptedAreGranted | claude/proxy/claude_amiga_proxy.py:79-87 | the accepted calls of an address are those the reference grants |
| RateLimit.AtMostThirty | claude/proxy/claude_amiga_proxy.py:79-87 | no 60-second window holds more than 30 accepted calls of one address |
| RateLimit.RefusedWhenFull | claude/proxy/claude_amiga_proxy.py:79-87 | a call is refused exactly when 30 accepted ones lie in the 60 seconds before it |
| RateLimit.AddressesAreIndependent | claude/proxy/claude_amiga_proxy.py:79-87 | only the calls of an address matter to it |
| RateLimit.ThirtyAMinute | claude/proxy/claude_amiga_proxy.py:79-87 | counted call by call: accepted exactly when fewer than 30 accepted calls of the address are less than 60 seconds old; no 60 seconds hold more than 30 |
| Translate.AnthropicToOpenAI | claude/proxy/claude_amiga_proxy.py:117-157 | the messages of all turns, in order |
| Translate.TranslateTurn | claude/proxy/claude_amiga_proxy.py:125-157 | a turn becomes its tool results, else its calls with text, else its text |
| Translate.OpenAIToAnthropic | claude/proxy/claude_amiga_proxy.py:173-197 | content blocks and stop reason of a reply |
| Translate.ExchangeSurvives | claude/proxy/claude_amiga_proxy.py:117-197 | a reply sent back as a turn recovers calls, ids, names and text; an argument value exactly when it could be parsed |
| Translate.AnswerIsFixed | claude/proxy/claude_amiga_proxy.py:117-197 | every answer is a fixed point of translating back and forth |
| Translate.StopMeansTools | claude/proxy/claude_amiga_proxy.py:173-197 | the stop reason is tool_use exactly when a tool block is present |
| Translate.EachResultOnce | claude/proxy/claude_amiga_proxy.py:117-157 | over a conversation, each tool_result becomes exactly one tool message with its id and text, in order, and nothing else does |
| Translate.TurnKeeps | claude/proxy/claude_amiga_proxy.py:131-160 | a turn keeps its results always, its calls exactly when it has no results or no calls, its text exactly when it has no results or no text |
| Translate.ResultsAlone | claude/proxy/claude_amiga_proxy.py:153-160 | a turn with results is those results, whatever stands beside them |
| Translate.PlainTurns | claude/proxy/claude_amiga_proxy.py:125-130 | turns of plain words go through one by one with role and text |
| Translate.TextTurn | claude/proxy/claude_amiga_proxy.py:131-160 | text blocks become one message of the turn's own role |
| Translate.CallTurn | claude/proxy/claude_amiga_proxy.py:131-160 | texts and tool calls become one message with the texts, if any, and each call's id, name and input |
| Translate.ResultTurn | claude/proxy/claude_amiga_proxy.py:131-155 | tool results become one message each with the call's id and the text |
| Translate.PartsAreJoined | claude/proxy/claude_amiga_proxy.py:141-152 | a result in parts is the texts of its dictionaries, joined |
| Translate.AbsentFields | claude/proxy/claude_amiga_proxy.py:131-152 | absent fields count as empty texts and the empty input; other blocks are passed over |
| Translate.AnswerIsReply | claude/proxy/claude_amiga_proxy.py:173-197 | content and stop reason of the answer to every reply with a message, field by field |
| Translate.EmptyReply | claude/proxy/claude_amiga_proxy.py:173-197 | a reply without a choice or a message is one empty text |
| Boing.DigitFits | boing/boing.c:26-39 | no intermediate value leaves 32 bits when the argument is below 2^30 |
| Boing.Isqrt | boing/boing.c:26-39 | the integer square root; zero for negative arguments |
| Boing.RootIsLargest | boing/boing.c:26-39 | the root is the largest number whose square does not exceed the argument |
| Boing.HalfWidthIsLargest | boing/boing.c:42-54 | the half width of a scan line is the largest distance inside the ellipse |
| Boing.ProductsFit | boing/boing.c:42-54 | the products under the root stay inside 32 bits for ellipses up to 2^30 |
| Boing.ShadowFits | boing/boing.c:99-103 | the demo's shadow, radii 60 and 16, stays inside 32 bits |
| Boing.FillEllipse | boing/boing.c:42-54 | one span for each scan line, each exact |
| Boing.EllipseIsExact | boing/boing.c:42-54 | a pixel is drawn exactly when it lies inside the ellipse |
| Boing.SphereDepth | boing/boing.c:106-112 | the largest depth on or under the sphere, or nothing outside the disc |

## Left out

- WsFrame.ParseFrame: takes the length as a mathematical integer; a 32-bit `long` turns lengths from 2^31 on negative, which is not modelled.
- WsReader.WsConn.AwaitHeader: a header that ends within the last bytes of the window may be refused or accepted depending on how reads fall; nothing is promised for it.
- NostrClient.RunSubscribe: the HTTP request of the handshake, failing writes and the interrupt key are not modelled.
- Dechunk.DechunkInPlace: requires that every announced chunk ends inside the buffer, which holds for every well-formed body (`DecodeWire`); the C code trusts the announced size.
- MastodonEnvelope.EnvelopeRoundTrip: the method name is inserted unescaped by the code, so it must be a string body already.
- MastodonEnvelope.BuildProxyEnvelope: `sprintf` writes before the length is compared; a text that does not fit is modelled as -1 with unspecified buffer contents.
- NostrEvent.BuildSerialization: as above for `sprintf`.
- GeminiUrl.GemBuildUrl: as above for `sprintf`.
- GeminiUrl.ParseOfBuild: paths start with a slash, as `gem_parse_url` documents; other paths may or may not survive.
- ClaudeCollector.CollectsBlocks: single blocks that exceed a buffer of the client are cut by it; only `CollectPrinted` speaks about them.
- Translate.AnthropicToOpenAI: only the messages; model name, token limits, tool list and usage figures are copied fields. JSON null in place of an absent field is not distinguished, and values of the wrong type, which raise an exception, are not modelled.
- RateLimit.VerdictIsReference: calls are sequential and the clock never steps back; races between proxy threads are not modelled.
- Boing.FillEllipse: the product under the root is a mathematical integer; `ProductsFit` says when 32 bits hold it, and the demo's radii are within that.
- GeminiForms.AddressIsRead: hosts and paths that fit their buffers, as for the other forms; longer ones are cut, and `GemParseUrl` says how.
- Indented JSON: the printer puts white space after commas and around colons, not inside brackets.
- McpServer.HandleRequest: tool bodies are an arbitrary function of the call and of how many came before; files, shell commands and prompts are outside.
- Signed characters: octets above 127 are positive here; the code only compares them with ASCII characters or casts them to unsigned first.
- Shared state: the static buffers of the C programs are local here; every function writes its buffer before it reads it.
- Sockets, AmiSSL, DNS, HTTP request headers, argument parsing, printing, Ctrl-C, memory exhaustion, random masks: input and output or foreign calls.
- The remaining builders of the Claude client (`build_user_text_message`, `build_tool_result`, `build_request`) and the Gemini response header: formats of the kind proved for Mastodon and MCP.
- The Schnorr signature (not implemented in the repository), the other proxies, the mock relay, and the vendored headers.

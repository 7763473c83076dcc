# tc-eqp-socket-sim in Dafny

tc-eqp-socket-sim simulates many pieces of manufacturing equipment (EQPs).
Each EQP talks a line- or frame-oriented text protocol to a tester (the TC).
Each simulated connection goes through three stages:

- It accepts the `CMD=INITIALIZE` handshake and answers `CMD=INITIALIZE_REP EQPID=<id>`.
- It replays a scenario script. The script mixes waits for commands, sends, periodic emits, sleeps, labels, gotos, bounded loops and fault steps.
- It may corrupt its own outbound traffic: delay, drop, corrupt or fragment frames, each within a time window or for a number of frames.

This project models that per-connection engine, together with the small components around it. One module stands for each source component:

| module | file | what it stands for |
|---|---|---|
| `Wrappers` | wrappers.dfy | `Option`, `Result` and the Java exceptions the code throws, as values |
| `JavaText` | java_text.dfy | the `String`, `Integer.parseInt`, `Long.parseLong` and `Double.parseDouble` behaviour the code relies on, plus 32- and 64-bit wrap-around |
| `Config` | config.dfy | the configuration enums and the socket-type and profile records |
| `ByteBufSearch` | byte_buf_search.dfy | the multi-byte search `indexOf` over a buffer's readable bytes |
| `LineEndingFrameDecoder`, `StartEndFrameDecoder`, `RegexFrameDecoder`, `Patterns` | line_ending_decoder.dfy, start_end_decoder.dfy, regex_decoder.dfy, patterns.dfy | the three stateful frame decoders: delimiter, start/end bracket with resynchronisation, and regex with a 256 KiB ceiling; the regex is a matcher function with a stated contract |
| `SocketFrameEncoderFactory`, `HexByteSequenceParser` | socket_frame_encoder.dfy, hex_parser.dfy | outbound framing, and the hex configuration strings for the start and end markers |
| `FrameTokenParser` | frame_token_parser.dfy | `NAME=VALUE` tokens, `extractCmdUpper` and `parseToUpperKeyMap` |
| `ScenarioSteps`, `ScenarioMdParser` | scenario_steps.dfy, scenario_parser.dfy | the step union with its constructor checks, and the script compiler from a list of lines |
| `TemplateResolver` | template_resolver.dfy | `{eqpid}` and `{var.k}` placeholder substitution |
| `FaultStates`, `OutboundFrameSender` | fault_state.dfy, outbound_sender.dfy | the per-connection fault state, and the send path: delay, then drop, then corrupt, then fragment |
| `ScenarioRunner` | scenario_runner.dfy | the scenario state machine: `advance`, the step handlers, inbound frames, timers and channel events |
| `Handshake` | handshake.dfy | the INITIALIZE handshake state machine |
| `EqpRuntimes`, `HostPorts`, `RuntimeRegistry` | eqp_runtime.dfy, host_port.dfy, registry.dfy | EQP runtime normalisation, `host:port` parsing, configuration validation and the per-endpoint FIFO pool of PASSIVE EQP ids |
| `ConnectionLimits`, `ScenarioCompletion`, `StructuredLog` | connection_limit.dfy, completion_coordinator.dfy, structured_log.dfy | the admission counter, the exit condition that fires once, and the `key=value` log line builder |

The code is modelled in its own form:

- Pure parsers and helpers are functions with lemmas.
- Objects whose fields change become classes:
  - the decoders;
  - the fault state and its count policy;
  - the runner;
  - the handshake handler;
  - the registry;
  - the connection counter;
  - the completion coordinator.
- Their methods carry `modifies` clauses and state the whole new state.
- Every loop of the source is a method proved against a specification function:
  - decoding;
  - hex parsing;
  - payload building;
  - compiling and checking labels;
  - the registry's configuration passes;
  - log encoding;
  - the `while (true)` loop of `advance`.
- The properties the code promises are proved about those functions. Examples:
  - decoding round-trips;
  - resynchronisation;
  - the loop counter semantics;
  - the FIFO pool;
  - the once-only exit;
  - the log encoding read back.

## Model

| member | source | states |
|---|---|---|
| ByteBufSearch.MatchesAt | src/main/java/com/nori/tc/eqpsim/socket/framing/ByteBufSearch.java:41-47 | the inner loop answers true exactly when the whole sequence lies at index `i` |
| ByteBufSearch.IndexOf | src/main/java/com/nori/tc/eqpsim/socket/framing/ByteBufSearch.java:30-53 | an empty sequence or a negative or inverted range is IllegalArgumentException, in both directions; otherwise the loop returns `FirstIndexOf`, an occurrence lying wholly inside the range |
| ByteBufSearch.FirstIndexOfSpec | src/main/java/com/nori/tc/eqpsim/socket/framing/ByteBufSearch.java:38-52 | a non-negative result is an occurrence with none earlier in the range; -1 exactly when the range holds no occurrence |
| ByteBufSearch.FirstIndexOfUnique | src/main/java/com/nori/tc/eqpsim/socket/framing/ByteBufSearch.java:38-52 | an occurrence with none before it in the range is the result |
| ByteBufSearch.FirstIndexOfExtend | src/main/java/com/nori/tc/eqpsim/socket/framing/ByteBufSearch.java:38-52 | appending bytes keeps an occurrence already found; with none found, any new one ends past the old end |
| ByteBufSearch.FirstIndexOfSkip | src/main/java/com/nori/tc/eqpsim/socket/framing/ByteBufSearch.java:40-51 | starting the scan later gives the same result when the skipped positions hold no occurrence |
| Patterns.FindBrace | src/main/java/com/nori/tc/eqpsim/socket/scenario/runtime/ScenarioTemplateResolver.java:18 | `find()` for `\{([^}]+)\}`: the first position at or after `from` where the pattern matches, with no match earlier; none when no position matches |
| Patterns.BraceMatchShape | src/main/java/com/nori/tc/eqpsim/socket/scenario/runtime/ScenarioTemplateResolver.java:18 | a match is `{`, at least one character that is not `}`, then `}` |
| TemplateResolver.Replacement | src/main/java/com/nori/tc/eqpsim/socket/scenario/runtime/ScenarioTemplateResolver.java:29-44 | the trimmed, lower-cased key `eqpid` gives the EQP id; `var.k` gives the value of var `k` when it is set; any other placeholder is kept as `{raw}` |
| TemplateResolver.Resolve | src/main/java/com/nori/tc/eqpsim/socket/scenario/runtime/ScenarioTemplateResolver.java:22-23 | a null or empty template comes back unchanged; any other template gives text |
| TemplateResolver.ResolveTemplate | src/main/java/com/nori/tc/eqpsim/socket/scenario/runtime/ScenarioTemplateResolver.java:22-50 | `resolve` computes `Resolve` |
| TemplateResolver.ResolveText | src/main/java/com/nori/tc/eqpsim/socket/scenario/runtime/ScenarioTemplateResolver.java:25-49 | the find / appendReplacement / appendTail loop builds the text that `ResolveFrom` describes: text before each match copied, each match replaced, the tail copied |
| TemplateResolver.FoundStep | src/main/java/com/nori/tc/eqpsim/socket/scenario/runtime/ScenarioTemplateResolver.java:28-46 | from a scan position, the result is the text up to the next match, that match's replacement, then the rest resolved |
| TemplateResolver.NotFoundRest | src/main/java/com/nori/tc/eqpsim/socket/scenario/runtime/ScenarioTemplateResolver.java:48 | with no further match the rest of the template is copied unchanged |
| TemplateResolver.NoPlaceholderCopied | src/main/java/com/nori/tc/eqpsim/socket/scenario/runtime/ScenarioTemplateResolver.java:25-49 | text with no `{` comes back unchanged |
| TemplateResolver.UnknownKeptVerbatim | src/main/java/com/nori/tc/eqpsim/socket/scenario/runtime/ScenarioTemplateResolver.java:41-44 | a template whose placeholders are all unknown comes back unchanged |
| TemplateResolver.UnknownReplacement | src/main/java/com/nori/tc/eqpsim/socket/scenario/runtime/ScenarioTemplateResolver.java:41-44 | an unknown placeholder is replaced by itself, braces included |
| TemplateResolver.WholePlaceholder | src/main/java/com/nori/tc/eqpsim/socket/scenario/runtime/ScenarioTemplateResolver.java:28-48 | a template that is one placeholder resolves to that placeholder's replacement |
| TemplateResolver.EqpIdResolved | src/main/java/com/nori/tc/eqpsim/socket/scenario/runtime/ScenarioTemplateResolver.java:34-35 | a template that is exactly `{eqpid}`, in any case, resolves to the EQP id |
| LineEndingFrameDecoder.Delimiter | src/main/java/com/nori/tc/eqpsim/socket/framing/LineEndingFrameDecoder.java:27-31 | LF and CR are one byte, CRLF two, each ending in 0x0A or 0x0D |
| LineEndingFrameDecoder.LineEndingFrameDecoder.constructor | src/main/java/com/nori/tc/eqpsim/socket/framing/LineEndingFrameDecoder.java:25-32 | the decoder's delimiter is the one for the configured line ending |
| LineEndingFrameDecoder.LineEndingFrameDecoder.DecodeTurn | src/main/java/com/nori/tc/eqpsim/socket/framing/LineEndingFrameDecoder.java:37-57 | one pass of the loop: with fewer bytes than the delimiter or no delimiter it stops; otherwise it emits the bytes before the delimiter and moves the reader past the delimiter (`LineTurn`) |
| LineEndingFrameDecoder.LineEndingFrameDecoder.Decode | src/main/java/com/nori/tc/eqpsim/socket/framing/LineEndingFrameDecoder.java:35-60 | `decode` emits exactly the frames `LineFrames` lists and leaves the reader index where `LineFrames` ends |
| LineEndingFrameDecoder.LineFramesStep | src/main/java/com/nori/tc/eqpsim/socket/framing/LineEndingFrameDecoder.java:45-57 | at the first delimiter the frame is the bytes before it, and decoding continues after the delimiter |
| LineEndingFrameDecoder.LineFramesStop | src/main/java/com/nori/tc/eqpsim/socket/framing/LineEndingFrameDecoder.java:41-49 | too few bytes or no delimiter: nothing is emitted and nothing is consumed |
| LineEndingFrameDecoder.LineFramesIncomplete | src/main/java/com/nori/tc/eqpsim/socket/framing/LineEndingFrameDecoder.java:41-49 | nothing is emitted exactly when nothing is consumed, exactly when the readable bytes hold no delimiter |
| LineEndingFrameDecoder.LineFramesTail | src/main/java/com/nori/tc/eqpsim/socket/framing/LineEndingFrameDecoder.java:36-59 | after decoding, the bytes left unread hold no delimiter |
| LineEndingFrameDecoder.LineFramesConsumed | src/main/java/com/nori/tc/eqpsim/socket/framing/LineEndingFrameDecoder.java:51-57 | the consumed bytes are exactly the emitted frames, each followed by the delimiter |
| LineEndingFrameDecoder.LineFramesDelimiterFree | src/main/java/com/nori/tc/eqpsim/socket/framing/LineEndingFrameDecoder.java:15 | no emitted frame contains the delimiter |
| LineEndingFrameDecoder.LineFramesSplit | src/main/java/com/nori/tc/eqpsim/socket/framing/LineEndingFrameDecoder.java:36-59 | bytes arriving in two reads decode to the same frames as the bytes arriving at once |
| LineEndingFrameDecoder.LineRoundTrip | src/main/java/com/nori/tc/eqpsim/socket/framing/LineEndingFrameDecoder.java:15-19 | a payload without the delimiter, followed by the delimiter, decodes to exactly that payload and consumes everything |
| LineEndingFrameDecoder.SingleByteRoundTrip | src/main/java/com/nori/tc/eqpsim/socket/framing/LineEndingFrameDecoder.java:27-31 | for LF and CR, a payload without that byte plus the byte decodes back to the payload |
| LineEndingFrameDecoder.LfTwoFramesInOneBuffer | src/test/java/com/nori/tc/eqpsim/socket/framing/LineEndingFrameDecoderTests.java:20-32 | `A\nB\n` decodes to `A` and `B` |
| LineEndingFrameDecoder.CrlfSplitAcrossBuffers | src/test/java/com/nori/tc/eqpsim/socket/framing/LineEndingFrameDecoderTests.java:41-53 | `HELLO\r` gives nothing; once `\n` arrives the frame is `HELLO` |
| StartEndFrameDecoder.StartEndFrameDecoder.Init | src/main/java/com/nori/tc/eqpsim/socket/framing/StartEndFrameDecoder.java:25-32 | a decoder built from non-empty start and end markers holds those markers |
| StartEndFrameDecoder.StartEndFrameDecoder.Create | src/main/java/com/nori/tc/eqpsim/socket/framing/StartEndFrameDecoder.java:25-32 | an empty start or end marker is IllegalArgumentException, in both directions; otherwise a fresh decoder with those markers |
| StartEndFrameDecoder.Resync | src/main/java/com/nori/tc/eqpsim/socket/framing/StartEndFrameDecoder.java:46-53 | with no start marker, only the last `min(startLen - 1, readable)` bytes stay readable |
| StartEndFrameDecoder.StartEndFrameDecoder.DecodeTurn | src/main/java/com/nori/tc/eqpsim/socket/framing/StartEndFrameDecoder.java:37-88 | one pass of the loop, as `StartEndTurn` describes it: resynchronise, skip garbage before the start, wait for the end, or emit the payload between the markers |
| StartEndFrameDecoder.StartEndFrameDecoder.Decode | src/main/java/com/nori/tc/eqpsim/socket/framing/StartEndFrameDecoder.java:35-91 | `decode` emits exactly the frames `StartEndFrames` lists and leaves the reader index where it ends |
| StartEndFrameDecoder.StartEndResyncStep | src/main/java/com/nori/tc/eqpsim/socket/framing/StartEndFrameDecoder.java:45-53 | with no start marker, nothing is emitted and the reader moves to the resynchronisation point |
| StartEndFrameDecoder.StartEndWaitStep | src/main/java/com/nori/tc/eqpsim/socket/framing/StartEndFrameDecoder.java:57-75 | with a start but no end after it, garbage before the start is dropped and nothing is emitted |
| StartEndFrameDecoder.StartEndFrameStep | src/main/java/com/nori/tc/eqpsim/socket/framing/StartEndFrameDecoder.java:68-88 | with a start and an end after it, the frame is the payload between them and decoding continues after the end |
| StartEndFrameDecoder.StartEndNoStart | src/main/java/com/nori/tc/eqpsim/socket/framing/StartEndFrameDecoder.java:46-53 | readable bytes without a start marker emit nothing and keep `min(startLen - 1, readable)` bytes |
| StartEndFrameDecoder.StartEndAwaitEnd | src/main/java/com/nori/tc/eqpsim/socket/framing/StartEndFrameDecoder.java:57-75 | a first start with no end after it: nothing is emitted and the reader rests on the start |
| StartEndFrameDecoder.StartEndOneFrame | src/main/java/com/nori/tc/eqpsim/socket/framing/StartEndFrameDecoder.java:45-88 | the first start and the first end after it delimit the first frame, whatever precedes the start |
| StartEndFrameDecoder.StartEndSkip | src/main/java/com/nori/tc/eqpsim/socket/framing/StartEndFrameDecoder.java:57-61 | discarding bytes that hold no start marker changes no frame |
| StartEndFrameDecoder.StartEndFramesEndFree | src/main/java/com/nori/tc/eqpsim/socket/framing/StartEndFrameDecoder.java:71-83 | no emitted payload contains the end marker |
| StartEndFrameDecoder.StartEndFramesSplit | src/main/java/com/nori/tc/eqpsim/socket/framing/StartEndFrameDecoder.java:35-91 | bytes arriving in two reads decode to the same frames as the bytes arriving at once |
| StartEndFrameDecoder.StartEndRoundTrip | src/main/java/com/nori/tc/eqpsim/socket/framing/StartEndFrameDecoder.java:68-88 | start + payload + end, with no end marker inside the payload, decodes to exactly that payload and consumes everything |
| StartEndFrameDecoder.GarbageThenTwoFrames | src/test/java/com/nori/tc/eqpsim/socket/framing/StartEndFrameDecoderTests.java:19-38 | `xx STX HI ETX STX OK ETX` decodes to `HI` and `OK` |
| StartEndFrameDecoder.FrameSplitAcrossBuffers | src/test/java/com/nori/tc/eqpsim/socket/framing/StartEndFrameDecoderTests.java:47-62 | `STX HEL` gives nothing; once `LO ETX` arrives the frame is `HELLO` |
| RegexFrameDecoder.ByteText | src/main/java/com/nori/tc/eqpsim/socket/framing/RegexFrameDecoder.java:72-73 | the text the pattern sees has one character per byte, with the byte's code |
| RegexFrameDecoder.RegexFrameDecoder.constructor | src/main/java/com/nori/tc/eqpsim/socket/framing/RegexFrameDecoder.java:41-44 | the decoder holds the configured matcher |
| RegexFrameDecoder.RegexFrameDecoder.DecodeTurn | src/main/java/com/nori/tc/eqpsim/socket/framing/RegexFrameDecoder.java:49-97 | one pass of the loop, as `RegexTurn` describes it: overflow discards everything, no match waits, an empty match throws, a match is emitted and consumed with the prefix before it |
| RegexFrameDecoder.RegexFrameDecoder.Decode | src/main/java/com/nori/tc/eqpsim/socket/framing/RegexFrameDecoder.java:47-100 | `decode` emits exactly the frames `RegexFrames` lists, leaves the reader where it ends and reports how it stopped |
| RegexFrameDecoder.RegexOverflow | src/main/java/com/nori/tc/eqpsim/socket/framing/RegexFrameDecoder.java:60-70 | more than 256 KiB readable: everything is discarded, nothing is emitted, the channel is closed |
| RegexFrameDecoder.RegexNoMatch | src/main/java/com/nori/tc/eqpsim/socket/framing/RegexFrameDecoder.java:75-79 | no match: nothing is emitted or consumed |
| RegexFrameDecoder.RegexEmptyMatch | src/main/java/com/nori/tc/eqpsim/socket/framing/RegexFrameDecoder.java:83-86 | an empty match stops decoding with IllegalStateException |
| RegexFrameDecoder.RegexOneFrame | src/main/java/com/nori/tc/eqpsim/socket/framing/RegexFrameDecoder.java:81-97 | a match gives the frame of the matched bytes, whose text is the matched text, and decoding continues after it |
| RegexFrameDecoder.RegexFramesNonEmpty | src/main/java/com/nori/tc/eqpsim/socket/framing/RegexFrameDecoder.java:83-92 | every emitted frame is non-empty |
| RegexFrameDecoder.RegexFramesBounded | src/main/java/com/nori/tc/eqpsim/socket/framing/RegexFrameDecoder.java:56-70 | while waiting, at most 256 KiB stay buffered; after an overflow nothing does |
| RegexFrameDecoder.TwoBracedFrames | src/test/java/com/nori/tc/eqpsim/socket/framing/RegexFrameDecoderTests.java:24-35 | with `\{[^}]+\}`, `{A}{B}` decodes to `{A}` and `{B}` |
| RegexFrameDecoder.BraceFrameAcrossBuffers | src/test/java/com/nori/tc/eqpsim/socket/framing/RegexFrameDecoderTests.java:44-55 | `{A` gives nothing; once `}` arrives the frame is `{A}` |
| HexByteSequenceParser.AllHex | src/main/java/com/nori/tc/eqpsim/socket/framing/HexByteSequenceParser.java:81-93 | `isAllHex` answers true exactly when every character is 0-9, a-f or A-F |
| HexByteSequenceParser.ParseOneByte | src/main/java/com/nori/tc/eqpsim/socket/framing/HexByteSequenceParser.java:95-98 | two hex digits give the byte 16 * high + low |
| HexByteSequenceParser.HexPairs | src/main/java/com/nori/tc/eqpsim/socket/framing/HexByteSequenceParser.java:52-57 | an even-length run of hex digits gives half as many bytes |
| HexByteSequenceParser.HexSequence | src/main/java/com/nori/tc/eqpsim/socket/framing/HexByteSequenceParser.java:27-79 | a successful parse is never empty: blank input and input with no bytes raise |
| HexByteSequenceParser.ParseToken | src/main/java/com/nori/tc/eqpsim/socket/framing/HexByteSequenceParser.java:42-67 | the bytes of one token: blank gives none, `0x` is stripped after lower-casing, a compact even run splits in pairs, one or two digits give one byte, anything else raises |
| HexByteSequenceParser.ParseDigits | src/main/java/com/nori/tc/eqpsim/socket/framing/HexByteSequenceParser.java:51-67 | the loop over pairs produces `HexPairs`, the single-token branch pads one digit with `0` |
| HexByteSequenceParser.ParseTokens | src/main/java/com/nori/tc/eqpsim/socket/framing/HexByteSequenceParser.java:40-68 | the token loop concatenates each token's bytes in order and stops at the first bad token |
| HexByteSequenceParser.ParseHexSequence | src/main/java/com/nori/tc/eqpsim/socket/framing/HexByteSequenceParser.java:27-79 | `parseHexSequence` returns or raises exactly what `HexSequence` says |
| HexByteSequenceParser.TokensBytesErrors | src/main/java/com/nori/tc/eqpsim/socket/framing/HexByteSequenceParser.java:61-63 | a bad token raises IllegalArgumentException, or NumberFormatException for the empty remainder of a bare `0x` |
| HexByteSequenceParser.HexSequenceErrors | src/main/java/com/nori/tc/eqpsim/socket/framing/HexByteSequenceParser.java:18-19 | every failure is IllegalArgumentException or its subclass NumberFormatException |
| HexByteSequenceParser.BlankRejected | src/main/java/com/nori/tc/eqpsim/socket/framing/HexByteSequenceParser.java:28-30 | input that trims to nothing raises IllegalArgumentException |
| HexByteSequenceParser.CommaIsSeparator | src/main/java/com/nori/tc/eqpsim/socket/framing/HexByteSequenceParser.java:33-35 | a comma parses exactly like a space |
| HexByteSequenceParser.HexPrefixStripped | src/main/java/com/nori/tc/eqpsim/socket/framing/HexByteSequenceParser.java:46-49 | `0x` or `0X` before hex digits changes no byte |
| HexByteSequenceParser.SingleToken | src/main/java/com/nori/tc/eqpsim/socket/framing/HexByteSequenceParser.java:38-72 | input of one token parses to that token's bytes |
| HexByteSequenceParser.TwoTokens | src/main/java/com/nori/tc/eqpsim/socket/framing/HexByteSequenceParser.java:33-68 | two tokens separated by a space or a comma parse to the first token's bytes followed by the second's |
| HexByteSequenceParser.HexTextDigits | src/main/java/com/nori/tc/eqpsim/socket/framing/HexByteSequenceParser.java:51-57 | the hex text of a byte string, split in pairs, gives back the byte string |
| HexByteSequenceParser.HexRoundTrip | src/main/java/com/nori/tc/eqpsim/socket/framing/HexByteSequenceParser.java:16 | any non-empty byte string written as compact hex parses back to itself |
| HexByteSequenceParser.ParsesSingleByte | src/test/java/com/nori/tc/eqpsim/socket/framing/HexByteSequenceParserTests.java:13-17 | `02` and `0x02` parse to the byte 0x02 |
| HexByteSequenceParser.ParsesSpacedOrCommaSeparated | src/test/java/com/nori/tc/eqpsim/socket/framing/HexByteSequenceParserTests.java:18-22 | `02 03` and `0x02,0x03` parse to 0x02 0x03 |
| HexByteSequenceParser.ParsesCompactEvenLength | src/test/java/com/nori/tc/eqpsim/socket/framing/HexByteSequenceParserTests.java:23-27 | `0203` parses to 0x02 0x03 |
| SocketFrameEncoderFactory.Utf8Char | src/main/java/com/nori/tc/eqpsim/socket/framing/SocketFrameEncoderFactory.java:36 | a character encodes to one to four UTF-8 bytes: one byte equal to its code exactly when it is ASCII, and only bytes of 0x80 or more otherwise |
| SocketFrameEncoderFactory.Utf8 | src/main/java/com/nori/tc/eqpsim/socket/framing/SocketFrameEncoderFactory.java:36 | the payload's UTF-8 bytes number between one and four per character |
| SocketFrameEncoderFactory.Utf8AsciiByte | src/main/java/com/nori/tc/eqpsim/socket/framing/SocketFrameEncoderFactory.java:36 | an ASCII byte occurs in the UTF-8 encoding exactly when its character occurs in the text |
| SocketFrameEncoderFactory.Utf8Ascii | src/main/java/com/nori/tc/eqpsim/socket/framing/SocketFrameEncoderFactory.java:36 | ASCII text encodes to its own character codes, one byte each |
| SocketFrameEncoderFactory.Bracket | src/main/java/com/nori/tc/eqpsim/socket/framing/SocketFrameEncoderFactory.java:59-66 | start + payload + end when both markers parse; otherwise the start marker's error first, then the end marker's |
| SocketFrameEncoderFactory.NullArgumentsRejected | src/main/java/com/nori/tc/eqpsim/socket/framing/SocketFrameEncoderFactory.java:31-34 | a missing socket type, kind or payload is NullPointerException |
| SocketFrameEncoderFactory.LineEndEncoding | src/main/java/com/nori/tc/eqpsim/socket/framing/SocketFrameEncoderFactory.java:39-51 | LINE_END without a line ending is NullPointerException; with one, the frame is the UTF-8 payload followed by the LF, CR or CRLF bytes |
| SocketFrameEncoderFactory.LineEndRoundTrip | src/main/java/com/nori/tc/eqpsim/socket/framing/SocketFrameEncoderFactory.java:17 | a LINE_END frame of a payload without CR or LF decodes, by the line-ending decoder, back to exactly the payload's bytes |
| SocketFrameEncoderFactory.NoLineBreakBytes | src/main/java/com/nori/tc/eqpsim/socket/framing/SocketFrameEncoderFactory.java:36 | text without CR and LF encodes to bytes without 0x0D and 0x0A |
| SocketFrameEncoderFactory.StartEndBlankMarker | src/main/java/com/nori/tc/eqpsim/socket/framing/SocketFrameEncoderFactory.java:53-58 | START_END with a missing or blank start or end marker is IllegalArgumentException |
| SocketFrameEncoderFactory.StartEndEncoding | src/main/java/com/nori/tc/eqpsim/socket/framing/SocketFrameEncoderFactory.java:59-66 | START_END with parseable markers frames the payload as start + UTF-8 payload + end |
| SocketFrameEncoderFactory.StartEndBadMarker | src/main/java/com/nori/tc/eqpsim/socket/framing/SocketFrameEncoderFactory.java:59-60 | an unparseable start marker raises its parse error, and otherwise an unparseable end marker raises its own |
| SocketFrameEncoderFactory.StartEndMarkerErrors | src/main/java/com/nori/tc/eqpsim/socket/framing/SocketFrameEncoderFactory.java:52-67 | START_END fails only with IllegalArgumentException or NumberFormatException |
| SocketFrameEncoderFactory.FramedMarkerErrors | src/main/java/com/nori/tc/eqpsim/socket/framing/SocketFrameEncoderFactory.java:52-67 | framing already-encoded bytes with START_END fails only with IllegalArgumentException or NumberFormatException |
| SocketFrameEncoderFactory.RegexEncoding | src/main/java/com/nori/tc/eqpsim/socket/framing/SocketFrameEncoderFactory.java:68-73 | REGEX sends the UTF-8 payload unwrapped |
| SocketFrameEncoderFactory.HelloWithLf | src/main/java/com/nori/tc/eqpsim/socket/framing/SocketFrameEncoderFactory.java:39-50 | `HELLO` with LF is the bytes 48 45 4C 4C 4F 0A |
| FrameTokenParser.Tokens | src/main/java/com/nori/tc/eqpsim/socket/protocol/FrameTokenParser.java:41-58 | the whitespace-separated tokens of a frame, none of them empty |
| FrameTokenParser.Verdicts | src/main/java/com/nori/tc/eqpsim/socket/protocol/FrameTokenParser.java:60-87 | each token's verdict on CMD, in frame order |
| FrameTokenParser.NextToken | src/main/java/com/nori/tc/eqpsim/socket/protocol/FrameTokenParser.java:44-58 | one pass of the scan skips whitespace and returns the next token together with the tokens after it, or reports that none remain |
| FrameTokenParser.ExtractCmdUpperScan | src/main/java/com/nori/tc/eqpsim/socket/protocol/FrameTokenParser.java:35-91 | the scan returns exactly `ExtractCmdUpper`: null for a null or blank frame, otherwise the upper-cased value of the first token named CMD in any case with a non-empty value; an empty CMD value ends the scan with null |
| FrameTokenParser.FirstCmdWins | src/main/java/com/nori/tc/eqpsim/socket/protocol/FrameTokenParser.java:62-87 | the first token that decides wins, whatever follows it |
| FrameTokenParser.FirstCmdAllSkipped | src/main/java/com/nori/tc/eqpsim/socket/protocol/FrameTokenParser.java:90 | when no token decides, the result is null |
| FrameTokenParser.FirstCmdFound | src/main/java/com/nori/tc/eqpsim/socket/protocol/FrameTokenParser.java:83-87 | a CMD value returned comes from some token of the frame |
| FrameTokenParser.TokenCmdUpper | src/main/java/com/nori/tc/eqpsim/socket/protocol/FrameTokenParser.java:80-87 | a token's CMD value is non-empty and already upper-case |
| FrameTokenParser.CmdFound | src/main/java/com/nori/tc/eqpsim/socket/protocol/FrameTokenParser.java:30-34 | a returned CMD is non-empty and upper-case |
| FrameTokenParser.UpperIdempotent | src/main/java/com/nori/tc/eqpsim/socket/protocol/FrameTokenParser.java:75 | upper-casing twice is upper-casing once |
| FrameTokenParser.Entries | src/main/java/com/nori/tc/eqpsim/socket/protocol/FrameTokenParser.java:127-142 | each token's key/value entry, in frame order |
| FrameTokenParser.ParseToUpperKeyMap | src/main/java/com/nori/tc/eqpsim/socket/protocol/FrameTokenParser.java:104-146 | the scan returns exactly `ToUpperKeyMap`: empty for a null or blank frame, otherwise every NAME=VALUE token put in order with the name upper-cased and the value trimmed |
| FrameTokenParser.ToUpperKeyMapKeys | src/main/java/com/nori/tc/eqpsim/socket/protocol/FrameTokenParser.java:97 | every key of the map is upper-case |
| FrameTokenParser.KeyUntouched | src/main/java/com/nori/tc/eqpsim/socket/protocol/FrameTokenParser.java:142 | a key no later token names keeps its earlier value |
| FrameTokenParser.LastWins | src/main/java/com/nori/tc/eqpsim/socket/protocol/FrameTokenParser.java:99 | for a repeated name, the map holds the value of its last token |
| FrameTokenParser.KeyHasEntry | src/main/java/com/nori/tc/eqpsim/socket/protocol/FrameTokenParser.java:127-142 | every key of the map comes from a token of the frame |
| FrameTokenParser.KeysKept | src/main/java/com/nori/tc/eqpsim/socket/protocol/FrameTokenParser.java:142 | putting entries never removes a key |
| FrameTokenParser.EntryKeyPresent | src/main/java/com/nori/tc/eqpsim/socket/protocol/FrameTokenParser.java:142 | every token with a name is a key of the map |
| FrameTokenParser.CmdTokenIsEntry | src/main/java/com/nori/tc/eqpsim/socket/protocol/FrameTokenParser.java:62-78 | a token that decides CMD is also an entry under the key CMD |
| FrameTokenParser.CmdImpliesKey | src/main/java/com/nori/tc/eqpsim/socket/protocol/FrameTokenParser.java:35-146 | when extractCmdUpper finds a CMD, the key map has the key CMD |
| FrameTokenParser.EntryOfNameValue | src/main/java/com/nori/tc/eqpsim/socket/protocol/FrameTokenParser.java:128-142 | `name=value` gives the entry (upper-cased name, trimmed value) |
| FrameTokenParser.CmdOfNameValue | src/main/java/com/nori/tc/eqpsim/socket/protocol/FrameTokenParser.java:62-87 | `name=value` decides CMD exactly when the name upper-cases to CMD |
| FrameTokenParser.TwoTokens | src/main/java/com/nori/tc/eqpsim/socket/protocol/FrameTokenParser.java:20-21 | two tokens separated by at least one space split into exactly those two tokens |
| FrameTokenParser.TwoTokenCmd | src/main/java/com/nori/tc/eqpsim/socket/protocol/FrameTokenParser.java:35-91 | in a two-token frame, the first token named CMD gives the command |
| FrameTokenParser.TwoTokenMap | src/main/java/com/nori/tc/eqpsim/socket/protocol/FrameTokenParser.java:104-146 | a two-token frame gives the map of both entries, the second overriding the first |
| FrameTokenParser.CaseInsensitiveCmd | src/test/java/com/nori/tc/eqpsim/socket/protocol/FrameTokenParserTests.java:20-24 | `cmd=initialize eqpid=test001` gives INITIALIZE |
| FrameTokenParser.NoCmdToken | src/test/java/com/nori/tc/eqpsim/socket/protocol/FrameTokenParserTests.java:26-30 | `EQPID=TEST001 LOTID=TESTLOT01` gives null |
| FrameTokenParser.PaddedCmd | src/test/java/com/nori/tc/eqpsim/socket/protocol/FrameTokenParserTests.java:32-36 | `  CMD=PING    EQPID=TEST001   ` gives PING |
| FrameTokenParser.LastDuplicateWins | src/test/java/com/nori/tc/eqpsim/socket/protocol/FrameTokenParserTests.java:48-53 | `CMD=A CMD=B` maps CMD to B |
| ScenarioSteps.NewCountFixed | src/main/java/com/nori/tc/eqpsim/socket/scenario/EmitStep.java:55-58 | a fixed emit count exists exactly when it is positive; otherwise IllegalArgumentException |
| ScenarioSteps.NewEmit | src/main/java/com/nori/tc/eqpsim/socket/scenario/EmitStep.java:19-28 | an EMIT step is built exactly when mode, count and template are present and the interval or window is positive; a missing mode is NullPointerException, checked before a non-positive interval (IllegalArgumentException) |
| ScenarioSteps.NewSleep | src/main/java/com/nori/tc/eqpsim/socket/scenario/SleepStep.java:10-13 | a SLEEP step exists exactly when its duration is not negative |
| ScenarioSteps.TrimmedLabel | src/main/java/com/nori/tc/eqpsim/socket/scenario/LabelStep.java:12-15 | a missing label is NullPointerException; a label is kept trimmed and exists exactly when it is not blank |
| ScenarioSteps.NewLabel | src/main/java/com/nori/tc/eqpsim/socket/scenario/LabelStep.java:12-15 | a LABEL step exists exactly when its label is present and not blank, and holds the trimmed label |
| ScenarioSteps.NewGoto | src/main/java/com/nori/tc/eqpsim/socket/scenario/GotoStep.java:12-15 | a GOTO step exists exactly when its label is present and not blank, and holds the trimmed label |
| ScenarioSteps.NewLoop | src/main/java/com/nori/tc/eqpsim/socket/scenario/LoopStep.java:13-18 | a LOOP step exists exactly when its count is positive and its label present and not blank; a non-positive count is IllegalArgumentException |
| ScenarioSteps.NewWaitCmd | src/main/java/com/nori/tc/eqpsim/socket/scenario/WaitCmdStep.java:15-18 | a WAIT step exists exactly when its expected command is present |
| ScenarioSteps.NewSend | src/main/java/com/nori/tc/eqpsim/socket/scenario/SendStep.java:12-14 | a SEND step exists exactly when its template is present |
| ScenarioSteps.NewFault | src/main/java/com/nori/tc/eqpsim/socket/scenario/FaultStep.java:48-78 | a FAULT step exists exactly when its type and scope are present, and keeps every optional parameter as given |
| ScenarioSteps.NewPlan | src/main/java/com/nori/tc/eqpsim/socket/scenario/ScenarioPlan.java:20-24 | a plan exists exactly when its source file, steps and label index are present |
| ScenarioMdParser.SkipSpaces | src/main/java/com/nori/tc/eqpsim/socket/scenario/ScenarioMdParser.java:368 | the end of a run of regex whitespace `\s*` |
| ScenarioMdParser.PreprocessLine | src/main/java/com/nori/tc/eqpsim/socket/scenario/ScenarioMdParser.java:363-370 | the preprocessed line is never longer than the raw line |
| ScenarioMdParser.PreprocessPlain | src/main/java/com/nori/tc/eqpsim/socket/scenario/ScenarioMdParser.java:363-370 | a line that does not start with `(` or a digit is only trimmed |
| ScenarioMdParser.PreprocessNumbered | src/main/java/com/nori/tc/eqpsim/socket/scenario/ScenarioMdParser.java:367-369 | a `1) ` or `(1) ` numbering prefix is removed with the spaces after it |
| ScenarioMdParser.ParseDurationToMs | src/main/java/com/nori/tc/eqpsim/socket/scenario/ScenarioMdParser.java:351-361 | a duration is a signed 64-bit millisecond count; any failure is NumberFormatException |
| ScenarioMdParser.DurationMillis | src/main/java/com/nori/tc/eqpsim/socket/scenario/ScenarioMdParser.java:353-355 | `<n>ms` is n milliseconds |
| ScenarioMdParser.DurationSeconds | src/main/java/com/nori/tc/eqpsim/socket/scenario/ScenarioMdParser.java:356-358 | `<n>s` is n * 1000 milliseconds with 64-bit wrap-around |
| ScenarioMdParser.DurationBareIsSeconds | src/main/java/com/nori/tc/eqpsim/socket/scenario/ScenarioMdParser.java:359-360 | a bare number counts seconds, like the same number with `s` |
| ScenarioMdParser.DurationBlank | src/main/java/com/nori/tc/eqpsim/socket/scenario/ScenarioMdParser.java:351-361 | a blank duration is NumberFormatException |
| ScenarioMdParser.ParseLoopCount | src/main/java/com/nori/tc/eqpsim/socket/scenario/ScenarioMdParser.java:232-245 | a loop count is a positive 32-bit int; every failure is IllegalArgumentException |
| ScenarioMdParser.HasCountKeyIff | src/main/java/com/nori/tc/eqpsim/socket/scenario/ScenarioMdParser.java:235 | the `count=` test is the lower-cased value starting with `count=` |
| ScenarioMdParser.LoopCountBare | src/main/java/com/nori/tc/eqpsim/socket/scenario/ScenarioMdParser.java:238-241 | a bare positive numeral is the loop count |
| ScenarioMdParser.LoopCountPrefixed | src/main/java/com/nori/tc/eqpsim/socket/scenario/ScenarioMdParser.java:235-241 | `count=<n>` in any case gives the loop count n |
| ScenarioMdParser.ParseFaultType | src/main/java/com/nori/tc/eqpsim/socket/scenario/ScenarioMdParser.java:250-254 | a parsed fault type's name is the trimmed, upper-cased text; anything else is IllegalArgumentException |
| ScenarioMdParser.FaultTypeRoundTrip | src/main/java/com/nori/tc/eqpsim/socket/scenario/ScenarioMdParser.java:251 | text that trims and upper-cases to a type's name parses to that type |
| ScenarioMdParser.BuildPayloadExcludingControlTokens | src/main/java/com/nori/tc/eqpsim/socket/scenario/ScenarioMdParser.java:333-349 | the loop keeps, in order and joined by single spaces, every token whose key is not every, window, count or jitter (`BuildPayload`) |
| ScenarioMdParser.KeptMembers | src/main/java/com/nori/tc/eqpsim/socket/scenario/ScenarioMdParser.java:337-344 | a token is kept exactly when it is in the body and is not a control token |
| ScenarioMdParser.KeptAll | src/main/java/com/nori/tc/eqpsim/socket/scenario/ScenarioMdParser.java:337-347 | a body without control tokens keeps every token |
| ScenarioMdParser.JoinSpacedWords | src/main/java/com/nori/tc/eqpsim/socket/scenario/ScenarioMdParser.java:345-346 | splitting the joined payload on whitespace gives back the joined tokens |
| ScenarioMdParser.PayloadWords | src/main/java/com/nori/tc/eqpsim/socket/scenario/ScenarioMdParser.java:333-349 | splitting the payload on whitespace gives exactly the body's non-control tokens |
| ScenarioMdParser.Get | src/main/java/com/nori/tc/eqpsim/socket/scenario/ScenarioMdParser.java:105 | a map lookup is present exactly when the key is |
| ScenarioMdParser.WaitStepOf | src/main/java/com/nori/tc/eqpsim/socket/scenario/ScenarioMdParser.java:103-120 | a missing or blank CMD is IllegalArgumentException; the expected command is the trimmed, upper-cased CMD; without a timeout there is no override; an override is always positive |
| ScenarioMdParser.WaitCommandIsUpper | src/main/java/com/nori/tc/eqpsim/socket/scenario/ScenarioMdParser.java:109 | the expected command of a WAIT step is upper-case |
| ScenarioMdParser.WaitSubSecondTimeoutRejected | src/main/java/com/nori/tc/eqpsim/socket/scenario/ScenarioMdParser.java:113-117 | a timeout under one second becomes 0 seconds and is rejected |
| ScenarioMdParser.EmitCount | src/main/java/com/nori/tc/eqpsim/socket/scenario/ScenarioMdParser.java:146-157 | `forever` in any case is the endless count; otherwise the trimmed int, which must be positive; everything else is IllegalArgumentException |
| ScenarioMdParser.EmitTiming | src/main/java/com/nori/tc/eqpsim/socket/scenario/ScenarioMdParser.java:159-173 | every= wins over window= and selects INTERVAL; each needs a parseable duration; neither is IllegalArgumentException |
| ScenarioMdParser.EmitJitter | src/main/java/com/nori/tc/eqpsim/socket/scenario/ScenarioMdParser.java:175-180 | a missing or blank jitter is none; a negative jitter becomes 0 |
| ScenarioMdParser.EmitStepOf | src/main/java/com/nori/tc/eqpsim/socket/scenario/ScenarioMdParser.java:140-189 | a missing count is IllegalArgumentException; an EMIT step carries the non-blank payload without control tokens, INTERVAL exactly when every= is given, the endless count exactly for `forever`, and a jitter exactly when one is given, never negative |
| ScenarioMdParser.EqpToTcStepOf | src/main/java/com/nori/tc/eqpsim/socket/scenario/ScenarioMdParser.java:122-138 | every= or window= makes an EMIT step; otherwise the body must not be blank and becomes a SEND step holding the whole body |
| ScenarioMdParser.SimStepOf | src/main/java/com/nori/tc/eqpsim/socket/scenario/ScenarioMdParser.java:191-230 | a blank body is IllegalArgumentException; a [Sim] line gives a valid SLEEP, LABEL, GOTO or FAULT step |
| ScenarioMdParser.SimGotoWinsOverLoop | src/main/java/com/nori/tc/eqpsim/socket/scenario/ScenarioMdParser.java:209-212 | a non-blank goto= is taken before loop= is looked at |
| ScenarioMdParser.SimNeverLoops | src/main/java/com/nori/tc/eqpsim/socket/scenario/ScenarioMdParser.java:209-222 | a line with loop= never yields a LOOP step: the goto= it needs is taken first |
| ScenarioMdParser.FaultScope | src/main/java/com/nori/tc/eqpsim/socket/scenario/ScenarioMdParser.java:256-279 | a non-blank duration= gives the DURATION scope with a positive duration; otherwise count= gives the NEXT scope with a positive count; neither is IllegalArgumentException |
| ScenarioMdParser.OptionalDuration | src/main/java/com/nori/tc/eqpsim/socket/scenario/ScenarioMdParser.java:291-292 | an absent optional duration stays absent |
| ScenarioMdParser.DelayParams | src/main/java/com/nori/tc/eqpsim/socket/scenario/ScenarioMdParser.java:287-293 | DELAY needs ms=; it keeps the parsed delay, and a jitter exactly when jitter= is given |
| ScenarioMdParser.FragmentParams | src/main/java/com/nori/tc/eqpsim/socket/scenario/ScenarioMdParser.java:294-305 | FRAGMENT needs minParts= and maxParts= with 0 < min <= max |
| ScenarioMdParser.DropParams | src/main/java/com/nori/tc/eqpsim/socket/scenario/ScenarioMdParser.java:306-310 | DROP needs rate= (IllegalArgumentException) that Double.parseDouble accepts (NumberFormatException), in both directions |
| ScenarioMdParser.CorruptParams | src/main/java/com/nori/tc/eqpsim/socket/scenario/ScenarioMdParser.java:311-317 | CORRUPT needs a rate as DROP does; protectFraming defaults to true, else is true exactly for `true` in any case |
| ScenarioMdParser.DisconnectParams | src/main/java/com/nori/tc/eqpsim/socket/scenario/ScenarioMdParser.java:318-324 | DISCONNECT needs after=; it keeps the parsed delay, and a down time exactly when down= is given |
| ScenarioMdParser.FaultParamsOf | src/main/java/com/nori/tc/eqpsim/socket/scenario/ScenarioMdParser.java:286-328 | each fault type carries exactly its own parameters; CLEAR carries none |
| ScenarioMdParser.FaultStepOf | src/main/java/com/nori/tc/eqpsim/socket/scenario/ScenarioMdParser.java:247-331 | a FAULT step has the named type, the DURATION scope exactly when duration= is given, and the parameters of its type |
| ScenarioMdParser.TagStep | src/main/java/com/nori/tc/eqpsim/socket/scenario/ScenarioMdParser.java:63-82 | TcToEqp, EqpToTc and Sim in any case select the step kind; any other tag is IllegalArgumentException; no line gives a LOOP step |
| ScenarioMdParser.LineStep | src/main/java/com/nori/tc/eqpsim/socket/scenario/ScenarioMdParser.java:52-82 | a line gives no step or a valid one |
| ScenarioMdParser.LineStepSkipsAndRejects | src/main/java/com/nori/tc/eqpsim/socket/scenario/ScenarioMdParser.java:54-61 | empty lines are skipped; a line not starting with `[` and a tag is IllegalArgumentException |
| ScenarioMdParser.AddStep | src/main/java/com/nori/tc/eqpsim/socket/scenario/ScenarioMdParser.java:72-79 | a duplicate label is IllegalArgumentException; otherwise the step is appended and a label is indexed at its position |
| ScenarioMdParser.Compile | src/main/java/com/nori/tc/eqpsim/socket/scenario/ScenarioMdParser.java:43-84 | the label index maps every label to the position of its LABEL step and nothing else |
| ScenarioMdParser.ParseFileSpec | src/main/java/com/nori/tc/eqpsim/socket/scenario/ScenarioMdParser.java:37-101 | a missing file is IllegalArgumentException; a plan exists exactly when every line parses and every GOTO/LOOP label exists; the plan keeps the path as given and every GOTO target indexes its label |
| ScenarioMdParser.ParseFile | src/main/java/com/nori/tc/eqpsim/socket/scenario/ScenarioMdParser.java:37-101 | `parseFile` returns or raises exactly what `ParseFileSpec` says |
| ScenarioMdParser.CompileLines | src/main/java/com/nori/tc/eqpsim/socket/scenario/ScenarioMdParser.java:50-84 | the line loop builds exactly `Compile` of the lines |
| ScenarioMdParser.CheckTargets | src/main/java/com/nori/tc/eqpsim/socket/scenario/ScenarioMdParser.java:86-98 | the check loop accepts exactly when every GOTO and LOOP label is indexed |
| ScenarioMdParser.CompileNext | src/main/java/com/nori/tc/eqpsim/socket/scenario/ScenarioMdParser.java:50-83 | one more line extends the compiled steps by that line's step, or fails with its error |
| ScenarioMdParser.CompileFailsFrom | src/main/java/com/nori/tc/eqpsim/socket/scenario/ScenarioMdParser.java:60-81 | after the first failing line, later lines change nothing |
| JavaText.DigitsAreDouble | src/main/java/com/nori/tc/eqpsim/socket/scenario/ScenarioMdParser.java:309 | a run of ASCII digits is accepted by Double.parseDouble |
| JavaText.NoDigitNotDouble | src/main/java/com/nori/tc/eqpsim/socket/scenario/ScenarioMdParser.java:314 | text with no digit, N or I is rejected by Double.parseDouble |
| FaultStates.NextPolicy.constructor | src/main/java/com/nori/tc/eqpsim/socket/scenario/runtime/FaultState.java:30-32 | a next-count policy starts with the given remaining count |
| FaultStates.NextPolicy.TryConsumeOne | src/main/java/com/nori/tc/eqpsim/socket/scenario/runtime/FaultState.java:34-41 | one use is consumed exactly when the policy was active (remaining > 0), lowering the count by one; otherwise nothing changes; the count never goes below zero from a non-negative start |
| FaultStates.JitterOrZero | src/main/java/com/nori/tc/eqpsim/socket/scenario/runtime/FaultState.java:140 | a missing delay jitter is 0 |
| FaultStates.ProtectOrTrue | src/main/java/com/nori/tc/eqpsim/socket/scenario/runtime/FaultState.java:143 | a missing protectFraming is true |
| FaultStates.NewScope | src/main/java/com/nori/tc/eqpsim/socket/scenario/runtime/FaultState.java:130-137 | the policy exists exactly when the step's scope value is present: DURATION expires at now + duration, NEXT is a fresh counter holding the step's count |
| FaultStates.FaultState.constructor | src/main/java/com/nori/tc/eqpsim/socket/scenario/runtime/FaultState.java:110-113 | a new fault state has no delay, fragment, drop or corrupt fault |
| FaultStates.FaultState.ClearAll | src/main/java/com/nori/tc/eqpsim/socket/scenario/runtime/FaultState.java:120-125 | clearing removes all four faults |
| FaultStates.FaultState.ApplyFault | src/main/java/com/nori/tc/eqpsim/socket/scenario/runtime/FaultState.java:127-149 | a step whose needed value is missing raises NullPointerException and changes nothing; CLEAR removes all four faults; DISCONNECT changes nothing; DELAY, FRAGMENT, DROP and CORRUPT replace only their own fault with the step's values (jitter 0 and protectFraming true by default) under a new scope, as `FaultStates.Installs` states it |
| FaultStates.DurationWindow | src/main/java/com/nori/tc/eqpsim/socket/scenario/runtime/FaultState.java:15-25 | a DURATION fault is active exactly before now + duration, so at once when the duration is positive |
| FaultStates.NextFreshActive | src/main/java/com/nori/tc/eqpsim/socket/scenario/runtime/FaultState.java:43-45 | a new NEXT fault is active exactly when its count is positive |
| OutboundFrameSender.BaseSizes | src/main/java/com/nori/tc/eqpsim/socket/netty/OutboundFrameSender.java:175-178 | one size per part: base, plus one for each of the first `rem` parts |
| OutboundFrameSender.Swapped | src/main/java/com/nori/tc/eqpsim/socket/netty/OutboundFrameSender.java:184-187 | swapping two neighbouring sizes keeps the number of sizes |
| OutboundFrameSender.ShuffleFrom | src/main/java/com/nori/tc/eqpsim/socket/netty/OutboundFrameSender.java:182-189 | the neighbour-swap pass keeps the number of sizes |
| OutboundFrameSender.SplitBytes | src/main/java/com/nori/tc/eqpsim/socket/netty/OutboundFrameSender.java:167-198 | the chunks have the sizes `PartSizes` gives, in order, and put back together are the input |
| OutboundFrameSender.ShuffleSizes | src/main/java/com/nori/tc/eqpsim/socket/netty/OutboundFrameSender.java:180-189 | the swap loop computes `ShuffleFrom` of the initial sizes |
| OutboundFrameSender.CopyChunks | src/main/java/com/nori/tc/eqpsim/socket/netty/OutboundFrameSender.java:191-197 | copying consecutive ranges of the given sizes yields chunks of those sizes that put back together are the input |
| OutboundFrameSender.SumPrefix | src/main/java/com/nori/tc/eqpsim/socket/netty/OutboundFrameSender.java:192-195 | the copy position never passes the total of the sizes |
| OutboundFrameSender.SwapSum | src/main/java/com/nori/tc/eqpsim/socket/netty/OutboundFrameSender.java:184-187 | a swap keeps the total size |
| OutboundFrameSender.ShuffleKeeps | src/main/java/com/nori/tc/eqpsim/socket/netty/OutboundFrameSender.java:180-189 | the shuffle is a permutation of the sizes and keeps their total |
| OutboundFrameSender.SwapMultiset | src/main/java/com/nori/tc/eqpsim/socket/netty/OutboundFrameSender.java:184-187 | a swap is a permutation |
| OutboundFrameSender.BaseSizesShape | src/main/java/com/nori/tc/eqpsim/socket/netty/OutboundFrameSender.java:172-178 | every base size is base or base + 1, and they total parts * base + rem |
| OutboundFrameSender.PartSizesShape | src/main/java/com/nori/tc/eqpsim/socket/netty/OutboundFrameSender.java:164-198 | `parts <= 1` or `len <= 1` gives one chunk of the whole; otherwise min(parts, len) chunks, each of at least one byte, that total len |
| OutboundFrameSender.Draw | src/main/java/com/nori/tc/eqpsim/socket/netty/OutboundFrameSender.java:140 | a random draw lies in [lo, hi), and any value there can be drawn |
| OutboundFrameSender.MarkerLength | src/main/java/com/nori/tc/eqpsim/socket/netty/OutboundFrameSender.java:231-232 | a START_END marker's length is the length of its parsed bytes; a missing marker and a parse error raise |
| OutboundFrameSender.PrefixSuffix | src/main/java/com/nori/tc/eqpsim/socket/netty/OutboundFrameSender.java:219-236 | the framing lengths: REGEX 0/0, LINE_END 0 and 1 (2 for CRLF), START_END the parsed marker lengths; a missing kind or line ending is NullPointerException |
| OutboundFrameSender.Xor5A | src/main/java/com/nori/tc/eqpsim/socket/netty/OutboundFrameSender.java:216 | XOR with 0x5A always changes the byte |
| OutboundFrameSender.CorruptRange | src/main/java/com/nori/tc/eqpsim/socket/netty/OutboundFrameSender.java:204-211 | the range to corrupt lies inside the buffer: all of it, or with protectFraming the part between prefix and suffix |
| OutboundFrameSender.CorruptedShape | src/main/java/com/nori/tc/eqpsim/socket/netty/OutboundFrameSender.java:213-216 | corruption keeps the length and changes exactly one byte of a non-empty range, and none when the range is empty |
| OutboundFrameSender.CorruptBytes | src/main/java/com/nori/tc/eqpsim/socket/netty/OutboundFrameSender.java:203-217 | on the array in place: the framing computation's exception leaves the bytes alone; otherwise exactly `Corrupted` over `CorruptRange` |
| OutboundFrameSender.FramingLengths | src/main/java/com/nori/tc/eqpsim/socket/netty/OutboundFrameSender.java:219-236 | for any successfully encoded frame, the framing lengths fit and frame exactly the payload's UTF-8 bytes |
| OutboundFrameSender.StartEndFraming | src/main/java/com/nori/tc/eqpsim/socket/netty/OutboundFrameSender.java:230-234 | for START_END, the bytes between the marker lengths are the payload |
| OutboundFrameSender.CorruptionSparesFraming | src/main/java/com/nori/tc/eqpsim/socket/netty/OutboundFrameSender.java:200-217 | with protectFraming, corruption never touches the framing bytes of an encoded frame |
| OutboundFrameSender.FramingSpared | src/main/java/com/nori/tc/eqpsim/socket/netty/OutboundFrameSender.java:207-211 | corrupting the protected range keeps the prefix and the suffix |
| OutboundFrameSender.CorruptedOutside | src/main/java/com/nori/tc/eqpsim/socket/netty/OutboundFrameSender.java:213-216 | corruption keeps every byte outside the range |
| OutboundFrameSender.Channel.constructor | src/main/java/com/nori/tc/eqpsim/socket/netty/OutboundFrameSender.java:156-161 | a channel starts with the given state, no writes and no flushes |
| OutboundFrameSender.RunStage | src/main/java/com/nori/tc/eqpsim/socket/netty/OutboundFrameSender.java:116-117 | a stage fires exactly when its scope is active; an active NEXT scope gives up one use |
| OutboundFrameSender.WriteBytes | src/main/java/com/nori/tc/eqpsim/socket/netty/OutboundFrameSender.java:156-161 | one write and one flush when the channel is open, nothing otherwise |
| OutboundFrameSender.WriteChunks | src/main/java/com/nori/tc/eqpsim/socket/netty/OutboundFrameSender.java:143-148 | every chunk is written in order, then one flush |
| OutboundFrameSender.FragmentStage | src/main/java/com/nori/tc/eqpsim/socket/netty/OutboundFrameSender.java:135-153 | an active fragment writes min(parts, len) chunks that make up the frame, parts drawn from [minParts, maxParts], then flushes once; a range nextInt rejects raises; otherwise one write |
| OutboundFrameSender.CorruptStage | src/main/java/com/nori/tc/eqpsim/socket/netty/OutboundFrameSender.java:126-133 | an active corrupt stage whose rate test hits corrupts the frame, or raises the framing exception |
| OutboundFrameSender.CorruptPart | src/main/java/com/nori/tc/eqpsim/socket/netty/OutboundFrameSender.java:126-133 | the corrupt stage changes only its own counter and the frame |
| OutboundFrameSender.FragmentPart | src/main/java/com/nori/tc/eqpsim/socket/netty/OutboundFrameSender.java:135-153 | the fragment stage leaves the drop and corrupt counters alone |
| OutboundFrameSender.AfterDrop | src/main/java/com/nori/tc/eqpsim/socket/netty/OutboundFrameSender.java:126-153 | after a frame that is not dropped: corrupt, then fragment or one write; an exception from corrupt stops there |
| OutboundFrameSender.SendNow | src/main/java/com/nori/tc/eqpsim/socket/netty/OutboundFrameSender.java:111-154 | nothing on a closed channel; a dropped frame writes nothing and leaves the later counters alone; otherwise corrupt then fragment or one write |
| OutboundFrameSender.DelayOf | src/main/java/com/nori/tc/eqpsim/socket/netty/OutboundFrameSender.java:90-93 | the delay is delayMs, plus a draw in [0, jitter] when the jitter is positive; a jitter of Long.MAX_VALUE makes the draw's bound wrap and throw |
| OutboundFrameSender.Send | src/main/java/com/nori/tc/eqpsim/socket/netty/OutboundFrameSender.java:62-103 | nothing happens exactly for a null EQP or payload or a closed channel; an encoder exception is reported; without a fault state the frame is written once; otherwise the delay stage decides between scheduling the frame unsent and `sendNow` at once |
| OutboundFrameSender.SendFaulted | src/main/java/com/nori/tc/eqpsim/socket/netty/OutboundFrameSender.java:86-102 | an active delay uses its scope and schedules the frame, or throws on the jitter draw; otherwise `sendNow` runs at once |
| OutboundFrameSender.DelayStage | src/main/java/com/nori/tc/eqpsim/socket/netty/OutboundFrameSender.java:86-89 | the delay stage fires exactly when its scope is active, changing only its own counter |
| OutboundFrameSender.SendUndelayed | src/main/java/com/nori/tc/eqpsim/socket/netty/OutboundFrameSender.java:101-102 | a frame that is not delayed goes through `sendNow` without touching the delay counter |
| OutboundFrameSender.DeliveredWhole | src/main/java/com/nori/tc/eqpsim/socket/netty/OutboundFrameSender.java:105-110 | a frame that is neither dropped nor failed is delivered whole: the new writes put together are the frame with at most one byte changed |
| OutboundFrameSender.CorruptOutcomeShape | src/main/java/com/nori/tc/eqpsim/socket/netty/OutboundFrameSender.java:126-133 | the corrupt stage changes at most one byte and never the length |
| OutboundFrameSender.ProtectedFramingKept | src/main/java/com/nori/tc/eqpsim/socket/netty/OutboundFrameSender.java:200-217 | with protectFraming, the frame `sendNow` leaves behind keeps the framing bytes of the encoded frame |
| ScenarioRunner.WaitTimeoutSec | src/main/java/com/nori/tc/eqpsim/socket/scenario/runtime/ScenarioRunnerHandler.java:309-315 | the WAIT timeout is the step's override when positive, else the EQP's timeout when positive, else 60 seconds; always positive |
| ScenarioRunner.OutboxAppend | src/main/java/com/nori/tc/eqpsim/socket/scenario/runtime/ScenarioRunnerHandler.java:209-281 | the payloads a walk records for the sender are those of its parts, in order |
| ScenarioRunner.FaultsAppend | src/main/java/com/nori/tc/eqpsim/socket/scenario/runtime/ScenarioRunnerHandler.java:597-621 | the faults a walk applies are those of its parts, in order |
| ScenarioRunner.TurnStopsOnStep | src/main/java/com/nori/tc/eqpsim/socket/scenario/runtime/ScenarioRunnerHandler.java:209-281 | one turn of `advance` that stops leaves the index on the step that stopped it |
| ScenarioRunner.HaltsOnItsStep | src/main/java/com/nori/tc/eqpsim/socket/scenario/runtime/ScenarioRunnerHandler.java:209-281 | however far the walk goes, it stops with the index on the WAIT, EMIT, SLEEP or DISCONNECT it left for later, on the GOTO or LOOP whose label is missing, or past the last step on completion |
| ScenarioRunner.StraightRun | src/main/java/com/nori/tc/eqpsim/socket/scenario/runtime/ScenarioRunnerHandler.java:322-341 | a run of SEND and LABEL steps is crossed in one go, sending each template in order and leaving the loop counters untouched |
| ScenarioRunner.StraightLink | src/main/java/com/nori/tc/eqpsim/socket/scenario/runtime/ScenarioRunnerHandler.java:322-341 | one SEND or LABEL step in front of a crossed run extends it |
| ScenarioRunner.Repeat | src/main/java/com/nori/tc/eqpsim/socket/scenario/runtime/ScenarioRunnerHandler.java:549-595 | `n` copies of one action, of length `n` |
| ScenarioRunner.LoopPass | src/main/java/com/nori/tc/eqpsim/socket/scenario/runtime/ScenarioRunnerHandler.java:549-595 | one pass through a loop body sends the template once and reaches the LOOP step |
| ScenarioRunner.LoopRunsBody | src/main/java/com/nori/tc/eqpsim/socket/scenario/runtime/ScenarioRunnerHandler.java:549-595 | a LOOP keyed by its label runs the body `count - c + 1` more times from counter `c`, then the plan completes and the counter is removed |
| ScenarioRunner.LoopJumpsBack | src/main/java/com/nori/tc/eqpsim/socket/scenario/runtime/ScenarioRunnerHandler.java:570-585 | below its count the LOOP raises the counter and jumps back to the label |
| ScenarioRunner.LoopFallsThrough | src/main/java/com/nori/tc/eqpsim/socket/scenario/runtime/ScenarioRunnerHandler.java:586-594 | at its count the LOOP drops the counter and falls through |
| ScenarioRunner.GotoCycleSpins | src/main/java/com/nori/tc/eqpsim/socket/scenario/runtime/ScenarioRunnerHandler.java:524-547 | a GOTO cycle with no asynchronous step never halts, whatever the fuel, and sends nothing |
| ScenarioRunner.WindowShots | src/main/java/com/nori/tc/eqpsim/socket/scenario/runtime/ScenarioRunnerHandler.java:441-477 | a WINDOW emit schedules exactly `count` shots of that emit, each delayed by an offset in `[0, window]` |
| ScenarioRunner.WindowShotsCount | src/main/java/com/nori/tc/eqpsim/socket/scenario/runtime/ScenarioRunnerHandler.java:441-477 | the shots scheduled for a WINDOW emit are counted against that emit only and close nothing |
| ScenarioRunner.ScenarioRunnerHandler.constructor | src/main/java/com/nori/tc/eqpsim/socket/scenario/runtime/ScenarioRunnerHandler.java:94-102 | a new handler is at step 0, not started, not waiting, with no emits, no pending tasks and nothing sent |
| ScenarioRunner.ScenarioRunnerHandler.Pass | src/main/java/com/nori/tc/eqpsim/socket/scenario/runtime/ScenarioRunnerHandler.java:209-281 | one turn of the walk moves the step index, the loop counters and the records of sends and faults exactly as the turn function says, and changes nothing else of the runner; a FAULT turn that goes on installs its fault in the channel's fault state (`FaultStates.Installs`), and every other turn leaves the four fault slots as they were |
| ScenarioRunner.ScenarioRunnerHandler.PassSend | src/main/java/com/nori/tc/eqpsim/socket/scenario/runtime/ScenarioRunnerHandler.java:322-341 | a SEND records its resolved template as handed to the sender and moves to the next step, leaving the fault state alone |
| ScenarioRunner.ScenarioRunnerHandler.PassJump | src/main/java/com/nori/tc/eqpsim/socket/scenario/runtime/ScenarioRunnerHandler.java:524-595 | a GOTO or LOOP moves to the label's step, or past the LOOP, updating only the loop counters and leaving the fault state alone |
| ScenarioRunner.ScenarioRunnerHandler.PassFault | src/main/java/com/nori/tc/eqpsim/socket/scenario/runtime/ScenarioRunnerHandler.java:597-621 | DISCONNECT stops the walk and leaves the fault state alone; without a fault state the step is passed over; a fault the fault state cannot unbox stops with NullPointer and leaves the slots as they were; otherwise the fault is installed as `applyFault` installs it (its own slot set from the step under a new scope and the other three kept, or all four emptied by CLEAR) and the walk moves on |
| ScenarioRunner.ScenarioRunnerHandler.RunSteps | src/main/java/com/nori/tc/eqpsim/socket/scenario/runtime/ScenarioRunnerHandler.java:215-280 | the `while (true)` loop of `advance` ends in the state the walk function gives, with the payloads it hands to the sender and the faults it applies recorded in order |
| ScenarioRunner.ScenarioRunnerHandler.HandleWaitStep | src/main/java/com/nori/tc/eqpsim/socket/scenario/runtime/ScenarioRunnerHandler.java:285-307 | a WAIT is recorded as awaited with a fresh timeout of the resolved length, and the timeout task is queued |
| ScenarioRunner.ScenarioRunnerHandler.HandleSleepStep | src/main/java/com/nori/tc/eqpsim/socket/scenario/runtime/ScenarioRunnerHandler.java:507-522 | a SLEEP queues the timer that ends it after the step's delay |
| ScenarioRunner.ScenarioRunnerHandler.ScheduleDisconnect | src/main/java/com/nori/tc/eqpsim/socket/scenario/runtime/ScenarioRunnerHandler.java:623-645 | a DISCONNECT fault queues a close after `afterMs`, or 0 when absent |
| ScenarioRunner.ScenarioRunnerHandler.ScheduleCloseAfterCompletion | src/main/java/com/nori/tc/eqpsim/socket/scenario/runtime/ScenarioRunnerHandler.java:668-687 | the close after completion is scheduled at most once, with reason SCENARIO_COMPLETED and a 100 ms grace |
| ScenarioRunner.ScenarioRunnerHandler.HandleScenarioCompleted | src/main/java/com/nori/tc/eqpsim/socket/scenario/runtime/ScenarioRunnerHandler.java:649-666 | completion is reported to the tracker: a usable id under a positive total joins the completed set, and otherwise the completed set, the exit flag and the exit count stay as they were; the exit is triggered exactly when it already was or the exit condition now holds, and an exit is scheduled exactly when the flag turns on; an ACTIVE connection schedules its close, a PASSIVE one stays open |
| ScenarioRunner.ScenarioRunnerHandler.HandleEmitStep | src/main/java/com/nori/tc/eqpsim/socket/scenario/runtime/ScenarioRunnerHandler.java:343-364 | an EMIT takes the next id and starts a forever, an interval or a window emit; a jitter or window beyond the long range throws |
| ScenarioRunner.ScenarioRunnerHandler.StartForeverEmit | src/main/java/com/nori/tc/eqpsim/socket/scenario/runtime/ScenarioRunnerHandler.java:371-389 | a forever emit queues its first tick under a fresh id and keeps no counter |
| ScenarioRunner.ScenarioRunnerHandler.StartIntervalEmit | src/main/java/com/nori/tc/eqpsim/socket/scenario/runtime/ScenarioRunnerHandler.java:396-429 | an interval emit keeps a counter of `count` sends owed and queues its first tick |
| ScenarioRunner.ScenarioRunnerHandler.NewCounter | src/main/java/com/nori/tc/eqpsim/socket/scenario/runtime/ScenarioRunnerHandler.java:396-429 | a fresh emit counter is stored under its id, with nothing sent or pending for it |
| ScenarioRunner.ScenarioRunnerHandler.ReserveEmitId | src/main/java/com/nori/tc/eqpsim/socket/scenario/runtime/ScenarioRunnerHandler.java:343-364 | the emit id counter rises by one and the id taken was unused |
| ScenarioRunner.ScenarioRunnerHandler.StartWindowEmit | src/main/java/com/nori/tc/eqpsim/socket/scenario/runtime/ScenarioRunnerHandler.java:441-477 | a window emit keeps a done counter at zero and queues `count` shots within the window |
| ScenarioRunner.ScenarioRunnerHandler.ScheduleWindowShots | src/main/java/com/nori/tc/eqpsim/socket/scenario/runtime/ScenarioRunnerHandler.java:459-476 | the window's shots are appended to the queue, leaving every other emit untouched |
| ScenarioRunner.ScenarioRunnerHandler.Advance | src/main/java/com/nori/tc/eqpsim/socket/scenario/runtime/ScenarioRunnerHandler.java:209-281 | without an EQP the channel is closed; otherwise the walk runs, the payloads it hands to the sender and the faults it applies are recorded in order, and the step it stopped on is handled |
| ScenarioRunner.ScenarioRunnerHandler.HandleStop | src/main/java/com/nori/tc/eqpsim/socket/scenario/runtime/ScenarioRunnerHandler.java:222-279 | the step the walk stopped on is handled: WAIT, EMIT, SLEEP or DISCONNECT scheduled, completion reported, a missing label closes |
| ScenarioRunner.ScenarioRunnerHandler.Resume | src/main/java/com/nori/tc/eqpsim/socket/scenario/runtime/ScenarioRunnerHandler.java:209-281 | a scenario resumed past an asynchronous step continues as `advance` from the next index |
| ScenarioRunner.ScenarioRunnerHandler.CancelWaitTimeout | src/main/java/com/nori/tc/eqpsim/socket/scenario/runtime/ScenarioRunnerHandler.java:691-696 | the pending WAIT timer, if any, is cancelled and forgotten |
| ScenarioRunner.ScenarioRunnerHandler.StartIfNeeded | src/main/java/com/nori/tc/eqpsim/socket/scenario/runtime/ScenarioRunnerHandler.java:189-205 | the scenario starts once: a second call changes nothing |
| ScenarioRunner.ScenarioRunnerHandler.ChannelActive | src/main/java/com/nori/tc/eqpsim/socket/scenario/runtime/ScenarioRunnerHandler.java:113-117 | an active channel starts the scenario if it has not started |
| ScenarioRunner.ScenarioRunnerHandler.HandlerAdded | src/main/java/com/nori/tc/eqpsim/socket/scenario/runtime/ScenarioRunnerHandler.java:106-111 | a handler added to an already active channel queues the start |
| ScenarioRunner.ScenarioRunnerHandler.ChannelRead0 | src/main/java/com/nori/tc/eqpsim/socket/scenario/runtime/ScenarioRunnerHandler.java:127-170 | a frame is consumed only while a WAIT is pending and its command, upper-cased, is the awaited one; then the timer is cancelled and the scenario moves past the WAIT; otherwise nothing changes |
| ScenarioRunner.ScenarioRunnerHandler.CompleteWait | src/main/java/com/nori/tc/eqpsim/socket/scenario/runtime/ScenarioRunnerHandler.java:156-169 | a matched WAIT cancels its timer, is no longer awaited, and the walk resumes after it |
| ScenarioRunner.ScenarioRunnerHandler.LeaveWait | src/main/java/com/nori/tc/eqpsim/socket/scenario/runtime/ScenarioRunnerHandler.java:156-168 | leaving a WAIT cancels the timer, clears the awaited step and moves the index by one |
| ScenarioRunner.ScenarioRunnerHandler.ChannelInactive | src/main/java/com/nori/tc/eqpsim/socket/scenario/runtime/ScenarioRunnerHandler.java:177-185 | an inactive channel stops every emit and sleep callback and cancels the WAIT timer |
| ScenarioRunner.ScenarioRunnerHandler.SendEmitPayload | src/main/java/com/nori/tc/eqpsim/socket/scenario/runtime/ScenarioRunnerHandler.java:486-505 | an emit records its template, resolved against the captured EQP, as handed to the sender, tagged with the emit's id |
| ScenarioRunner.ScenarioRunnerHandler.RunEmitForever | src/main/java/com/nori/tc/eqpsim/socket/scenario/runtime/ScenarioRunnerHandler.java:371-389 | a forever tick sends and queues the next tick unless emits are stopped or the channel is inactive; the scenario never moves past it |
| ScenarioRunner.ScenarioRunnerHandler.RunEmitFinite | src/main/java/com/nori/tc/eqpsim/socket/scenario/runtime/ScenarioRunnerHandler.java:396-429 | an interval tick sends and lowers the remaining count; the tick that makes the last send moves the scenario on, after which no tick of that emit remains |
| ScenarioRunner.ScenarioRunnerHandler.FiniteTick | src/main/java/com/nori/tc/eqpsim/socket/scenario/runtime/ScenarioRunnerHandler.java:405-427 | an interval tick's send and count, with the next tick queued only while sends remain |
| ScenarioRunner.ScenarioRunnerHandler.CountDown | src/main/java/com/nori/tc/eqpsim/socket/scenario/runtime/ScenarioRunnerHandler.java:407-410 | an interval send lowers the remaining count by one; at zero the sends equal the total |
| ScenarioRunner.ScenarioRunnerHandler.LowerCount | src/main/java/com/nori/tc/eqpsim/socket/scenario/runtime/ScenarioRunnerHandler.java:409-410 | the remaining count falls by one, keeping remaining plus sends equal to the total |
| ScenarioRunner.ScenarioRunnerHandler.ScheduleFiniteTick | src/main/java/com/nori/tc/eqpsim/socket/scenario/runtime/ScenarioRunnerHandler.java:410-413 | the next interval tick is queued after the jittered interval, unless the jitter draw throws |
| ScenarioRunner.ScenarioRunnerHandler.RunEmitWindow | src/main/java/com/nori/tc/eqpsim/socket/scenario/runtime/ScenarioRunnerHandler.java:441-477 | a window shot sends and raises the done count; only the shot reaching the total moves the scenario on, so it moves on at most once per emit |
| ScenarioRunner.ScenarioRunnerHandler.FinishEmit | src/main/java/com/nori/tc/eqpsim/socket/scenario/runtime/ScenarioRunnerHandler.java:472-473 | after an emit's last send the walk resumes past the emit and its counts stay as they were |
| ScenarioRunner.ScenarioRunnerHandler.WindowTick | src/main/java/com/nori/tc/eqpsim/socket/scenario/runtime/ScenarioRunnerHandler.java:457-462 | a window shot's send and count; `last` exactly when the count reaches the total |
| ScenarioRunner.ScenarioRunnerHandler.RaiseDone | src/main/java/com/nori/tc/eqpsim/socket/scenario/runtime/ScenarioRunnerHandler.java:461-462 | the done count rises by one and equals the sends so far |
| ScenarioRunner.ScenarioRunnerHandler.RunSleep | src/main/java/com/nori/tc/eqpsim/socket/scenario/runtime/ScenarioRunnerHandler.java:507-522 | the end of a SLEEP moves the scenario on exactly when emits are not stopped and the channel is active |
| ScenarioRunner.ScenarioRunnerHandler.TakeTask | src/main/java/com/nori/tc/eqpsim/socket/scenario/runtime/ScenarioRunnerHandler.java:106-111 | a task is taken off the queue; what its emit counter promises still holds |
| ScenarioRunner.ScenarioRunnerHandler.RunTask | src/main/java/com/nori/tc/eqpsim/socket/scenario/runtime/ScenarioRunnerHandler.java:285-687 | a WAIT timer closes unless cancelled; a disconnect or completion close closes an active channel; emit and sleep callbacks do nothing when stopped or inactive; only a finite emit's last send or a sleep's end moves the scenario on |
| ScenarioRunner.ScenarioRunnerHandler.RunTaken | src/main/java/com/nori/tc/eqpsim/socket/scenario/runtime/ScenarioRunnerHandler.java:285-687 | the same outcomes for a task already off the queue |
| ScenarioRunner.ScenarioRunnerHandler.RunCloser | src/main/java/com/nori/tc/eqpsim/socket/scenario/runtime/ScenarioRunnerHandler.java:297-306 | a WAIT timer closes the channel unless cancelled; a disconnect or completion close only while the channel is active |
| ScenarioRunner.ScenarioRunnerHandler.RunEmitTask | src/main/java/com/nori/tc/eqpsim/socket/scenario/runtime/ScenarioRunnerHandler.java:371-477 | an emit task moves the scenario on only with a finite emit's last send; a forever emit never does |
| Handshake.HandshakeTimeoutSec | src/main/java/com/nori/tc/eqpsim/socket/netty/HandshakeHandler.java:85-86 | the handshake timeout is the EQP's configured value when positive, else 60 seconds; always positive |
| Handshake.HandshakeHandler.constructor | src/main/java/com/nori/tc/eqpsim/socket/netty/HandshakeHandler.java:56-65 | a new handler has not shaken hands, has no timer, has not closed and has not handed over to a runner |
| Handshake.HandshakeHandler.ChannelActive | src/main/java/com/nori/tc/eqpsim/socket/netty/HandshakeHandler.java:75-111 | without an EQP the channel is closed, no timer is started and the event is not passed on; otherwise a fresh timer of the resolved timeout is started and the event is passed on |
| Handshake.HandshakeHandler.Fire | src/main/java/com/nori/tc/eqpsim/socket/netty/HandshakeHandler.java:89-99 | the timer closes the channel exactly when it was not cancelled and the handshake has not completed |
| Handshake.HandshakeHandler.CancelTimeout | src/main/java/com/nori/tc/eqpsim/socket/netty/HandshakeHandler.java:213-219 | the pending timer, if any, is cancelled and forgotten; nothing else changes |
| Handshake.HandshakeHandler.ChannelInactive | src/main/java/com/nori/tc/eqpsim/socket/netty/HandshakeHandler.java:199-205 | an inactive channel cancels the timer and always passes the event on |
| Handshake.HandshakeHandler.Complete | src/main/java/com/nori/tc/eqpsim/socket/netty/HandshakeHandler.java:166-192 | a completed handshake cancels the timer, reports a PASSIVE EQP with a usable id to the tracker as open, and hands over to the profile's runner, closing when the profile has no plan |
| Handshake.HandshakeHandler.Initialize | src/main/java/com/nori/tc/eqpsim/socket/netty/HandshakeHandler.java:154-192 | the INITIALIZE_REP reply goes through the outbound sender; on a thrown failure nothing else changes, otherwise the handshake completes |
| Handshake.HandshakeHandler.ChannelRead0 | src/main/java/com/nori/tc/eqpsim/socket/netty/HandshakeHandler.java:124-193 | a reply is made exactly when the handshake is pending, the EQP is known and the frame's command is INITIALIZE; other frames leave everything as it was, and a missing EQP cancels the timer and closes |
| Handshake.ReplyCmd | src/main/java/com/nori/tc/eqpsim/socket/netty/HandshakeHandler.java:154 | the reply's command, read back by the token parser, is INITIALIZE_REP |
| Handshake.ReplyKeys | src/main/java/com/nori/tc/eqpsim/socket/netty/HandshakeHandler.java:154 | the reply reads back as exactly CMD=INITIALIZE_REP and EQPID=<eqpId> |
| Handshake.ReplyTokens | src/main/java/com/nori/tc/eqpsim/socket/netty/HandshakeHandler.java:154 | the reply is a two-token frame of plain, upper-case keys |
| Handshake.ReplyTest001Bytes | src/test/java/com/nori/tc/eqpsim/socket/netty/HandshakeHandlerTests.java:80-89 | the reply for EQP TEST001 is `CMD=INITIALIZE_REP EQPID=TEST001` in UTF-8 |
| Handshake.ReplyWithLf | src/test/java/com/nori/tc/eqpsim/socket/netty/HandshakeHandlerTests.java:80-89 | with an LF line ending the reply for TEST001 is encoded with a trailing line feed, as the handshake test expects |
| EqpRuntimes.RequireNotBlank | src/main/java/com/nori/tc/eqpsim/socket/runtime/EqpRuntime.java:127-132 | a value is accepted exactly when it is present and not blank after trimming, and the trimmed value is kept; otherwise IllegalArgument |
| EqpRuntimes.NormalizeVars | src/main/java/com/nori/tc/eqpsim/socket/runtime/EqpRuntime.java:73-80 | the loop over the vars builds the same map as the lower-casing specification |
| EqpRuntimes.LowerVarsKeys | src/main/java/com/nori/tc/eqpsim/socket/runtime/EqpRuntime.java:73-80 | a key is in the vars map exactly when some entry with a non-null name lower-cases to it |
| EqpRuntimes.LowerVarsLastWins | src/main/java/com/nori/tc/eqpsim/socket/runtime/EqpRuntime.java:73-80 | for a key several entries lower-case to, the last one's value wins |
| EqpRuntimes.LowerVarsKeysLower | src/main/java/com/nori/tc/eqpsim/socket/runtime/EqpRuntime.java:77 | every key of the vars map is already lower case |
| EqpRuntimes.ToLowerIdempotent | src/main/java/com/nori/tc/eqpsim/socket/runtime/EqpRuntime.java:77 | lower-casing twice is lower-casing once |
| EqpRuntimes.NewEqpRuntime | src/main/java/com/nori/tc/eqpsim/socket/runtime/EqpRuntime.java:49-81 | a runtime is built exactly when the ids are not blank and the other parts are present; the first failing field in the order eqpId, mode, endpointId, endpointAddress and socketType, profileId, profile decides the exception: a blank id throws IllegalArgument, a missing part NullPointer; the ids are kept trimmed and the rest as given |
| HostPorts.NewHostPort | src/main/java/com/nori/tc/eqpsim/socket/runtime/HostPort.java:14-22 | a null host throws NullPointer; otherwise the value is built exactly when the host is not blank and the port is in 1..65535, else IllegalArgument |
| HostPorts.Parse | src/main/java/com/nori/tc/eqpsim/socket/runtime/HostPort.java:24-41 | a blank address, a missing host or a colon in first place throws IllegalArgument; whatever is accepted is a valid host and port |
| HostPorts.ParseJoin | src/main/java/com/nori/tc/eqpsim/socket/runtime/HostPort.java:24-41 | `host:digits` with a trimmed host and a port in range parses back to that host and port |
| HostPorts.ParseNeedsHost | src/main/java/com/nori/tc/eqpsim/socket/runtime/HostPort.java:29-31 | an address whose only colon comes first is rejected |
| RuntimeRegistry.ListenOf | src/main/java/com/nori/tc/eqpsim/socket/runtime/EqpRuntimeRegistry.java:61-68 | the listen tables have the same endpoints for bind address and connection limit, and every bind address is valid; a bad address throws IllegalArgument |
| RuntimeRegistry.ConnectOf | src/main/java/com/nori/tc/eqpsim/socket/runtime/EqpRuntimeRegistry.java:69-75 | every connect target is valid; a bad address throws IllegalArgument |
| RuntimeRegistry.ConnectStep | src/main/java/com/nori/tc/eqpsim/socket/runtime/EqpRuntimeRegistry.java:69-75 | one connect entry keeps every target valid |
| RuntimeRegistry.BuildListen | src/main/java/com/nori/tc/eqpsim/socket/runtime/EqpRuntimeRegistry.java:61-68 | the loop over the listen endpoints builds exactly the listen tables |
| RuntimeRegistry.PrefixError | src/main/java/com/nori/tc/eqpsim/socket/runtime/EqpRuntimeRegistry.java:61-68 | the first listen entry that throws decides the outcome |
| RuntimeRegistry.BuildConnect | src/main/java/com/nori/tc/eqpsim/socket/runtime/EqpRuntimeRegistry.java:69-75 | the loop over the connect endpoints builds exactly the connect table |
| RuntimeRegistry.ConnectPrefixError | src/main/java/com/nori/tc/eqpsim/socket/runtime/EqpRuntimeRegistry.java:69-75 | the first connect entry that throws decides the outcome |
| RuntimeRegistry.TimeoutOr | src/main/java/com/nori/tc/eqpsim/socket/runtime/EqpRuntimeRegistry.java:106-107 | an EQP's timeout is its own when positive, else the default |
| RuntimeRegistry.ResolveEqp | src/main/java/com/nori/tc/eqpsim/socket/runtime/EqpRuntimeRegistry.java:90-142 | a missing mode or a blank endpoint, socket type or profile throws IllegalState, so does a missing reference; an accepted EQP takes the referenced socket type, profile and address, the resolved timeouts, and 20 connections when the listen endpoint gives none (0 for ACTIVE) |
| RuntimeRegistry.EqpStep | src/main/java/com/nori/tc/eqpsim/socket/runtime/EqpRuntimeRegistry.java:85-147 | a null EQP entry is skipped; a PASSIVE EQP joins the back of its endpoint's pool, an ACTIVE one the back of the active list |
| RuntimeRegistry.BuildEqps | src/main/java/com/nori/tc/eqpsim/socket/runtime/EqpRuntimeRegistry.java:85-147 | the loop over the EQPs builds exactly the EQP tables |
| RuntimeRegistry.EqpsPrefixError | src/main/java/com/nori/tc/eqpsim/socket/runtime/EqpRuntimeRegistry.java:85-147 | the first EQP entry that throws decides the outcome |
| RuntimeRegistry.PoolsInOrder | src/main/java/com/nori/tc/eqpsim/socket/runtime/EqpRuntimeRegistry.java:112-119 | each listen endpoint's pool holds its PASSIVE EQP ids in configuration order, and exists exactly when it holds one |
| RuntimeRegistry.ActiveInOrder | src/main/java/com/nori/tc/eqpsim/socket/runtime/EqpRuntimeRegistry.java:144-146 | the active list holds the ACTIVE EQPs in configuration order |
| RuntimeRegistry.TablesOf | src/main/java/com/nori/tc/eqpsim/socket/runtime/EqpRuntimeRegistry.java:49-59 | null properties or null endpoints throw NullPointer |
| RuntimeRegistry.EqpRuntimeRegistry.constructor | src/main/java/com/nori/tc/eqpsim/socket/runtime/EqpRuntimeRegistry.java:149-152 | the registry holds exactly the built tables |
| RuntimeRegistry.EqpRuntimeRegistry.GetEqp | src/main/java/com/nori/tc/eqpsim/socket/runtime/EqpRuntimeRegistry.java:188-190 | the lookup finds an EQP exactly when its id is registered |
| RuntimeRegistry.EqpRuntimeRegistry.ReservePassiveEqpId | src/main/java/com/nori/tc/eqpsim/socket/runtime/EqpRuntimeRegistry.java:192-196 | a null endpoint throws NullPointer; otherwise the first id of the endpoint's pool is taken, or none when there is no pool or it is empty |
| RuntimeRegistry.EqpRuntimeRegistry.ReleasePassiveEqpId | src/main/java/com/nori/tc/eqpsim/socket/runtime/EqpRuntimeRegistry.java:198-203 | a null endpoint or id changes nothing; otherwise the id joins the back of an existing pool and an unknown endpoint is ignored |
| RuntimeRegistry.NewRegistry | src/main/java/com/nori/tc/eqpsim/socket/runtime/EqpRuntimeRegistry.java:49-170 | the registry is built exactly when the tables are, with the same error otherwise |
| RuntimeRegistry.Poll | src/main/java/com/nori/tc/eqpsim/socket/runtime/EqpRuntimeRegistry.java:192-196 | polling takes the head of the pool and leaves the rest, or nothing from a missing or empty pool |
| RuntimeRegistry.Offer | src/main/java/com/nori/tc/eqpsim/socket/runtime/EqpRuntimeRegistry.java:198-203 | offering appends to an existing pool and never creates one |
| RuntimeRegistry.FifoOrder | src/main/java/com/nori/tc/eqpsim/socket/runtime/EqpRuntimeRegistry.java:192-203 | pools are first in, first out: an id released into an empty pool is the next reserved |
| RuntimeRegistry.ReserveRelease | src/main/java/com/nori/tc/eqpsim/socket/runtime/EqpRuntimeRegistry.java:192-203 | reserving then releasing the same id restores the pool's contents |
| RuntimeRegistry.DoubleRelease | src/main/java/com/nori/tc/eqpsim/socket/runtime/EqpRuntimeRegistry.java:198-203 | releasing an id twice puts two copies in the pool: nothing guards against a double release |
| ConnectionLimits.ConnectionCounter.constructor | src/main/java/com/nori/tc/eqpsim/socket/netty/ConnectionLimitHandler.java:24 | the shared counter starts at the given count |
| ConnectionLimits.Admit | src/main/java/com/nori/tc/eqpsim/socket/netty/ConnectionLimitHandler.java:33-42 | a connection is admitted exactly when the raised count stays within the limit, and the count rises only for an admitted connection; a refused one leaves it as it was |
| ConnectionLimits.Release | src/main/java/com/nori/tc/eqpsim/socket/netty/ConnectionLimitHandler.java:45-53 | the count falls by one for a counted connection and is untouched otherwise |
| ConnectionLimits.ConnectionLimitHandler.constructor | src/main/java/com/nori/tc/eqpsim/socket/netty/ConnectionLimitHandler.java:27-30 | a new handler has the given limit and shared counter and has counted nothing |
| ConnectionLimits.ConnectionLimitHandler.ChannelActive | src/main/java/com/nori/tc/eqpsim/socket/netty/ConnectionLimitHandler.java:33-42 | the shared count and the verdict are those of `Admit`; the handler remembers an admitted connection |
| ConnectionLimits.ConnectionLimitHandler.ChannelInactive | src/main/java/com/nori/tc/eqpsim/socket/netty/ConnectionLimitHandler.java:45-53 | the shared count is released once for a counted connection |
| ConnectionLimits.CounterRestored | src/main/java/com/nori/tc/eqpsim/socket/netty/ConnectionLimitHandler.java:33-53 | a connection that comes and goes leaves the shared count as it found it, 32-bit wrap-around included |
| ConnectionLimits.WrapBack | src/main/java/com/nori/tc/eqpsim/socket/netty/ConnectionLimitHandler.java:34-36 | a 32-bit increment followed by a decrement is the identity |
| ConnectionLimits.AdmitBounded | src/main/java/com/nori/tc/eqpsim/socket/netty/ConnectionLimitHandler.java:33-42 | admission never raises the count past the limit, nor past a count already over it |
| ScenarioCompletion.ScenarioCompletionCoordinator.constructor | src/main/java/com/nori/tc/eqpsim/socket/lifecycle/ScenarioCompletionCoordinator.java:62-70 | a new coordinator knows the EQP total, has nothing completed or open and has not triggered the exit |
| ScenarioCompletion.ScenarioCompletionCoordinator.MarkPassiveChannelOpened | src/main/java/com/nori/tc/eqpsim/socket/lifecycle/ScenarioCompletionCoordinator.java:75-84 | a null or blank id is ignored; otherwise it joins the open set, `added` saying whether it was new |
| ScenarioCompletion.ScenarioCompletionCoordinator.MarkPassiveChannelClosed | src/main/java/com/nori/tc/eqpsim/socket/lifecycle/ScenarioCompletionCoordinator.java:87-98 | a null or blank id is ignored; otherwise it leaves the open set, and the exit is triggered exactly when it was not before and the exit condition now holds |
| ScenarioCompletion.ScenarioCompletionCoordinator.MarkScenarioCompleted | src/main/java/com/nori/tc/eqpsim/socket/lifecycle/ScenarioCompletionCoordinator.java:101-115 | with no EQPs or a null or blank id nothing happens; otherwise the id joins the completed set, and the exit is triggered exactly when it was not before and the exit condition now holds |
| ScenarioCompletion.ScenarioCompletionCoordinator.CheckExitCondition | src/main/java/com/nori/tc/eqpsim/socket/lifecycle/ScenarioCompletionCoordinator.java:119-139 | the exit is scheduled exactly once: when it has not been triggered, the total is positive, at least that many EQPs have completed and no PASSIVE channel is open |
| StructuredLog.EscapeChar | src/main/java/com/nori/tc/eqpsim/socket/logging/StructuredLog.java:91-106 | a character escapes to a non-empty text: quote, backslash, newline, return and tab by their escapes, other control characters as `\u00hh` |
| StructuredLog.EncodeValue | src/main/java/com/nori/tc/eqpsim/socket/logging/StructuredLog.java:68-110 | the loop encodes a value as the specification says: `null` for null, the text as it is unless a character needs quoting, else quoted and escaped |
| StructuredLog.EscapedSnoc | src/main/java/com/nori/tc/eqpsim/socket/logging/StructuredLog.java:90-107 | escaping a text one character longer appends that character's escape |
| StructuredLog.UnescapeEscaped | src/main/java/com/nori/tc/eqpsim/socket/logging/StructuredLog.java:88-109 | reading an escaped text back up to the closing quote gives the original text |
| StructuredLog.ReadEncoded | src/main/java/com/nori/tc/eqpsim/socket/logging/StructuredLog.java:68-110 | a value read back from its encoding, followed by a space or the end, is the original text (or `null`) |
| StructuredLog.DecodeEncoded | src/main/java/com/nori/tc/eqpsim/socket/logging/StructuredLog.java:68-110 | decoding an encoded value gives back the value: the encoding round-trips |
| StructuredLog.PairsOf | src/main/java/com/nori/tc/eqpsim/socket/logging/StructuredLog.java:38-54 | the arguments pair up key and value, an odd last argument is dropped, and a null key becomes `null` |
| StructuredLog.AppendPair | src/main/java/com/nori/tc/eqpsim/socket/logging/StructuredLog.java:56-66 | a pair with a blank key adds nothing; otherwise `key=value` is added, after a space unless the text is empty |
| StructuredLog.AppendPairs | src/main/java/com/nori/tc/eqpsim/socket/logging/StructuredLog.java:38-54 | the loop over the pairs adds them in order, as the specification says |
| StructuredLog.Event | src/main/java/com/nori/tc/eqpsim/socket/logging/StructuredLog.java:25-30 | an event line is the `event=...` token followed by the pairs' tokens, space-separated |
| StructuredLog.Kv | src/main/java/com/nori/tc/eqpsim/socket/logging/StructuredLog.java:32-36 | a key-value line is the pairs' tokens, space-separated and trimmed |
| StructuredLog.BuiltConcat | src/main/java/com/nori/tc/eqpsim/socket/logging/StructuredLog.java:38-66 | appending two runs of tokens is appending their concatenation |
| StructuredLog.TokensConcat | src/main/java/com/nori/tc/eqpsim/socket/logging/StructuredLog.java:38-54 | the tokens of two runs of pairs are the tokens of each in order |
| StructuredLog.ParseBuilt | src/main/java/com/nori/tc/eqpsim/socket/logging/StructuredLog.java:25-110 | a line built from pairs with simple keys parses back to the same keys and values |
| StructuredLog.EventReadsBack | src/main/java/com/nori/tc/eqpsim/socket/logging/StructuredLog.java:25-30 | an event line with simple keys reads back as `event` followed by each key and value in order |
| StructuredLog.KvReadsBack | src/main/java/com/nori/tc/eqpsim/socket/logging/StructuredLog.java:32-36 | a key-value line with simple keys needs no trimming and reads back as its keys and values in order |
| JavaText.Trim | src/main/java/com/nori/tc/eqpsim/socket/runtime/HostPort.java:25-28 | `String.trim`: the result is the input with every leading and trailing character up to U+0020 removed, and neither end of it is such a character |
| JavaText.TrimIdempotent | src/main/java/com/nori/tc/eqpsim/socket/runtime/HostPort.java:28-33 | trimming a trimmed text changes nothing |
| JavaText.TrimEmptyIff | src/main/java/com/nori/tc/eqpsim/socket/runtime/HostPort.java:25 | a text trims to empty exactly when every character is at most U+0020 |
| JavaText.ToUpper | src/main/java/com/nori/tc/eqpsim/socket/protocol/FrameTokenParser.java:75 | upper-casing maps each character in place and keeps the length |
| JavaText.ToLower | src/main/java/com/nori/tc/eqpsim/socket/scenario/ScenarioMdParser.java:352 | lower-casing maps each character in place and keeps the length |
| JavaText.ToLowerAppend | src/main/java/com/nori/tc/eqpsim/socket/scenario/ScenarioMdParser.java:352 | lower-casing distributes over concatenation |
| JavaText.IndexOfChar | src/main/java/com/nori/tc/eqpsim/socket/scenario/ScenarioMdParser.java:340 | `indexOf`: the first position holding the character, or -1 exactly when there is none |
| JavaText.LastIndexOfChar | src/main/java/com/nori/tc/eqpsim/socket/runtime/HostPort.java:29 | `lastIndexOf`: the last position holding the character, or -1 exactly when there is none |
| JavaText.Words | src/main/java/com/nori/tc/eqpsim/socket/scenario/ScenarioMdParser.java:334 | `split("\\s+")` after a trim: the words are non-empty |
| JavaText.WordsSeparatorFree | src/main/java/com/nori/tc/eqpsim/socket/framing/HexByteSequenceParser.java:38 | no word of a split holds a separator |
| JavaText.WordsCons | src/main/java/com/nori/tc/eqpsim/socket/framing/HexByteSequenceParser.java:38 | a word followed by a separator splits off as the first word |
| JavaText.ParseInt | src/main/java/com/nori/tc/eqpsim/socket/runtime/HostPort.java:36 | `Integer.parseInt` yields only values in the 32-bit range |
| JavaText.ParseLong | src/main/java/com/nori/tc/eqpsim/socket/scenario/ScenarioMdParser.java:354-360 | `Long.parseLong` yields only values in the 64-bit range |
| JavaText.ParseIntOfNatToString | src/main/java/com/nori/tc/eqpsim/socket/runtime/HostPort.java:36 | a port written in decimal digits parses back to itself |
| JavaText.NatToStringValue | src/main/java/com/nori/tc/eqpsim/socket/runtime/HostPort.java:36 | the decimal digits of a number have that number as their value |

## Left out

- JavaText.UpperChar, JavaText.LowerChar, JavaText.ToUpper, JavaText.ToLower, JavaText.EqualsIgnoreCase, JavaText.ParseDecimal, JavaText.ParseInt, JavaText.ParseLong:
  - Case mapping is restricted to the ASCII letters A-Z and a-z.
  - The digits of `Integer.parseInt` and `Long.parseLong` are restricted to ASCII 0-9.
  - Java's `toUpperCase(Locale.ROOT)`, `toLowerCase` and `equalsIgnoreCase` also map non-ASCII letters. For example, `"straße"` upper-cases to the longer `"STRASSE"`.
  - Java's `parseInt` also accepts non-ASCII decimal digits.
  - Everything built on these functions inherits the restriction:
    - the scenario tag match and the fault-type names (`ScenarioMdParser.LineStep`, `ScenarioMdParser.ParseFaultType`);
    - `FrameTokenParser.ExtractCmdUpper` and `FrameTokenParser.ParseToUpperKeyMap`;
    - the lower-cased vars (`EqpRuntimes.NormalizeVars`);
    - the `{eqpid}` and `{var.k}` placeholders (`TemplateResolver.Resolve`).
- Concurrency is modelled as sequential state. Each operation is one atomic step, and interleavings across event-loop threads are not modelled. This covers:
  - `AtomicInteger`, `AtomicBoolean` and their compare-and-set loops (the count policy, the connection counter, the emit counters, the exit flag);
  - `volatile` fields;
  - `ConcurrentHashMap` and `ConcurrentLinkedQueue`.
- Clocks are parameters. `System.currentTimeMillis` is the `nowMs` argument.
- Randomness is oracle parameters: `Dice`, `Draws` and the window offsets. They stand for the jitter, the window offsets, the fragment sizes, the adjacent swaps, the corrupted index and the drop and corrupt coin tosses. A draw is only known to lie in the bound the code asks for.
- ScenarioMdParser.DropParams, ScenarioMdParser.CorruptParams:
  - The drop and corrupt `rate` is kept as its trimmed text.
  - Whether `Double.parseDouble` accepts it is modelled (`JavaText.IsJavaDouble`), and a rejected rate is a NumberFormat error.
  - Its numeric value is not modelled. The `nextDouble() < rate` test is an oracle boolean.
- Timers: `ctx.executor().schedule` becomes a queue of pending tasks, and `ScheduledFuture.cancel` becomes a cancelled flag.
  - The caller picks which pending task runs next (`ScenarioRunner.ScenarioRunnerHandler.RunTask`), so the delays order nothing.
  - Sorting a window's offsets before scheduling them is therefore not modelled either.
  - The process-exit thread of the completion coordinator becomes a count of scheduled exits.
- OutboundFrameSender.Send: a delayed frame ends as `Scheduled(delay, frame)`. The send that the executor runs after the delay is not modelled past that point; it is `OutboundFrameSender.SendNow` on the same frame.
- ScenarioRunner.ScenarioRunnerHandler.PassSend, ScenarioRunner.ScenarioRunnerHandler.Pass, ScenarioRunner.ScenarioRunnerHandler.RunSteps, ScenarioRunner.ScenarioRunnerHandler.Advance, ScenarioRunner.ScenarioRunnerHandler.SendEmitPayload, ScenarioRunner.ScenarioRunnerHandler.RunEmitForever, ScenarioRunner.ScenarioRunnerHandler.FiniteTick, ScenarioRunner.ScenarioRunnerHandler.CountDown, ScenarioRunner.ScenarioRunnerHandler.RunEmitFinite, ScenarioRunner.ScenarioRunnerHandler.WindowTick, ScenarioRunner.ScenarioRunnerHandler.RunEmitWindow: the runner records each payload it hands to `OutboundFrameSender.send` in `sent` and does not call `OutboundFrameSender.Send`. Two effects of that call on the runner are therefore not modelled:
  - The sender's exceptions are not modelled. The jitter draw throws IllegalArgument at a jitter of `Long.MAX_VALUE` (`OutboundFrameSender.DelayOf`). The fragment draw throws when `maxParts` is `Integer.MAX_VALUE`. In Java the exception escapes `advance` with `stepIndex` still on the SEND. In an emit tick it escapes before the count is lowered or raised and before the next tick is scheduled. In the model every SEND moves on and every tick counts.
  - The NEXT-scope uses that a send consumes from the channel's fault state are not modelled. The counters of the delay, drop, corrupt and fragment effects stay as they were across the runner's sends.
  - The channel writes those sends make are not modelled either. `OutboundFrameSender.Send` states the send path on its own, and `Handshake.HandshakeHandler.Initialize` uses it for the handshake reply.
- Logging is left out. Every log call is dropped. `StructuredLog` is modelled only as the pure text builder it is.
- File I/O: `parseFile` starts from the file's lines, and reading the file is left out. Scenario loading and caching by path are not part of this model.
- ScenarioMdParser.ParseFileSpec: the plan keeps the path exactly as given. Java stores `Paths.get(path).toString()`, the path after `java.nio` normalises it (repeated and trailing separators dropped, so `a//b/` becomes `a/b`). Path normalisation is not modelled.
- UTF-8 decoding of inbound bytes treats each byte as one character (`RegexFrameDecoder.ByteText`, and the frame text the runner and the handshake receive). This is exact for ASCII payloads only.
- SocketFrameEncoderFactory.Utf8: outbound UTF-8 encodes each Dafny `char` as one Unicode scalar value. Java's UTF-16 surrogate pairs, and the `?` that replaces an unpaired surrogate, are not modelled.
- Netty plumbing becomes plain values:
  - the channel pipeline and its `replace`;
  - the event propagation, returned as a boolean;
  - `channel.isActive()` and the EQP and fault-state channel attributes, passed as parameters;
  - `ByteBuf` allocation and reference counting.
- StartEndFrameDecoder.StartEndFrameDecoder.Decode: two guards cannot be reached once a start marker has been found:
  - `readable < start.length`;
  - a negative payload length.
  They are not modelled.
- ScenarioRunner.Exec takes a fuel bound. A GOTO cycle with no asynchronous step spins forever inside `advance` in Java. In the model that walk ends as `Spun` when the fuel runs out (`ScenarioRunner.GotoCycleSpins`). What happens on the event loop after such a spin is not modelled.
- ScenarioRunner.ScenarioRunnerHandler.Advance, for a LOOP whose label is missing from the label index:
  - Java closes the channel and `handleLoopStep` returns false, so `advance` then steps past the LOOP and walks on.
  - The model stops the walk at the LOOP (`LoopMissing`) with the channel closed.
  - The compiler rejects such plans (`ScenarioMdParser.CheckTargets`), so no loaded plan reaches this case.
- ScenarioRunner.ScenarioRunnerHandler.Advance, for an EMIT stop: the contract states only that a new emit id is taken. The emit's counter and its first tasks are stated by `ScenarioRunner.ScenarioRunnerHandler.HandleEmitStep`.
- ScenarioRunner.ScenarioRunnerHandler.RunSteps, ScenarioRunner.ScenarioRunnerHandler.Advance, ScenarioRunner.ScenarioRunnerHandler.Resume: the fault state after a whole walk is stated only as valid.
  - The faults the walk applies are stated in order, as `faultsApplied`.
  - Each turn's effect on the four slots is stated by `ScenarioRunner.ScenarioRunnerHandler.Pass` and `ScenarioRunner.ScenarioRunnerHandler.PassFault`.
  - Composing those effects over a walk is not stated. That composition would say that each slot holds what the walk's last DELAY, FRAGMENT, DROP, CORRUPT or CLEAR installed.
  - The same holds for the handlers that resume a walk: StartIfNeeded, ChannelActive, ChannelRead0, CompleteWait, RunSleep, RunEmitFinite, RunEmitWindow, FinishEmit, RunTask, RunTaken and RunEmitTask.
- The emit ids of the runner are a modelling device. They tie each scheduled tick or shot to its counter. Java captures the counter in a closure instead.
- ScenarioRunner.ScenarioRunnerHandler.RunEmitFinite, ScenarioRunner.ScenarioRunnerHandler.RunEmitWindow, ScenarioRunner.ScenarioRunnerHandler.FinishEmit, ScenarioRunner.ScenarioRunnerHandler.RunTask, ScenarioRunner.ScenarioRunnerHandler.RunTaken, ScenarioRunner.ScenarioRunnerHandler.RunEmitTask: once the scenario moves on, these contracts state only the new step index of the resumed walk. The sends and faults of that walk are stated by `ScenarioRunner.ScenarioRunnerHandler.Advance` and `ScenarioRunner.ScenarioRunnerHandler.Resume`.
- The unknown-step branch of `advance`, which closes the channel, is left out. The step union is closed, so no step reaches it.
- A DISCONNECT fault's `downMs` is only logged by the code, and it is not modelled.
- The close-reason channel attribute is left out. It is modelled as the runner's `closeReason` field.
- Handshake.HandshakeHandler.ChannelRead0, Handshake.HandshakeHandler.Initialize: when the channel carries a fault state, the contract states only the kind of the reply's outcome: sent, scheduled, or IllegalArgument. The exact bytes written are stated only for a channel without a fault state. The send path itself is proved in `OutboundFrameSender`.
- ConnectionLimits.Admit: at a count of `Integer.MAX_VALUE` the increment wraps to `Integer.MIN_VALUE`. There the contract states only that a refused connection leaves the count unchanged. `ConnectionLimits.CounterRestored` covers the wrapped case.
- Registry configuration and counts:
  - The order of configuration maps (`LinkedHashMap`) is modelled as the order of a sequence of entries.
  - The per-endpoint ACTIVE count is unbounded, with no 32-bit overflow.
  - The check of each connect endpoint's `connCount` against the ACTIVE EQPs that use it only logs, and it is not modelled.
- EqpRuntimes.NormalizeVars: the vars map keeps keys and values, but not the insertion order of its `LinkedHashMap`.
- `registry.getTotalEqpCount` is not part of this model. The completion coordinator takes the total as a constructor argument.
- The fixed regular expressions of `preprocessLine` and of the template placeholder are written out as functions. Java's regex engine is not modelled. The configurable pattern of the regex framer is a matcher function with a stated contract: any span it returns lies inside the text.

## Following the code

Where the code and the design description of the simulator differ, the model follows the code:

- A `[Sim] loop=count=N goto=L` line compiles to a GOTO step, because the GOTO key is looked up first. The parser never produces a LOOP step (`ScenarioMdParser.SimGotoWinsOverLoop`, `ScenarioMdParser.SimNeverLoops`).
- A `[EqpToTc]` SEND keeps its whole body as the payload, control tokens included. Only EMIT payloads drop `every`, `window`, `count` and `jitter`.
- `parseDurationToMs` reads a bare number as seconds (`ScenarioMdParser.DurationBareIsSeconds`).
- The loop counter is keyed by the LOOP's goto label, not by the LOOP step's position (`ScenarioRunner.LoopRunsBody`).
- A null log key is not skipped: it is written as the text `null` (`StructuredLog.PairsOf`).
- A WINDOW emit whose window is `Long.MAX_VALUE` throws IllegalArgument at its first offset draw, because `windowMs + 1` wraps. Nothing is scheduled (`ScenarioRunner.ScenarioRunnerHandler.StartWindowEmit`).

# Objective-C generator helpers: the simple line parser and the deprecation attribute

This project models two pieces of the Objective-C code generator of
protobuf and proves properties of them in Dafny.

**The simple line parser.** `ParseSimpleStream` reads a byte stream that
arrives in chunks of any size. It splits the stream into lines on `\n`. In
each line it drops everything from the first `#` and trims spaces and tabs
from both ends. Lines that end up empty are skipped. Each remaining line goes,
in order, to a `LineConsumer`, which accepts it or rejects it with an
optional message. The first rejection stops the parse. The parse then
returns `false` with the single diagnostic
`error: <stream name> Line <n>, <message>`, where `<n>` counts every original
line from 1. If the consumer set no message, the message is
`ConsumeLine failed without setting an error.`

**The deprecation attribute.** `GetOptionalDeprecatedAttribute` builds the
`GPB_DEPRECATED_MSG("...")` attribute placed on generated declarations. It
returns the empty string when nothing is deprecated.
`HasPreservingUnknownEnumSemantics` tells whether a file uses proto3 enum
semantics.

Modules, in dependency order:

- `Strings` (strings.dfy): `Option`, first-index search, and decimal
  rendering of line numbers with its inverse.
- `LineText` (line_text.dfy): comment stripping and trimming of one line.
- `LineConsumer` (line_consumer.dfy): the consumer capability, the fallback
  message, the diagnostic text, and the test collector.
- `LineParser` (line_parser.dfy): the one-shot meaning of a parse. It splits
  the whole input into lines and handles them in order.
- `ChunkParser` (chunk_parser.dfy): the incremental parser. It pulls chunks,
  keeps a partial-line buffer and a line counter, and flushes the buffer at
  end of input. Also `ParseSimpleStream` and the source's block splitting.
- `ChunkInvariance` (chunk_invariance.dfy): the proof that every chunking
  gives the one-shot result. It goes through a byte-at-a-time machine.
- `StreamLoop` (stream_loop.dfy): the same parse written with loops over
  chunks and bytes, proved equal to the one-shot parse.
- `ParseExamples` (parse_examples.dfy): the unit-test cases, each stated for
  every block size.
- `ObjCHelpers` (objc_helpers.dfy): the deprecation attribute and the proto3
  test.

A consumer is a function value `string -> Verdict`, where a verdict is
`Accept` or `Reject(message)`. An empty message stands for "no message set".
A stream is a `seq<string>` of chunks. A `StreamResult` is the boolean
result, the error string, and the lines offered to the consumer. On a
rejection, the offered lines include the rejected line. The test collector
records only the accepted lines, which are the offered lines minus the last
one.

## Model

| member | source | states |
|---|---|---|
| ChunkInvariance.ChunkInvariant | src/google/protobuf/compiler/objectivec/line_consumer_unittest.cc:84-93 | For every chunking of an input, the stream parse offers the same lines and returns the same result and error string as the one-shot parse of the concatenated bytes |
| ChunkInvariance.EveryBlockSize | src/google/protobuf/compiler/objectivec/line_consumer_unittest.cc:69-70 | Splitting the input into blocks of any size, including the whole input at once for size -1, gives the one-shot result |
| ChunkInvariance.SameBytesSameResult | src/google/protobuf/compiler/objectivec/line_consumer_unittest.cc:84-93 | Two chunkings of the same bytes give equal results |
| ChunkInvariance.NothingPending | src/google/protobuf/compiler/objectivec/line_consumer_unittest.cc:79-81 | When the stream parse ends, no partial line is left buffered: an unterminated last line has been handled |
| ChunkInvariance.RunIsFeed | src/google/protobuf/compiler/objectivec/line_consumer_unittest.cc:79-81 | The byte machine over an input, flushed at the end, equals handling the input's lines one after another |
| ChunkInvariance.DrainIsRun | src/google/protobuf/compiler/objectivec/line_consumer_unittest.cc:84-93 | Draining the complete lines out of the buffer (leftover plus new chunk) equals feeding the chunk's bytes one at a time |
| ChunkInvariance.PumpIsRun | src/google/protobuf/compiler/objectivec/line_consumer_unittest.cc:84-93 | Pulling all chunks, and stopping at a rejection, equals running the machine over their concatenation |
| ChunkParser.ParseSimpleStream | src/google/protobuf/compiler/objectivec/line_consumer_unittest.cc:90 | Carries no contract of its own. ChunkInvariance.ChunkInvariant states that it equals the one-shot parse of the concatenated chunks, which LineParser.ParseAllAccepting and LineParser.ParseAllRejecting characterise |
| ChunkParser.ParseChunk | src/google/protobuf/compiler/objectivec/line_consumer_unittest.cc:84-93 | Carries no contract of its own. ChunkInvariance.ParseChunkIsRun states that handling one chunk against the buffered partial line equals feeding the chunk's bytes one at a time |
| ChunkParser.Finish | src/google/protobuf/compiler/objectivec/line_consumer_unittest.cc:79-81 | Carries no contract of its own. ChunkInvariance.FinishIsFlush states that ending the input handles a pending partial line as a last line, and ChunkInvariance.NothingPending that nothing stays buffered |
| ChunkInvariance.ParseChunkIsRun | src/google/protobuf/compiler/objectivec/line_consumer_unittest.cc:84-93 | From a consistent state, handling one chunk gives the state of the byte machine after the chunk's bytes |
| ChunkInvariance.FinishIsFlush | src/google/protobuf/compiler/objectivec/line_consumer_unittest.cc:79-81 | From a consistent state, ending the input equals flushing the byte machine: a pending partial line is handled as the last line |
| LineParser.ParseAll | src/google/protobuf/compiler/objectivec/line_consumer_unittest.cc:72-123 | Carries no contract of its own. LineParser.ParseAllAccepting and LineParser.ParseAllRejecting characterise it |
| LineParser.Lines | src/google/protobuf/compiler/objectivec/line_consumer_unittest.cc:79-81 | Carries no contract of its own. LineParser.LinesJoin and LineParser.LinesOfJoin state that it is the inverse of joining with newlines |
| LineText.Clean | src/google/protobuf/compiler/objectivec/line_consumer_unittest.cc:99-110 | Carries no contract of its own. LineText.CleanSpec, LineText.CommentOnlyLineIsDropped and LineText.CommentAfterText characterise it |
| LineConsumer.Diagnostic | src/google/protobuf/compiler/objectivec/line_consumer_unittest.cc:140-141 | Carries no contract of its own. The text is `error: <stream> Line <n>, <reason>`, the layout the tests expect; LineConsumer.DiagnosticInjective states that it determines the line and the reason |
| StreamLoop.ParseStream | src/google/protobuf/compiler/objectivec/line_consumer_unittest.cc:84-93 | The parse written as loops over chunks and bytes, stopping at the first rejection, returns the one-shot parse of the concatenated chunks |
| ChunkParser.Blocks | src/google/protobuf/compiler/objectivec/line_consumer_unittest.cc:69 | The chunks for a block size concatenate to the input, are never empty, hold at most `size` bytes, and form a single chunk when the size is below 1 |
| LineParser.ParseAllAccepting | src/google/protobuf/compiler/objectivec/line_consumer_unittest.cc:72-123 | The parse succeeds iff the consumer accepts every non-empty cleaned line; it has then offered exactly those lines in input order, counted every line, and left nothing buffered |
| LineParser.ParseAllRejecting | src/google/protobuf/compiler/objectivec/line_consumer_unittest.cc:125-168 | A failed parse stops at line n, counted from 1 over all original lines. That line's cleaned text is non-empty and rejected, every earlier non-empty line was accepted, nothing after line n was offered, and the reason is the consumer's message or the fallback |
| LineParser.FeedAccepting | src/google/protobuf/compiler/objectivec/line_consumer_unittest.cc:84-93 | Handling cleaned texts runs to the end iff every non-empty one is accepted, and then adds exactly the non-empty texts to the offered lines |
| LineParser.FeedRejecting | src/google/protobuf/compiler/objectivec/line_consumer_unittest.cc:133-144 | When handling cleaned texts ends in a rejection at line n, the rejected text is the non-empty text at that position and the reason is the consumer's message or the fallback. Every earlier non-empty text was accepted, and the offered lines grew by the non-empty texts up to and including it |
| LineParser.ReadLine | src/google/protobuf/compiler/objectivec/line_consumer_unittest.cc:79-80 | Reading a line from a buffer finds a line iff the buffer holds a newline; the buffer is then the line, the newline and the rest, and the line holds no newline |
| LineParser.LinesJoin | src/google/protobuf/compiler/objectivec/line_consumer_unittest.cc:79-81 | Splitting loses nothing: the lines joined with newlines give back the input, plus a final newline when the input lacked one, so a trailing newline adds no empty line |
| LineParser.LinesOfJoin | src/google/protobuf/compiler/objectivec/line_consumer_unittest.cc:79-81 | Splitting newline-free lines joined with newlines gives back the same lines |
| LineParser.LinesCons | src/google/protobuf/compiler/objectivec/line_consumer_unittest.cc:105 | The first line of an input is the text before its first newline, and the remaining lines are those of the rest |
| LineText.StripCommentSpec | src/google/protobuf/compiler/objectivec/line_consumer_unittest.cc:99-110 | Stripping a comment keeps a prefix of the line that holds no `#` and stops early only at a `#` |
| LineText.TrimSpec | src/google/protobuf/compiler/objectivec/line_consumer_unittest.cc:76-78 | A trimmed text neither starts nor ends with a space or tab, and is empty iff the input was all blanks |
| LineText.TrimUnique | src/google/protobuf/compiler/objectivec/line_consumer_unittest.cc:76-78 | The trim of a line is exactly its middle part between blank edges; internal whitespace is kept |
| LineText.CleanSpec | src/google/protobuf/compiler/objectivec/line_consumer_unittest.cc:99-110 | A cleaned line holds no `#` and no surrounding blanks; it is empty iff everything before the first `#` is blank |
| LineText.CommentOnlyLineIsDropped | src/google/protobuf/compiler/objectivec/line_consumer_unittest.cc:99-102 | A line whose first non-blank character is `#` cleans to nothing, however many `#` follow |
| LineText.CommentAfterText | src/google/protobuf/compiler/objectivec/line_consumer_unittest.cc:103-104 | Text followed by a comment cleans to the trimmed text |
| LineText.TrimInfix | src/google/protobuf/compiler/objectivec/line_consumer_unittest.cc:76-78 | Every character the trim keeps comes from the input |
| LineConsumer.RejectionReason | src/google/protobuf/compiler/objectivec/line_consumer_unittest.cc:160-164 | The reason of a rejection is never empty: the consumer's message when it set one, else the fixed fallback message |
| LineConsumer.DiagnosticInjective | src/google/protobuf/compiler/objectivec/line_consumer_unittest.cc:140-141 | For one stream name, the diagnostic text determines the line number and the reason it reports |
| Strings.DecimalRoundTrip | src/google/protobuf/compiler/objectivec/line_consumer_unittest.cc:141 | The decimal line number in a diagnostic reads back as the number |
| Strings.NatToDecimalInjective | src/google/protobuf/compiler/objectivec/line_consumer_unittest.cc:141 | Distinct line numbers render as distinct decimal texts |
| ParseExamples.EmptyInput | src/google/protobuf/compiler/objectivec/line_consumer_unittest.cc:74 | Empty input succeeds for every block size, offers nothing and leaves the error string empty |
| ParseExamples.SurroundingBlanks | src/google/protobuf/compiler/objectivec/line_consumer_unittest.cc:76-78 | `"a c"`, `" a c "` and `"\ta c "` each offer only `"a c"`, for every block size |
| ParseExamples.TrailingNewline | src/google/protobuf/compiler/objectivec/line_consumer_unittest.cc:75-79 | `"a"` offers only `"a"`, and `"abc\n"` offers only `"abc"`, for every block size |
| ParseExamples.OneLine | src/google/protobuf/compiler/objectivec/line_consumer_unittest.cc:75-79 | An input of one line, with or without a final newline, succeeds and offers that line's cleaned text, or nothing when the text is empty, for every block size |
| ParseExamples.TextBeforeComment | src/google/protobuf/compiler/objectivec/line_consumer_unittest.cc:103-104 | A single line of non-blank text followed by a comment, with or without a closing newline, offers the trimmed text alone, for every block size; `"a# n o t # h i n g #"` (line 108) has the same shape |
| ParseExamples.CommentOnly | src/google/protobuf/compiler/objectivec/line_consumer_unittest.cc:99-101 | A single line whose first non-blank character is `#` offers nothing and succeeds, for every block size |
| ParseExamples.CommentLineBetween | src/google/protobuf/compiler/objectivec/line_consumer_unittest.cc:105 | Text, a comment-only line, and text offer the two trimmed texts in input order, for every block size |
| ParseExamples.RejectAt | src/google/protobuf/compiler/objectivec/line_consumer_unittest.cc:126-165 | For `"a\nb\nc"` with or without a final newline, rejecting the k-th letter fails with `error: dummy Line k, ` and the collector's message, or the fallback when it sets none, for every block size |
| ParseExamples.CollectorRejects | src/google/protobuf/compiler/objectivec/line_consumer_unittest.cc:50-58 | For every input, the collector that rejects x fails the parse iff x is one of the input's non-empty cleaned lines. The failing line is then the first whose cleaned text is x, and the reason is `Rejected '<x>'`, or the fallback message when the collector is told to skip its message |
| ParseExamples.CollectorNoneAccepts | src/google/protobuf/compiler/objectivec/line_consumer_unittest.cc:50-60 | A collector without a reject line lets every parse succeed and is offered every non-empty cleaned line, in order |
| ParseExamples.BlankThenComment | src/google/protobuf/compiler/objectivec/line_consumer_unittest.cc:102 | An empty line, then a comment-only line, then a newline: success with nothing offered, for every block size |
| ParseExamples.TextThenCommentLine | src/google/protobuf/compiler/objectivec/line_consumer_unittest.cc:109 | A line of text, then a comment-only last line without a closing newline: only the trimmed text is offered, for every block size |
| ParseExamples.TwoTextLines | src/google/protobuf/compiler/objectivec/line_consumer_unittest.cc:80 | Two lines of text without a closing newline: both trimmed texts are offered in input order, internal blanks kept, for every block size |
| ParseExamples.BlankLinesAround | src/google/protobuf/compiler/objectivec/line_consumer_unittest.cc:81 | An empty line, two text lines and an empty line: only the two trimmed texts are offered, in input order, for every block size |
| ObjCHelpers.GetOptionalDeprecatedAttribute | src/google/protobuf/compiler/objectivec/helpers.h:100-135 | The result is empty iff neither the descriptor nor a passed file is deprecated. A deprecated descriptor gives `<full name> is deprecated (see <file name>).`, and otherwise a deprecated file gives `<file name> is deprecated.`. The message sits inside the macro, with a leading space iff `preSpace` and a trailing newline iff `postNewline` |
| ObjCHelpers.AttributeRoundTrip | src/google/protobuf/compiler/objectivec/helpers.h:124-130 | The attribute text reads back as its leading space, its message and its trailing newline, so each part is recoverable from the generated text |
| ObjCHelpers.ParseAttributeSound | src/google/protobuf/compiler/objectivec/helpers.h:124-130 | Conversely, a text that reads as an attribute is exactly the attribute text built from its parts, so the parts determine the text |
| ObjCHelpers.DeprecationMessage | src/google/protobuf/compiler/objectivec/helpers.h:114-122 | Carries no contract of its own. ObjCHelpers.GetOptionalDeprecatedAttribute, ObjCHelpers.DescriptorDeprecationWins and ObjCHelpers.NoFileNoFileLevelDeprecation state which message it gives |
| ObjCHelpers.DescriptorDeprecationWins | src/google/protobuf/compiler/objectivec/helpers.h:109-113 | A deprecated descriptor gets the same attribute whatever file is passed |
| ObjCHelpers.NoFileNoFileLevelDeprecation | src/google/protobuf/compiler/objectivec/helpers.h:109-110 | Without a file, the attribute is empty iff the descriptor is not deprecated |
| ObjCHelpers.HasPreservingUnknownEnumSemantics | src/google/protobuf/compiler/objectivec/helpers.h:47-49 | Carries no contract: it is the source's one-line comparison at helpers.h:48, true exactly for a file whose syntax is proto3, written out as that comparison; nothing else in the model depends on it |

## Left out

- The implementation file of the parser, `line_consumer.cc`, is not part of this model. The unit tests fix the observable behaviour. The model also makes three assumptions that the tests neither confirm nor rule out: lines split on `\n` only (a `\r` is ordinary text), comments start at the first `#`, and only spaces and tabs are trimmed.
- `io::ArrayInputStream` and zero-copy stream mechanics are I/O plumbing. A stream is a sequence of chunks, and `ChunkParser.Blocks` reproduces the block sizes the tests use.
- Read failures of the underlying stream are not modelled, because nothing shown exercises them.
- The line counter is an unbounded natural number. Overflow of the implementation's fixed-width counter is not modelled, since the implementation is not visible.
- The gtest framework and the mutable output vector are left out. The collected lines are a returned sequence.
- The functions of `helpers.h` that are only declared there are left out, because their bodies are not visible. These are `EscapeTrigraphs`, `GetCapitalizedType`, `GetObjectiveCType`, `GPBGenericValueFieldName`, `DefaultValue`, `BuildFlagsString`, `ObjCClass`, `ObjCClassDeclaration` and `BuildCommentsString`.
- Descriptor internals and option protos are reduced to records. They carry the full name, the file name, the `deprecated` option and the syntax.
- `GetOptionalDeprecatedAttribute` is one function over a single descriptor record rather than a template over descriptor kinds. The default arguments (`file = NULL`, `preSpace = true`, `postNewline = false`) are ordinary parameters. Both messages name the file the descriptor was declared in, not the file passed in, as the code does. The message is inserted without escaping, as in the code.
- Every literal input of the success and comment tests has a lemma. `ParseExamples.EmptyInput`, `ParseExamples.SurroundingBlanks`, `ParseExamples.TrailingNewline` and `ParseExamples.RejectAt` are stated for the literal strings of the tests. The others are stated for arbitrary text of the same shape, which covers each literal: `ParseExamples.TwoTextLines`, `ParseExamples.BlankLinesAround`, `ParseExamples.CommentOnly`, `ParseExamples.BlankThenComment`, `ParseExamples.TextBeforeComment`, `ParseExamples.CommentLineBetween` and `ParseExamples.TextThenCommentLine`.

/** The incremental parser behind ParseSimpleStream: the input arrives as
    chunks of any size; each chunk is appended to the bytes left over from
    the previous one, every newline-terminated line in that buffer is
    handled, and what follows the last newline is kept for the next chunk.
    At the end of input a non-empty leftover is flushed as a final line. */
module ChunkParser {
  import opened Strings
  import opened LineConsumer
  import opened LineParser

  /** Handles every complete line at the front of `input`, stopping at a
      rejection; keeps the unterminated rest as the leftover. */
  function DrainLines(p: Parser, input: string, consumer: Consumer): Parser
    decreases |input|
  {
    match ReadLine(input)
    case None => p.(leftover := input)
    case Some((line, rest)) =>
      var q := HandleLine(p, line, consumer);
      if q.outcome.Rejected? then q.(leftover := [])
      else DrainLines(q, rest, consumer)
  }

  /** One chunk from the source. */
  function ParseChunk(p: Parser, chunk: string, consumer: Consumer): Parser
  {
    DrainLines(p.(leftover := []), p.leftover + chunk, consumer)
  }

  /** Pulls chunks until the source is exhausted or a line is rejected; no
      chunk after a rejection is read. */
  function Pump(p: Parser, chunks: seq<string>, consumer: Consumer): Parser
    decreases |chunks|
  {
    if chunks == [] || p.outcome.Rejected? then p
    else Pump(ParseChunk(p, chunks[0], consumer), chunks[1..], consumer)
  }

  /** End of input: unterminated trailing bytes form one last line. */
  function Finish(p: Parser, consumer: Consumer): Parser
  {
    if p.leftover != [] then ParseChunk(p, [Newline], consumer) else p
  }

  /** What ParseSimpleStream hands back: the boolean result, the error string
      (left empty on success), and the lines offered to the consumer. */
  datatype StreamResult = StreamResult(ok: bool, error: string, offered: seq<string>)

  /** The caller-visible result of a finished parser. */
  function Report(streamName: string, p: Parser): StreamResult
  {
    match p.outcome
    case Ok => StreamResult(true, [], p.offered)
    case Rejected(n, reason) => StreamResult(false, Diagnostic(streamName, n, reason), p.offered)
  }

  /** Parses a chunked stream. */
  function ParseSimpleStream(chunks: seq<string>, streamName: string, consumer: Consumer): StreamResult
  {
    var p := Pump(Start, chunks, consumer);
    Report(streamName, if p.outcome.Rejected? then p else Finish(p, consumer))
  }

  /** The same parse over the whole input at once, through the one-shot
      meaning of the parser. */
  function ParseSimpleText(s: string, streamName: string, consumer: Consumer): StreamResult
  {
    Report(streamName, ParseAll(s, consumer))
  }

  /** The bytes of a chunked stream, in order. */
  function Concat(chunks: seq<string>): string
  {
    if chunks == [] then [] else chunks[0] + Concat(chunks[1..])
  }

  /** The chunks an array-backed source returns for block size `size`: pieces
      of at most `size` bytes, never empty; a size below 1 (the tests use -1)
      returns the whole input as one chunk. */
  function Blocks(s: string, size: int): (r: seq<string>)
    ensures Concat(r) == s
    ensures forall i :: 0 <= i < |r| ==> r[i] != []
    ensures size >= 1 ==> forall i :: 0 <= i < |r| ==> |r[i]| <= size
    ensures size < 1 ==> |r| <= 1
    decreases |s|
  {
    if s == [] then []
    else if size < 1 || |s| <= size then
      assert Concat([s]) == s + Concat([]);
      [s]
    else
      var rest := Blocks(s[size..], size);
      assert ([s[..size]] + rest)[1..] == rest;
      assert s[..size] + s[size..] == s;
      [s[..size]] + rest
  }
}

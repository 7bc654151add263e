/** Chunk invariance of the simple line parser: however the input is cut
    into chunks, the incremental parser offers the same lines and ends with
    the same result as the one-shot parse of the whole input.

    The proof goes through a byte-at-a-time machine, Run, which composes
    trivially over concatenation. The chunk parser is shown to agree with it
    on every chunk, and the one-shot parse is shown to agree with it on the
    whole input. */
module ChunkInvariance {
  import opened Strings
  import opened LineConsumer
  import opened LineParser
  import opened ChunkParser

  /** The current line is complete: handle it and start an empty one. */
  function EndLine(p: Parser, consumer: Consumer): Parser
  {
    HandleLine(p.(leftover := []), p.leftover, consumer)
  }

  /** One byte of input. */
  function Step(p: Parser, c: char, consumer: Consumer): Parser
  {
    if p.outcome.Rejected? then p
    else if c == Newline then EndLine(p, consumer)
    else p.(leftover := p.leftover + [c])
  }

  /** Bytes in order. */
  function Run(p: Parser, s: string, consumer: Consumer): Parser
    decreases |s|
  {
    if s == [] then p else Run(Step(p, s[0], consumer), s[1..], consumer)
  }

  /** End of input for the byte machine. */
  function Flush(p: Parser, consumer: Consumer): Parser
  {
    if p.outcome.Ok? && p.leftover != [] then EndLine(p, consumer) else p
  }

  /** The parser invariant: the leftover never holds a newline, and nothing
      is left over once a line was rejected. */
  predicate Valid(p: Parser) {
    Newline !in p.leftover && (p.outcome.Rejected? ==> p.leftover == [])
  }

  lemma {:induction false} RunAppend(p: Parser, a: string, b: string, consumer: Consumer)
    ensures Run(p, a + b, consumer) == Run(Run(p, a, consumer), b, consumer)
    decreases |a|
  {
    if a != [] {
      assert (a + b)[0] == a[0];
      assert (a + b)[1..] == a[1..] + b;
      RunAppend(Step(p, a[0], consumer), a[1..], b, consumer);
    } else {
      assert a + b == b;
    }
  }

  lemma {:induction false} RunRejected(p: Parser, s: string, consumer: Consumer)
    requires p.outcome.Rejected?
    ensures Run(p, s, consumer) == p
    decreases |s|
  {
    if s != [] {
      RunRejected(p, s[1..], consumer);
    }
  }

  /** Without a newline the machine only buffers. */
  lemma {:induction false} RunNoNewline(p: Parser, s: string, consumer: Consumer)
    requires p.outcome.Ok? && Newline !in s
    ensures Run(p, s, consumer) == p.(leftover := p.leftover + s)
    decreases |s|
  {
    if s != [] {
      assert s[1..] == s[1..] && Newline !in s[1..] by {
        assert forall i :: 0 <= i < |s[1..]| ==> s[1..][i] == s[i + 1];
      }
      RunNoNewline(Step(p, s[0], consumer), s[1..], consumer);
      assert p.leftover + [s[0]] + s[1..] == p.leftover + s;
    }
  }

  /** Reading one line out of the buffer: the machine runs the line's bytes
      into the buffer, ends the line at the newline, and carries on. */
  lemma {:induction false} RunThroughLine(p: Parser, line: string, rest: string, consumer: Consumer)
    requires p.outcome.Ok? && Newline !in line
    ensures Run(p, line + [Newline] + rest, consumer)
         == Run(EndLine(p.(leftover := p.leftover + line), consumer), rest, consumer)
  {
    RunAppend(p, line + [Newline], rest, consumer);
    RunAppend(p, line, [Newline], consumer);
    RunNoNewline(p, line, consumer);
  }

  /** The machine keeps the parser invariant. */
  lemma {:induction false} RunValid(p: Parser, s: string, consumer: Consumer)
    requires Valid(p)
    ensures Valid(Run(p, s, consumer))
    decreases |s|
  {
    if s != [] {
      var q := Step(p, s[0], consumer);
      assert Valid(q) by {
        if p.outcome.Ok? && s[0] != Newline {
          assert q.leftover == p.leftover + [s[0]];
        }
      }
      RunValid(q, s[1..], consumer);
    }
  }

  /** Draining a buffer whose head `b` holds no newline does what the byte
      machine does when it has already buffered `b` and then reads `x`. */
  lemma {:induction false} DrainIsRun(p: Parser, b: string, x: string, consumer: Consumer)
    requires p.outcome.Ok? && Newline !in b
    ensures DrainLines(p.(leftover := []), b + x, consumer) == Run(p.(leftover := b), x, consumer)
    decreases |x|
  {
    ReadLineAfter(b, x);
    var r := ReadLine(x);
    if r.None? {
      RunNoNewline(p.(leftover := b), x, consumer);
    } else {
      DrainThroughLine(p, b, r.value.0, r.value.1, consumer);
    }
  }

  /** The step of DrainIsRun for a buffer holding a newline. */
  lemma {:induction false} DrainThroughLine(p: Parser, b: string, y: string, rest: string, consumer: Consumer)
    requires p.outcome.Ok? && Newline !in b && Newline !in y
    requires ReadLine(b + (y + [Newline] + rest)) == Some((b + y, rest))
    ensures DrainLines(p.(leftover := []), b + (y + [Newline] + rest), consumer)
         == Run(p.(leftover := b), y + [Newline] + rest, consumer)
    decreases |y + [Newline] + rest|, 0
  {
    var q := HandleLine(p.(leftover := []), b + y, consumer);
    RunThroughLine(p.(leftover := b), y, rest, consumer);
    assert EndLine(p.(leftover := b + y), consumer) == q;
    if q.outcome.Rejected? {
      RunRejected(q, rest, consumer);
    } else {
      assert q.(leftover := []) == q;
      assert [] + rest == rest;
      DrainIsRun(q, [], rest, consumer);
    }
  }

  /** One chunk through the incremental parser is the chunk's bytes through
      the machine. */
  lemma {:induction false} ParseChunkIsRun(p: Parser, chunk: string, consumer: Consumer)
    requires p.outcome.Ok? && Valid(p)
    ensures ParseChunk(p, chunk, consumer) == Run(p, chunk, consumer)
  {
    DrainIsRun(p, p.leftover, chunk, consumer);
    assert p.(leftover := p.leftover) == p;
  }

  /** All chunks through the incremental parser are their concatenation
      through the machine. */
  lemma {:induction false} PumpIsRun(p: Parser, chunks: seq<string>, consumer: Consumer)
    requires Valid(p)
    ensures Pump(p, chunks, consumer) == Run(p, Concat(chunks), consumer)
    decreases |chunks|
  {
    if chunks == [] {
    } else if p.outcome.Rejected? {
      RunRejected(p, Concat(chunks), consumer);
    } else {
      var q := ParseChunk(p, chunks[0], consumer);
      ParseChunkIsRun(p, chunks[0], consumer);
      RunAppend(p, chunks[0], Concat(chunks[1..]), consumer);
      RunValid(p, chunks[0], consumer);
      PumpIsRun(q, chunks[1..], consumer);
    }
  }

  /** The end-of-input flush of the incremental parser is the machine's. */
  lemma {:induction false} FinishIsFlush(p: Parser, consumer: Consumer)
    requires p.outcome.Ok? && Valid(p)
    ensures Finish(p, consumer) == Flush(p, consumer)
  {
    if p.leftover != [] {
      ParseChunkIsRun(p, [Newline], consumer);
      assert Run(p, [Newline], consumer) == Run(Step(p, Newline, consumer), [], consumer);
    }
  }

  /** The machine over a whole input, flushed, is the one-shot parse over the
      input's lines, from any state with an empty buffer. */
  lemma {:induction false} RunIsFeed(p: Parser, s: string, consumer: Consumer)
    requires p.outcome.Ok? && p.leftover == []
    ensures Flush(Run(p, s, consumer), consumer) == Feed(p, Lines(s), consumer)
    decreases |s|
  {
    match ReadLine(s)
    case None =>
      RunNoNewline(p, s, consumer);
      if s != [] {
        assert Lines(s) == [s];
        assert [] + s == s;
        assert Feed(p, [s], consumer) == Feed(HandleLine(p, s, consumer), [], consumer);
        assert p.(leftover := []) == p;
      } else {
        assert p.(leftover := []) == p;
      }
    case Some((l, rest)) =>
      assert Lines(s) == [l] + Lines(rest);
      assert ([l] + Lines(rest))[1..] == Lines(rest);
      RunThroughLine(p, l, rest, consumer);
      assert [] + l == l;
      var h := HandleLine(p, l, consumer);
      assert EndLine(p.(leftover := l), consumer) == h;
      if h.outcome.Rejected? {
        RunRejected(h, rest, consumer);
      } else {
        RunIsFeed(h, rest, consumer);
      }
  }

  /** Chunk invariance: for every chunking of an input, ParseSimpleStream
      offers the same lines and returns the same result and error string as
      the one-shot parse of the concatenated input. */
  lemma {:induction false} ChunkInvariant(chunks: seq<string>, streamName: string, consumer: Consumer)
    ensures ParseSimpleStream(chunks, streamName, consumer)
         == ParseSimpleText(Concat(chunks), streamName, consumer)
  {
    var s := Concat(chunks);
    PumpIsRun(Start, chunks, consumer);
    var p := Pump(Start, chunks, consumer);
    RunValid(Start, s, consumer);
    RunIsFeed(Start, s, consumer);
    if p.outcome.Ok? {
      FinishIsFlush(p, consumer);
    }
  }

  /** Any two chunkings of the same bytes give the same result. */
  lemma SameBytesSameResult(a: seq<string>, b: seq<string>, streamName: string, consumer: Consumer)
    requires Concat(a) == Concat(b)
    ensures ParseSimpleStream(a, streamName, consumer) == ParseSimpleStream(b, streamName, consumer)
  {
    ChunkInvariant(a, streamName, consumer);
    ChunkInvariant(b, streamName, consumer);
  }

  /** The block sizes the unit tests run every case with: whole input, 1, 2,
      5 and 64 bytes. Each gives the one-shot result. */
  lemma {:induction false} EveryBlockSize(s: string, size: int, streamName: string, consumer: Consumer)
    ensures ParseSimpleStream(Blocks(s, size), streamName, consumer)
         == ParseSimpleText(s, streamName, consumer)
  {
    ChunkInvariant(Blocks(s, size), streamName, consumer);
  }

  /** At the end of the stream nothing is left buffered. */
  lemma {:induction false} NothingPending(chunks: seq<string>, consumer: Consumer)
    ensures var p := Pump(Start, chunks, consumer);
            (if p.outcome.Rejected? then p else Finish(p, consumer)).leftover == []
  {
    var s := Concat(chunks);
    PumpIsRun(Start, chunks, consumer);
    var p := Pump(Start, chunks, consumer);
    RunValid(Start, s, consumer);
    RunIsFeed(Start, s, consumer);
    FeedTextsKeepsLeftover(Start, CleanAll(Lines(s)), consumer);
    FeedCleans(Start, Lines(s), consumer);
    if p.outcome.Ok? {
      FinishIsFlush(p, consumer);
    }
  }
}

/** The stream parse written with loops over chunks and bytes: an outer loop
    over the chunks the input source returns, and inside it a loop over the
    bytes of the chunk that buffers a partial line and hands over each
    complete one. */
module StreamLoop {
  import opened Strings
  import opened LineConsumer
  import opened LineParser
  import opened ChunkParser
  import opened ChunkInvariance

  lemma {:induction false} ConcatSplit(chunks: seq<string>, i: nat)
    requires i < |chunks|
    ensures Concat(chunks[..i + 1]) == Concat(chunks[..i]) + chunks[i]
    ensures Concat(chunks) == Concat(chunks[..i]) + Concat(chunks[i..])
    decreases i
  {
    if i == 0 {
      assert chunks[..1] == [chunks[0]];
      assert Concat([chunks[0]]) == chunks[0] + Concat([]);
      assert chunks[0..] == chunks;
    } else {
      var tail := chunks[1..];
      ConcatSplit(tail, i - 1);
      assert chunks[..i + 1][1..] == tail[..i];
      assert chunks[..i][1..] == tail[..i - 1];
      assert chunks[i..] == tail[i - 1..];
    }
  }

  /** One more byte through the machine. */
  lemma {:induction false} RunSnoc(p: Parser, s: string, c: char, consumer: Consumer)
    ensures Run(p, s + [c], consumer) == Step(Run(p, s, consumer), c, consumer)
  {
    RunAppend(p, s, [c], consumer);
    assert Run(Run(p, s, consumer), [c], consumer)
        == Run(Step(Run(p, s, consumer), c, consumer), [], consumer);
  }

  /** The inner loop stops at the end of the chunk or at a rejection; either
      way the state is that of the machine over the whole chunk. */
  lemma {:induction false} RestOfChunk(p: Parser, seen: string, chunk: string, j: nat, consumer: Consumer)
    requires j <= |chunk|
    requires j < |chunk| ==> Run(p, seen + chunk[..j], consumer).outcome.Rejected?
    ensures Run(p, seen + chunk[..j], consumer) == Run(p, seen + chunk, consumer)
  {
    if j < |chunk| {
      RunAppend(p, seen + chunk[..j], chunk[j..], consumer);
      RunRejected(Run(p, seen + chunk[..j], consumer), chunk[j..], consumer);
      assert seen + chunk[..j] + chunk[j..] == seen + chunk;
    } else {
      assert chunk[..j] == chunk;
    }
  }

  /** Parses a chunked stream with loops, stopping at the first rejected
      line. The result is the one-shot parse of the concatenated chunks. */
  method ParseStream(chunks: seq<string>, streamName: string, consumer: Consumer) returns (r: StreamResult)
    ensures r == ParseSimpleText(Concat(chunks), streamName, consumer)
  {
    var p := Start;
    var i := 0;
    while i < |chunks| && p.outcome.Ok?
      invariant 0 <= i <= |chunks|
      invariant p == Run(Start, Concat(chunks[..i]), consumer)
    {
      var chunk := chunks[i];
      ghost var seen := Concat(chunks[..i]);
      var j := 0;
      assert seen + chunk[..j] == seen;
      while j < |chunk| && p.outcome.Ok?
        invariant 0 <= j <= |chunk|
        invariant p == Run(Start, seen + chunk[..j], consumer)
      {
        RunSnoc(Start, seen + chunk[..j], chunk[j], consumer);
        assert seen + chunk[..j + 1] == seen + chunk[..j] + [chunk[j]];
        if chunk[j] == Newline {
          p := HandleLine(p.(leftover := []), p.leftover, consumer);
        } else {
          p := p.(leftover := p.leftover + [chunk[j]]);
        }
        j := j + 1;
      }
      ConcatSplit(chunks, i);
      RestOfChunk(Start, seen, chunk, j, consumer);
      i := i + 1;
    }
    if i < |chunks| {
      ConcatSplit(chunks, i);
      RunAppend(Start, Concat(chunks[..i]), Concat(chunks[i..]), consumer);
      RunRejected(p, Concat(chunks[i..]), consumer);
    } else {
      assert chunks[..i] == chunks;
    }
    if p.outcome.Ok? && p.leftover != [] {
      p := HandleLine(p.(leftover := []), p.leftover, consumer);
    }
    RunIsFeed(Start, Concat(chunks), consumer);
    r := Report(streamName, p);
  }
}

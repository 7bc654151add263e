/** The one-shot meaning of the simple line parser: split the whole input
    into logical lines, clean each one, offer the non-empty ones to the
    consumer in order, and stop at the first rejection, remembering the
    original 1-based number of the rejected line. */
module LineParser {
  import opened Strings
  import opened LineText
  import opened LineConsumer

  const Newline: char := '\n'

  /** How a parse ended: every line was handled, or the consumer rejected
      line `line` and `reason` is what the diagnostic reports. */
  datatype Outcome = Ok | Rejected(line: nat, reason: string)

  /** The parser's state: the number of logical lines completed so far, the
      bytes of the current line not yet ended by a newline, every line offered
      to the consumer, and the outcome so far. */
  datatype Parser = Parser(line: nat, leftover: string, offered: seq<string>, outcome: Outcome)

  const Start: Parser := Parser(0, [], [], Ok)

  /** Splits off the first line ended by a newline, if there is one. */
  function ReadLine(input: string): (r: Option<(string, string)>)
    ensures r.None? <==> Newline !in input
    ensures r.Some? ==> input == r.value.0 + [Newline] + r.value.1 && Newline !in r.value.0
  {
    match IndexOf(input, Newline)
    case None => None
    case Some(k) =>
      assert input == input[..k] + [Newline] + input[k + 1..];
      Some((input[..k], input[k + 1..]))
  }

  /** Reading a line through a newline-free prefix extends the line read. */
  lemma {:induction false} ReadLineAfter(b: string, x: string)
    requires Newline !in b
    ensures ReadLine(x).None? ==> ReadLine(b + x).None?
    ensures ReadLine(x).Some? ==>
              ReadLine(b + x) == Some((b + ReadLine(x).value.0, ReadLine(x).value.1))
  {
    IndexOfAfter(b, x, Newline);
    if IndexOf(x, Newline).Some? {
      var k := IndexOf(x, Newline).value;
      var s := b + x;
      assert IndexOf(s, Newline) == Some(|b| + k);
      assert s[..|b| + k] == b + x[..k];
      assert s[|b| + k + 1..] == x[k + 1..];
    }
  }

  /** The logical lines of a whole input: the text between newlines, plus the
      text after the last newline when there is any. A final newline does not
      start an extra, empty line. */
  function Lines(s: string): seq<string>
    decreases |s|
  {
    match ReadLine(s)
    case None => if s == [] then [] else [s]
    case Some((l, rest)) => [l] + Lines(rest)
  }

  /** The inverse of Lines: every line followed by a newline. */
  function JoinLines(lines: seq<string>): string
  {
    if lines == [] then [] else lines[0] + [Newline] + JoinLines(lines[1..])
  }

  predicate NoNewlines(lines: seq<string>) {
    forall i :: 0 <= i < |lines| ==> Newline !in lines[i]
  }

  /** Lines loses nothing: joining the lines gives back the input, up to the
      newline that ends the last line when the input did not end with one.
      No line holds a newline. */
  lemma {:induction false} LinesJoin(s: string)
    ensures NoNewlines(Lines(s))
    ensures s == [] || s[|s| - 1] == Newline ==> JoinLines(Lines(s)) == s
    ensures s != [] && s[|s| - 1] != Newline ==> JoinLines(Lines(s)) == s + [Newline]
    decreases |s|
  {
    match ReadLine(s)
    case None =>
      if s != [] {
        assert Lines(s) == [s];
        assert s[|s| - 1] in s;
        assert JoinLines([s]) == s + [Newline] + JoinLines([]);
      }
    case Some((l, rest)) =>
      LinesJoin(rest);
      assert Lines(s) == [l] + Lines(rest);
      assert Lines(s)[1..] == Lines(rest);
      if rest != [] {
        assert s[|s| - 1] == rest[|rest| - 1];
      }
  }

  /** The first line of an input is the text before its first newline. */
  lemma {:induction false} LinesCons(l: string, rest: string)
    requires Newline !in l
    ensures Lines(l + [Newline] + rest) == [l] + Lines(rest)
  {
    ReadLineAfter(l, [Newline] + rest);
    assert l + [Newline] + rest == l + ([Newline] + rest);
    assert IndexOf([Newline] + rest, Newline) == Some(0);
  }

  /** An input without a newline is a single line, unless it is empty. */
  lemma {:induction false} LinesSingle(l: string)
    requires Newline !in l && l != []
    ensures Lines(l) == [l]
  {
  }

  /** Splitting joined lines gives the same lines back, as long as none of
      them holds a newline. */
  lemma {:induction false} LinesOfJoin(lines: seq<string>)
    requires NoNewlines(lines)
    ensures Lines(JoinLines(lines)) == lines
  {
    if lines != [] {
      var rest := lines[1..];
      assert NoNewlines(rest) by {
        forall i | 0 <= i < |rest| ensures Newline !in rest[i] {
          assert rest[i] == lines[i + 1];
        }
      }
      assert Newline !in lines[0];
      LinesCons(lines[0], JoinLines(rest));
      LinesOfJoin(rest);
      assert [lines[0]] + rest == lines;
    }
  }

  /** The parser's reaction to the cleaned text of one complete logical
      line: the line counter moves on; an empty text is skipped; otherwise
      the text is offered to the consumer, and a rejection records the line
      number and the reason. */
  function Offer(p: Parser, text: string, consumer: Consumer): Parser
  {
    var n := p.line + 1;
    if text == [] then p.(line := n)
    else
      match consumer(text)
      case Accept => p.(line := n, offered := p.offered + [text])
      case Reject(message) =>
        p.(line := n, offered := p.offered + [text], outcome := Rejected(n, RejectionReason(message)))
  }

  /** One complete raw logical line, as the parser handles it. */
  function HandleLine(p: Parser, raw: string, consumer: Consumer): Parser
  {
    Offer(p, Clean(raw), consumer)
  }

  /** Handles complete lines in order, stopping at the first rejection. */
  function Feed(p: Parser, lines: seq<string>, consumer: Consumer): Parser
    decreases |lines|
  {
    if lines == [] || p.outcome.Rejected? then p
    else Feed(HandleLine(p, lines[0], consumer), lines[1..], consumer)
  }

  /** The one-shot parse of a whole input. */
  function ParseAll(s: string, consumer: Consumer): Parser
  {
    Feed(Start, Lines(s), consumer)
  }

  /** `f` applied to every line. */
  function MapLines(f: string -> string, lines: seq<string>): (r: seq<string>)
    ensures |r| == |lines|
  {
    if lines == [] then [] else [f(lines[0])] + MapLines(f, lines[1..])
  }

  lemma {:induction false} MapLinesAt(f: string -> string, lines: seq<string>, i: nat)
    requires i < |lines|
    ensures MapLines(f, lines)[i] == f(lines[i])
  {
    if i > 0 {
      MapLinesAt(f, lines[1..], i - 1);
    }
  }

  lemma {:induction false} MapLinesPrefix(f: string -> string, lines: seq<string>, k: nat)
    requires k <= |lines|
    ensures MapLines(f, lines[..k]) == MapLines(f, lines)[..k]
  {
    if k > 0 {
      assert lines[..k][1..] == lines[1..][..k - 1];
      MapLinesPrefix(f, lines[1..], k - 1);
    }
  }

  /** The cleaned text of every line. */
  function CleanAll(lines: seq<string>): seq<string>
  {
    MapLines(Clean, lines)
  }

  /** Offers cleaned texts in order, stopping at the first rejection. */
  function FeedTexts(p: Parser, texts: seq<string>, consumer: Consumer): Parser
    decreases |texts|
  {
    if texts == [] || p.outcome.Rejected? then p
    else FeedTexts(Offer(p, texts[0], consumer), texts[1..], consumer)
  }

  /** Feeding raw lines is offering their cleaned texts. */
  lemma {:induction false} FeedCleans(p: Parser, lines: seq<string>, consumer: Consumer)
    ensures Feed(p, lines, consumer) == FeedTexts(p, CleanAll(lines), consumer)
    decreases |lines|
  {
    if lines != [] && p.outcome.Ok? {
      var c := CleanAll(lines);
      assert c == [Clean(lines[0])] + CleanAll(lines[1..]);
      FeedCleans(HandleLine(p, lines[0], consumer), lines[1..], consumer);
    }
  }

  /** The non-empty texts, in order: what a consumer is offered when it
      rejects nothing. */
  function NonEmpty(texts: seq<string>): (r: seq<string>)
    ensures |r| <= |texts|
    ensures forall i :: 0 <= i < |r| ==> r[i] != []
  {
    if texts == [] then []
    else (if texts[0] == [] then [] else [texts[0]]) + NonEmpty(texts[1..])
  }

  lemma {:induction false} NonEmptyConcat(a: seq<string>, b: seq<string>)
    ensures NonEmpty(a + b) == NonEmpty(a) + NonEmpty(b)
  {
    if a != [] {
      assert (a + b)[0] == a[0];
      assert (a + b)[1..] == a[1..] + b;
      NonEmptyConcat(a[1..], b);
    } else {
      assert a + b == b;
    }
  }

  predicate AllAccepted(texts: seq<string>, consumer: Consumer) {
    forall i :: 0 <= i < |texts| ==> consumer(texts[i]) == Accept
  }

  /** Offering only ever touches the counter, the offered lines and the
      outcome. */
  lemma {:induction false} FeedTextsKeepsLeftover(p: Parser, texts: seq<string>, consumer: Consumer)
    ensures FeedTexts(p, texts, consumer).leftover == p.leftover
    decreases |texts|
  {
    if texts != [] && p.outcome.Ok? {
      FeedTextsKeepsLeftover(Offer(p, texts[0], consumer), texts[1..], consumer);
    }
  }

  /** Offering without a rejection: it runs to the end exactly when the
      consumer accepts every non-empty text, and then the offered lines grow
      by exactly the non-empty texts and the counter by the number of lines. */
  lemma {:induction false} FeedAccepting(p: Parser, texts: seq<string>, consumer: Consumer)
    requires p.outcome == Ok
    ensures FeedTexts(p, texts, consumer).outcome == Ok <==> AllAccepted(NonEmpty(texts), consumer)
    ensures FeedTexts(p, texts, consumer).outcome == Ok ==>
              && FeedTexts(p, texts, consumer).offered == p.offered + NonEmpty(texts)
              && FeedTexts(p, texts, consumer).line == p.line + |texts|
    decreases |texts|
  {
    if texts != [] {
      var h := Offer(p, texts[0], consumer);
      var front := if texts[0] == [] then [] else [texts[0]];
      assert NonEmpty(texts) == front + NonEmpty(texts[1..]);
      AllAcceptedConcat(front, NonEmpty(texts[1..]), consumer);
      if h.outcome.Ok? {
        FeedAccepting(h, texts[1..], consumer);
      } else {
        assert front == [texts[0]] && consumer(front[0]) != Accept;
      }
    }
  }

  /** What a batch of texts looks like when offering it took the parser from
      `p` to the rejected state `q` at line n, the k-th text of the batch:
      that text is non-empty and rejected, every non-empty text before it was
      accepted, the offered lines grew by the non-empty texts up to and
      including it, and the reason is the consumer's message or the
      fallback. */
  predicate RejectedAfter(p: Parser, texts: seq<string>, consumer: Consumer, q: Parser)
  {
    && q.outcome.Rejected?
    && p.line < q.outcome.line == q.line
    && var k := q.outcome.line - p.line;
    && k <= |texts|
    && texts[k - 1] != []
    && consumer(texts[k - 1]).Reject?
    && q.outcome.reason == RejectionReason(consumer(texts[k - 1]).message)
    && AllAccepted(NonEmpty(texts[..k - 1]), consumer)
    && q.offered == p.offered + NonEmpty(texts[..k])
  }

  /** A rejection of the very first text. */
  lemma {:induction false} RejectedAtFirst(p: Parser, texts: seq<string>, consumer: Consumer)
    requires p.outcome == Ok && texts != []
    requires Offer(p, texts[0], consumer).outcome.Rejected?
    ensures RejectedAfter(p, texts, consumer, Offer(p, texts[0], consumer))
  {
    assert texts[..1] == [texts[0]] + [];
    NonEmptyConcat([texts[0]], []);
    assert texts[..0] == [];
  }

  /** A rejection further on, after the first text was accepted or skipped. */
  lemma {:induction false} RejectedLater(p: Parser, texts: seq<string>, consumer: Consumer, q: Parser)
    requires p.outcome == Ok && texts != []
    requires Offer(p, texts[0], consumer).outcome == Ok
    requires RejectedAfter(Offer(p, texts[0], consumer), texts[1..], consumer, q)
    ensures RejectedAfter(p, texts, consumer, q)
  {
    var h := Offer(p, texts[0], consumer);
    var k := q.outcome.line - p.line;
    assert h.line == p.line + 1;
    assert texts[k - 1] == texts[1..][k - 2];
    PrefixAfterFirst(texts, k);
    PrefixAfterFirst(texts, k - 1);
    var front := if texts[0] == [] then [] else [texts[0]];
    assert h.offered == p.offered + front;
    AllAcceptedConcat(front, NonEmpty(texts[1..][..k - 2]), consumer);
  }

  /** The non-empty texts of a prefix are those of its head and of the rest. */
  lemma {:induction false} PrefixAfterFirst(texts: seq<string>, k: nat)
    requires 1 <= k <= |texts|
    ensures NonEmpty(texts[..k])
         == (if texts[0] == [] then [] else [texts[0]]) + NonEmpty(texts[1..][..k - 1])
  {
    assert texts[..k] == [texts[0]] + texts[1..][..k - 1];
    NonEmptyConcat([texts[0]], texts[1..][..k - 1]);
    assert NonEmpty([texts[0]]) == (if texts[0] == [] then [] else [texts[0]]) + NonEmpty([]);
  }

  /** Offering a batch that ends in a rejection: see RejectedAfter. */
  lemma {:induction false} FeedRejecting(p: Parser, texts: seq<string>, consumer: Consumer)
    requires p.outcome == Ok
    requires FeedTexts(p, texts, consumer).outcome.Rejected?
    ensures RejectedAfter(p, texts, consumer, FeedTexts(p, texts, consumer))
    decreases |texts|
  {
    var h := Offer(p, texts[0], consumer);
    assert FeedTexts(p, texts, consumer) == FeedTexts(h, texts[1..], consumer);
    if h.outcome.Ok? {
      FeedRejecting(h, texts[1..], consumer);
      RejectedLater(p, texts, consumer, FeedTexts(h, texts[1..], consumer));
    } else {
      RejectedAtFirst(p, texts, consumer);
    }
  }

  /** Acceptance of a concatenation is acceptance of both parts. */
  lemma {:induction false} AllAcceptedConcat(a: seq<string>, b: seq<string>, consumer: Consumer)
    ensures AllAccepted(a + b, consumer) <==> AllAccepted(a, consumer) && AllAccepted(b, consumer)
  {
    if AllAccepted(a, consumer) && AllAccepted(b, consumer) {
      forall i | 0 <= i < |a + b| ensures consumer((a + b)[i]) == Accept {
        if i >= |a| { assert (a + b)[i] == b[i - |a|]; }
      }
    }
    if AllAccepted(a + b, consumer) {
      forall i | 0 <= i < |a| ensures consumer(a[i]) == Accept {
        assert (a + b)[i] == a[i];
      }
      forall i | 0 <= i < |b| ensures consumer(b[i]) == Accept {
        assert (a + b)[|a| + i] == b[i];
      }
    }
  }

  /** The one-shot parse succeeds exactly when the consumer accepts every
      non-empty cleaned line; it has then offered exactly those lines, in
      order, counted every line, and left nothing buffered. */
  lemma {:induction false} ParseAllAccepting(s: string, consumer: Consumer)
    ensures var q := ParseAll(s, consumer);
            q.outcome == Ok <==> AllAccepted(NonEmpty(CleanAll(Lines(s))), consumer)
    ensures var q := ParseAll(s, consumer);
            q.outcome == Ok ==>
              q.offered == NonEmpty(CleanAll(Lines(s))) && q.line == |Lines(s)| && q.leftover == []
  {
    var lines := Lines(s);
    var texts := CleanAll(lines);
    FeedCleans(Start, lines, consumer);
    FeedTextsKeepsLeftover(Start, texts, consumer);
    FeedAccepting(Start, texts, consumer);
  }

  /** The one-shot parse fails at line n exactly when line n (1-based,
      counting every original line) is the first non-empty cleaned line the
      consumer rejects: the reason is the consumer's message or the fallback,
      the offered lines are the non-empty cleaned lines up to and including
      line n, and nothing after it was offered. */
  lemma {:induction false} ParseAllRejecting(s: string, consumer: Consumer)
    requires ParseAll(s, consumer).outcome.Rejected?
    ensures var q := ParseAll(s, consumer);
            var lines := Lines(s);
            var texts := CleanAll(lines);
            var n := q.outcome.line;
            && 1 <= n <= |lines|
            && texts[n - 1] != []
            && consumer(texts[n - 1]).Reject?
            && q.outcome.reason == RejectionReason(consumer(texts[n - 1]).message)
            && AllAccepted(NonEmpty(CleanAll(lines[..n - 1])), consumer)
            && q.offered == NonEmpty(CleanAll(lines[..n]))
  {
    var lines := Lines(s);
    var texts := CleanAll(lines);
    FeedCleans(Start, lines, consumer);
    FeedRejecting(Start, texts, consumer);
    var n := ParseAll(s, consumer).outcome.line;
    MapLinesPrefix(Clean, lines, n - 1);
    MapLinesPrefix(Clean, lines, n);
  }
}

/** The cases of the parser's unit tests, stated for every block size the
    source may use. Each case is reduced to the one-shot parse by chunk
    invariance and then worked out line by line. */
module ParseExamples {
  import opened Strings
  import opened LineText
  import opened LineConsumer
  import opened LineParser
  import opened ChunkParser
  import opened ChunkInvariance

  const Dummy: string := "dummy"

  /** The collector of the success tests: no line is rejected. */
  const CollectAll: Consumer := Collector(None, false)

  /** With a collector that rejects nothing, every block size offers the
      non-empty cleaned lines and succeeds with an empty error string. */
  lemma CollectsEverything(s: string, size: int)
    ensures ParseSimpleStream(Blocks(s, size), Dummy, CollectAll)
         == StreamResult(true, "", NonEmpty(CleanAll(Lines(s))))
  {
    EveryBlockSize(s, size, Dummy, CollectAll);
    ParseAllAccepting(s, CollectAll);
  }

  /** An input of one line, with or without a final newline, offers its
      cleaned text, unless that is empty. */
  lemma {:induction false} OneLine(s: string, line: string, size: int)
    requires Newline !in line && line != []
    requires s == line || s == line + [Newline]
    ensures ParseSimpleStream(Blocks(s, size), Dummy, CollectAll)
         == StreamResult(true, "", if Clean(line) == [] then [] else [Clean(line)])
  {
    CollectsEverything(s, size);
    if s == line {
      LinesSingle(line);
    } else {
      OneLineClosed(line);
    }
    MapLinesAt(Clean, [line], 0);
    assert NonEmpty([Clean(line)]) == (if Clean(line) == [] then [] else [Clean(line)]) + NonEmpty([]);
  }

  /** Empty input: success, nothing offered, no error text. */
  lemma EmptyInput(size: int)
    ensures ParseSimpleStream(Blocks("", size), Dummy, CollectAll) == StreamResult(true, "", [])
  {
    CollectsEverything("", size);
    assert Lines("") == [];
  }

  /** `"a c"`, `" a c "` and `"\ta c "` all clean to `"a c"`. */
  lemma {:induction false} CleanOfAC(line: string)
    requires line == "a c" || line == " a c " || line == "\ta c "
    ensures Clean(line) == "a c"
  {
    var i := if line == "a c" then 0 else 1;
    assert StripComment(line) == line;
    assert AllBlank(line[..i]) && AllBlank(line[i + 3..]);
    TrimUnique(line, i, i + 3);
    assert line[i..i + 3] == "a c";
  }

  /** `"a c"`, `" a c "` and `"\ta c "`: the edges are trimmed, the inner
      space kept, for every block size. */
  lemma {:induction false} SurroundingBlanks(line: string, size: int)
    requires line == "a c" || line == " a c " || line == "\ta c "
    ensures ParseSimpleStream(Blocks(line, size), Dummy, CollectAll) == StreamResult(true, "", ["a c"])
  {
    CleanOfAC(line);
    OneLine(line, line, size);
  }

  /** `"a"` and `"abc\n"`: a single word is offered as it is, and a final
      newline does not add an empty line. */
  lemma {:induction false} TrailingNewline(size: int)
    ensures ParseSimpleStream(Blocks("a", size), Dummy, CollectAll) == StreamResult(true, "", ["a"])
    ensures ParseSimpleStream(Blocks("abc\n", size), Dummy, CollectAll) == StreamResult(true, "", ["abc"])
  {
    CleanLetter("a");
    OneLine("a", "a", size);
    assert "abc\n" == "abc" + [Newline];
    CleanOfWord("abc");
    OneLine("abc\n", "abc", size);
  }

  lemma {:induction false} CleanOfWord(w: string)
    requires w == "abc"
    ensures Clean(w) == w
  {
    assert StripComment(w) == w;
    TrimUnique(w, 0, 3);
    assert w[0..3] == w;
  }

  /** A single non-blank, non-marker character is its own cleaned line. */
  lemma {:induction false} CleanLetter(w: string)
    requires |w| == 1 && !IsBlank(w[0]) && w[0] != CommentMarker
    ensures Clean(w) == w
  {
    TrimUnique(w, 0, 1);
    assert w[0..1] == w;
    StripCommentSpec(w);
  }

  lemma {:induction false} ThreeLines(s: string)
    requires s == "a\nb\nc" || s == "a\nb\nc\n"
    ensures Lines(s) == ["a", "b", "c"]
  {
    if s == "a\nb\nc" {
      ThreeLinesOpen();
    } else {
      ThreeLinesClosed();
    }
  }

  lemma {:induction false} ThreeLinesOpen()
    ensures Lines("a\nb\nc") == ["a", "b", "c"]
  {
    assert "a\nb\nc" == "a" + [Newline] + "b" + [Newline] + "c";
    LinesOfThree("a", "b", "c");
  }

  lemma {:induction false} ThreeLinesClosed()
    ensures Lines("a\nb\nc\n") == ["a", "b", "c"]
  {
    assert "a\nb\nc\n" == "a" + [Newline] + "b" + [Newline] + "c" + [Newline];
    LinesOfThreeClosed("a", "b", "c");
  }

  lemma {:induction false} LinesOfThreeClosed(a: string, b: string, c: string)
    requires Newline !in a && Newline !in b && Newline !in c
    ensures Lines(a + [Newline] + b + [Newline] + c + [Newline]) == [a, b, c]
  {
    assert a + [Newline] + b + [Newline] + c + [Newline] == a + [Newline] + (b + [Newline] + (c + [Newline]));
    LinesCons(a, b + [Newline] + (c + [Newline]));
    LinesCons(b, c + [Newline]);
    OneLineClosed(c);
    assert [a] + ([b] + [c]) == [a, b, c];
  }

  /** A single line ended by a newline. */
  lemma {:induction false} OneLineClosed(line: string)
    requires Newline !in line
    ensures Lines(line + [Newline]) == [line]
  {
    LinesCons(line, []);
    assert line + [Newline] + [] == line + [Newline];
    assert Lines([]) == [];
  }

  /** `a`, `b` and `c` are their own cleaned lines. */
  lemma {:induction false} LettersClean()
    ensures CleanAll(["a", "b", "c"]) == ["a", "b", "c"]
  {
    var t := ["a", "b", "c"];
    CleanLetter("a");
    CleanLetter("b");
    CleanLetter("c");
    MapLinesAt(Clean, t, 0);
    MapLinesAt(Clean, t, 1);
    MapLinesAt(Clean, t, 2);
  }

  /** `"a\nb\nc"` with or without the final newline: three one-letter lines. */
  lemma {:induction false} ThreeLetters(s: string)
    requires s == "a\nb\nc" || s == "a\nb\nc\n"
    ensures CleanAll(Lines(s)) == ["a", "b", "c"]
  {
    ThreeLines(s);
    LettersClean();
  }

  /** The rejection tests: the collector rejects line `x`, the k-th of
      `a`, `b`, `c`. From any chunking the parse fails at line k with the
      collector's message, or the fallback when it sets none, and no line
      after the k-th reaches the collector. */
  lemma {:induction false} RejectAt(s: string, size: int, x: string, k: nat, skip: bool)
    requires s == "a\nb\nc" || s == "a\nb\nc\n"
    requires (k == 1 && x == "a") || (k == 2 && x == "b") || (k == 3 && x == "c")
    ensures ParseSimpleStream(Blocks(s, size), Dummy, Collector(Some(x), skip))
         == StreamResult(false, Diagnostic(Dummy, k, if skip then FallbackMessage else "Rejected '" + x + "'"),
                         ["a", "b", "c"][..k])
  {
    var c := Collector(Some(x), skip);
    var reason := if skip then FallbackMessage else "Rejected '" + x + "'";
    EveryBlockSize(s, size, Dummy, c);
    ThreeLetters(s);
    FeedCleans(Start, Lines(s), c);
    var t := ["a", "b", "c"];
    assert c(x) == Reject(if skip then "" else "Rejected '" + x + "'");
    assert RejectionReason(c(x).message) == reason;
    var q := FeedTexts(Start, t, c);
    assert ParseAll(s, c) == q;
    assert q == Parser(k, [], t[..k], Rejected(k, reason)) by {
      FeedRun(c, x, reason, k);
    }
  }

  /** The steps of the rejection tests, one Offer at a time. */
  lemma {:induction false} FeedRun(c: Consumer, x: string, reason: string, k: nat)
    requires (k == 1 && x == "a") || (k == 2 && x == "b") || (k == 3 && x == "c")
    requires forall y :: y != x ==> c(y) == Accept
    requires c(x).Reject? && RejectionReason(c(x).message) == reason
    ensures FeedTexts(Start, ["a", "b", "c"], c) == Parser(k, [], ["a", "b", "c"][..k], Rejected(k, reason))
  {
    var t := ["a", "b", "c"];
    var p1 := Offer(Start, "a", c);
    assert FeedTexts(Start, t, c) == FeedTexts(p1, t[1..], c);
    if k == 1 {
      assert p1 == Parser(1, [], ["a"], Rejected(1, reason));
      assert t[..1] == ["a"];
    } else {
      assert c("a") == Accept;
      assert p1 == Parser(1, [], ["a"], Ok);
      var p2 := Offer(p1, "b", c);
      assert FeedTexts(p1, t[1..], c) == FeedTexts(p2, t[2..], c);
      if k == 2 {
        assert p2 == Parser(2, [], ["a", "b"], Rejected(2, reason));
        assert t[..2] == ["a", "b"];
      } else {
        assert c("b") == Accept;
        assert p2 == Parser(2, [], ["a", "b"], Ok);
        var p3 := Offer(p2, "c", c);
        assert FeedTexts(p2, t[2..], c) == FeedTexts(p3, [], c);
        assert p3 == Parser(3, [], ["a", "b", "c"], Rejected(3, reason));
        assert t[..3] == t;
      }
    }
  }

  /** The collector that rejects `x` rejects the parse of `s` exactly when
      `x` is one of the non-empty cleaned lines of `s`. It then stops at the
      first line whose cleaned text is `x`, and reports its own message, or
      the fallback when it is told to leave the message empty. */
  lemma {:induction false} CollectorRejects(s: string, x: string, skip: bool)
    ensures ParseAll(s, Collector(Some(x), skip)).outcome.Rejected?
        <==> x in NonEmpty(CleanAll(Lines(s)))
    ensures var q := ParseAll(s, Collector(Some(x), skip));
            var texts := CleanAll(Lines(s));
            q.outcome.Rejected? ==>
              var n := q.outcome.line;
              && 1 <= n <= |texts|
              && texts[n - 1] == x
              && x !in texts[..n - 1]
              && q.outcome.reason == (if skip then FallbackMessage else "Rejected '" + x + "'")
  {
    var c := Collector(Some(x), skip);
    var lines := Lines(s);
    var texts := CleanAll(lines);
    var q := ParseAll(s, c);
    ParseAllAccepting(s, c);
    CollectorAccepts(NonEmpty(texts), x, skip);
    if q.outcome.Rejected? {
      ParseAllRejecting(s, c);
      var n := q.outcome.line;
      assert texts[n - 1] == x;
      NonEmptyHas(texts, x);
      MapLinesPrefix(Clean, lines, n - 1);
      CollectorAccepts(NonEmpty(texts[..n - 1]), x, skip);
      NonEmptyHas(texts[..n - 1], x);
      assert c(x).message == (if skip then "" else "Rejected '" + x + "'");
    }
  }

  /** The collector that rejects nothing sees the parse through, and is
      offered every non-empty cleaned line. */
  lemma {:induction false} CollectorNoneAccepts(s: string, skip: bool)
    ensures ParseAll(s, Collector(None, skip)).outcome == Ok
    ensures ParseAll(s, Collector(None, skip)).offered == NonEmpty(CleanAll(Lines(s)))
  {
    var c := Collector(None, skip);
    var t := NonEmpty(CleanAll(Lines(s)));
    assert AllAccepted(t, c) by {
      forall i | 0 <= i < |t| ensures c(t[i]) == Accept { }
    }
    ParseAllAccepting(s, c);
  }

  /** A collector that rejects `x` accepts all of `t` exactly when `x` is
      not among them. */
  lemma {:induction false} CollectorAccepts(t: seq<string>, x: string, skip: bool)
    ensures AllAccepted(t, Collector(Some(x), skip)) <==> x !in t
  {
    var c := Collector(Some(x), skip);
    if x in t {
      var i :| 0 <= i < |t| && t[i] == x;
      assert c(t[i]).Reject?;
    } else {
      forall i | 0 <= i < |t| ensures c(t[i]) == Accept {
        assert t[i] != x;
      }
    }
  }

  /** A non-empty text is among the non-empty texts exactly when it is among
      the texts. */
  lemma {:induction false} NonEmptyHas(t: seq<string>, y: string)
    requires y != []
    ensures y in NonEmpty(t) <==> y in t
    decreases |t|
  {
    if t != [] {
      NonEmptyHas(t[1..], y);
      assert t == [t[0]] + t[1..];
    }
  }

  /** One line of text followed by a comment, with or without a closing
      newline (`"a # same line"`, `"a # same line\n"`,
      `"a# n o t # h i n g #"`): the text before the first marker is
      offered, trimmed, and nothing else. */
  lemma {:induction false} TextBeforeComment(text: string, comment: string, closed: bool, size: int)
    requires CommentMarker !in text && Newline !in text && Newline !in comment
    requires !AllBlank(text)
    ensures ParseSimpleStream(Blocks(text + [CommentMarker] + comment + (if closed then [Newline] else []), size),
                              Dummy, CollectAll)
         == StreamResult(true, "", [Trim(text)])
  {
    var line := text + [CommentMarker] + comment;
    var s := line + (if closed then [Newline] else []);
    CollectsEverything(s, size);
    assert Newline !in line by {
      assert forall k :: 0 <= k < |line| ==> line[k] in text || line[k] == CommentMarker || line[k] in comment;
    }
    if closed {
      OneLineClosed(line);
    } else {
      assert s == line;
      LinesSingle(line);
    }
    CommentAfterText(text, comment);
    TrimSpec(text);
    MapLinesAt(Clean, [line], 0);
    assert NonEmpty([Trim(text)]) == [Trim(text)] + NonEmpty([]);
  }

  /** An empty line and then a comment-only line, closed by a newline
      (`"\n# nothing\n"`): both lines are counted and nothing is offered. */
  lemma {:induction false} BlankThenComment(m: string, i: nat, size: int)
    requires i < |m| && m[i] == CommentMarker && AllBlank(m[..i])
    requires Newline !in m
    ensures ParseSimpleStream(Blocks([Newline] + m + [Newline], size), Dummy, CollectAll)
         == StreamResult(true, "", [])
  {
    var s := [Newline] + m + [Newline];
    CollectsEverything(s, size);
    assert s == [] + [Newline] + (m + [Newline]);
    LinesCons([], m + [Newline]);
    OneLineClosed(m);
    CommentOnlyLineIsDropped(m, i);
    assert Clean([]) == [] by { CleanSpec([]); }
    var t := [[], m];
    MapLinesAt(Clean, t, 0);
    MapLinesAt(Clean, t, 1);
    var texts := CleanAll(t);
    assert NonEmpty(texts) == NonEmpty(texts[1..]);
    assert NonEmpty(texts[1..]) == NonEmpty(texts[2..]);
  }

  /** A line of text and then a comment-only last line without a closing
      newline (`"a\n## n o # t h i n g #"`): only the text is offered. */
  lemma {:induction false} TextThenCommentLine(a: string, m: string, i: nat, size: int)
    requires Newline !in a && CommentMarker !in a && !AllBlank(a)
    requires i < |m| && m[i] == CommentMarker && AllBlank(m[..i])
    requires Newline !in m
    ensures ParseSimpleStream(Blocks(a + [Newline] + m, size), Dummy, CollectAll)
         == StreamResult(true, "", [Trim(a)])
  {
    var s := a + [Newline] + m;
    CollectsEverything(s, size);
    LinesCons(a, m);
    LinesSingle(m);
    CleanOfText(a);
    CommentOnlyLineIsDropped(m, i);
    var t := [a, m];
    assert Lines(s) == t;
    MapLinesAt(Clean, t, 0);
    MapLinesAt(Clean, t, 1);
    var texts := CleanAll(t);
    assert NonEmpty(texts) == [texts[0]] + NonEmpty(texts[1..]);
    assert NonEmpty(texts[1..]) == NonEmpty(texts[2..]);
  }

  /** One line whose first non-blank character is the marker (`"# nothing"`,
      `"#"`, `"##"`, `"# n o t # h i n g #"`): nothing is offered. */
  lemma {:induction false} CommentOnly(line: string, i: nat, size: int)
    requires i < |line| && line[i] == CommentMarker && AllBlank(line[..i])
    requires Newline !in line
    ensures ParseSimpleStream(Blocks(line, size), Dummy, CollectAll) == StreamResult(true, "", [])
  {
    CollectsEverything(line, size);
    LinesSingle(line);
    CommentOnlyLineIsDropped(line, i);
    MapLinesAt(Clean, [line], 0);
    assert NonEmpty([[]]) == [] + NonEmpty([]);
  }

  /** A line of text, a comment-only line, and another line of text
      (`"a\n# line\nc"`): the two texts are offered trimmed, in input
      order, and the comment line offers nothing. */
  lemma {:induction false} CommentLineBetween(a: string, m: string, i: nat, c: string, size: int)
    requires Newline !in a && Newline !in m && Newline !in c
    requires CommentMarker !in a && CommentMarker !in c
    requires !AllBlank(a) && !AllBlank(c)
    requires i < |m| && m[i] == CommentMarker && AllBlank(m[..i])
    ensures ParseSimpleStream(Blocks(a + [Newline] + m + [Newline] + c, size), Dummy, CollectAll)
         == StreamResult(true, "", [Trim(a), Trim(c)])
  {
    var s := a + [Newline] + m + [Newline] + c;
    CollectsEverything(s, size);
    LinesOfThree(a, m, c);
    CleanOfText(a);
    CommentOnlyLineIsDropped(m, i);
    CleanOfText(c);
    OffersOfThree([a, m, c]);
  }

  lemma {:induction false} LinesOfThree(a: string, m: string, c: string)
    requires Newline !in a && Newline !in m && Newline !in c && c != []
    ensures Lines(a + [Newline] + m + [Newline] + c) == [a, m, c]
  {
    assert a + [Newline] + m + [Newline] + c == a + [Newline] + (m + [Newline] + c);
    LinesCons(a, m + [Newline] + c);
    LinesCons(m, c);
    LinesSingle(c);
    assert [a] + ([m] + [c]) == [a, m, c];
  }

  /** Three lines whose middle one cleans to nothing offer the other two. */
  lemma {:induction false} OffersOfThree(t: seq<string>)
    requires |t| == 3 && Clean(t[0]) != [] && Clean(t[1]) == [] && Clean(t[2]) != []
    ensures NonEmpty(CleanAll(t)) == [Clean(t[0]), Clean(t[2])]
  {
    MapLinesAt(Clean, t, 0);
    MapLinesAt(Clean, t, 1);
    MapLinesAt(Clean, t, 2);
    var texts := CleanAll(t);
    assert NonEmpty(texts) == [texts[0]] + NonEmpty(texts[1..]);
    assert NonEmpty(texts[1..]) == NonEmpty(texts[2..]);
    assert NonEmpty(texts[2..]) == [texts[2]] + NonEmpty(texts[3..]);
  }

  /** Text without a marker is cleaned by trimming alone, and stays non-empty
      when it is not all blanks. */
  lemma {:induction false} CleanOfText(a: string)
    requires CommentMarker !in a && !AllBlank(a)
    ensures Clean(a) == Trim(a) && Trim(a) != []
  {
    StripCommentSpec(a);
    TrimSpec(a);
  }

  /** Two lines of text without a closing newline (`"abc\nd f"`): both are
      offered, trimmed, in input order; internal blanks stay. */
  lemma {:induction false} TwoTextLines(a: string, c: string, size: int)
    requires Newline !in a && Newline !in c
    requires CommentMarker !in a && CommentMarker !in c
    requires !AllBlank(a) && !AllBlank(c)
    ensures ParseSimpleStream(Blocks(a + [Newline] + c, size), Dummy, CollectAll)
         == StreamResult(true, "", [Trim(a), Trim(c)])
  {
    var s := a + [Newline] + c;
    CollectsEverything(s, size);
    CleanOfText(a);
    CleanOfText(c);
    LinesCons(a, c);
    LinesSingle(c);
    var t := [a, c];
    assert Lines(s) == t;
    MapLinesAt(Clean, t, 0);
    MapLinesAt(Clean, t, 1);
    var texts := CleanAll(t);
    assert NonEmpty(texts) == [texts[0]] + NonEmpty(texts[1..]);
    assert NonEmpty(texts[1..]) == [texts[1]] + NonEmpty(texts[2..]);
  }

  /** Two lines of text between empty lines (`"\n abc \n def \n\n"`): the
      empty lines are counted but offer nothing, and the texts are offered
      trimmed, in input order. */
  lemma {:induction false} BlankLinesAround(a: string, d: string, size: int)
    requires Newline !in a && Newline !in d
    requires CommentMarker !in a && CommentMarker !in d
    requires !AllBlank(a) && !AllBlank(d)
    ensures ParseSimpleStream(Blocks([Newline] + a + [Newline] + d + [Newline, Newline], size), Dummy, CollectAll)
         == StreamResult(true, "", [Trim(a), Trim(d)])
  {
    var s := [Newline] + a + [Newline] + d + [Newline, Newline];
    CollectsEverything(s, size);
    CleanOfText(a);
    CleanOfText(d);
    LinesOfFour(a, d);
    assert Clean([]) == [] by { CleanSpec([]); }
    var t: seq<string> := [[], a, d, []];
    OffersOfFour(t);
  }

  lemma {:induction false} LinesOfFour(a: string, d: string)
    requires Newline !in a && Newline !in d
    ensures Lines([Newline] + a + [Newline] + d + [Newline, Newline]) == [[], a, d, []]
  {
    var r2 := d + [Newline, Newline];
    LinesBlankLast(d);
    var r1 := a + [Newline] + r2;
    LinesCons(a, r2);
    LinesBlankFirst(r1);
    Four([], a, d, []);
    Regroup([Newline], a, [Newline], d, [Newline, Newline]);
  }

  /** A line closed by a newline and then an empty line. */
  lemma {:induction false} LinesBlankLast(d: string)
    requires Newline !in d
    ensures Lines(d + [Newline, Newline]) == [d] + [[]]
  {
    LinesCons(d, [Newline]);
    LinesNewline();
    assert d + [Newline, Newline] == d + [Newline] + [Newline];
  }

  /** A lone newline is one empty line. */
  lemma {:induction false} LinesNewline()
    ensures Lines([Newline]) == [[]]
  {
    LinesBlankFirst([]);
    assert [Newline] + [] == [Newline];
  }

  lemma {:induction false} Four<T>(w: T, x: T, y: T, z: T)
    ensures [w] + ([x] + ([y] + [z])) == [w, x, y, z]
  {
  }

  /** An input that starts with a newline starts with an empty line. */
  lemma {:induction false} LinesBlankFirst(rest: string)
    ensures Lines([Newline] + rest) == [[]] + Lines(rest)
  {
    LinesCons([], rest);
    assert [] + [Newline] + rest == [Newline] + rest;
  }

  lemma {:induction false} Regroup(p: string, x: string, q: string, y: string, z: string)
    ensures p + x + q + y + z == p + (x + q + (y + z))
  {
    assert p + x + q + y + z == p + (x + q + y + z);
    assert x + q + y + z == x + q + (y + z);
  }

  /** Four lines whose first and last clean to nothing offer the middle two. */
  lemma {:induction false} OffersOfFour(t: seq<string>)
    requires |t| == 4 && Clean(t[0]) == [] && Clean(t[1]) != [] && Clean(t[2]) != [] && Clean(t[3]) == []
    ensures NonEmpty(CleanAll(t)) == [Clean(t[1]), Clean(t[2])]
  {
    MapLinesAt(Clean, t, 0);
    MapLinesAt(Clean, t, 1);
    MapLinesAt(Clean, t, 2);
    MapLinesAt(Clean, t, 3);
    var texts := CleanAll(t);
    assert NonEmpty(texts) == NonEmpty(texts[1..]);
    assert NonEmpty(texts[1..]) == [texts[1]] + NonEmpty(texts[2..]);
    assert NonEmpty(texts[2..]) == [texts[2]] + NonEmpty(texts[3..]);
    assert NonEmpty(texts[3..]) == NonEmpty(texts[4..]);
  }
}

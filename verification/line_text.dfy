/** What the line parser does to one logical line before handing it to the
    consumer: drop everything from the first `#`, then trim spaces and tabs
    from both ends. Internal whitespace is kept as it is.

    The functions here carry no postconditions of their own; what they
    compute is stated by the lemmas next to them. This keeps the facts out
    of the way of the parser proofs, which only need the functions. */
module LineText {
  import opened Strings

  const CommentMarker: char := '#'

  /** The whitespace the parser trims from the ends of a line. */
  predicate IsBlank(c: char) {
    c == ' ' || c == '\t'
  }

  predicate AllBlank(s: string) {
    forall k :: 0 <= k < |s| ==> IsBlank(s[k])
  }

  /** The line cut just before its first comment marker. */
  function StripComment(line: string): string
  {
    match IndexOf(line, CommentMarker)
    case None => line
    case Some(k) => line[..k]
  }

  /** Drops the leading blanks. */
  function TrimLeft(s: string): string
  {
    if s != [] && IsBlank(s[0]) then TrimLeft(s[1..]) else s
  }

  /** Drops the trailing blanks. */
  function TrimRight(s: string): string
  {
    if s != [] && IsBlank(s[|s| - 1]) then TrimRight(s[..|s| - 1]) else s
  }

  /** Leading and trailing blanks removed. */
  function Trim(s: string): string
  {
    TrimRight(TrimLeft(s))
  }

  /** The text the consumer is offered for a raw line; empty when the line
      is to be dropped. */
  function Clean(line: string): string
  {
    Trim(StripComment(line))
  }

  /** StripComment is pinned down by three facts: its result is a prefix of
      the line, holds no comment marker, and stops early only at a marker. */
  lemma StripCommentSpec(line: string)
    ensures var r := StripComment(line);
            && |r| <= |line| && r == line[..|r|]
            && CommentMarker !in r
            && (|r| < |line| ==> line[|r|] == CommentMarker)
  {
  }

  /** TrimLeft removes a run of blanks from the front and stops at the first
      non-blank character. */
  lemma {:induction false} TrimLeftSpec(s: string)
    ensures var r := TrimLeft(s);
            && |r| <= |s| && r == s[|s| - |r|..]
            && AllBlank(s[..|s| - |r|])
            && (r == [] || !IsBlank(r[0]))
  {
    if s != [] && IsBlank(s[0]) {
      TrimLeftSpec(s[1..]);
      var r := TrimLeft(s[1..]);
      assert s[..|s| - |r|] == [s[0]] + s[1..][..|s| - 1 - |r|];
    }
  }

  /** TrimRight removes a run of blanks from the back and stops after the
      last non-blank character. */
  lemma {:induction false} TrimRightSpec(s: string)
    ensures var r := TrimRight(s);
            && |r| <= |s| && r == s[..|r|]
            && AllBlank(s[|r|..])
            && (r == [] || !IsBlank(r[|r| - 1]))
    decreases |s|
  {
    if s != [] && IsBlank(s[|s| - 1]) {
      TrimRightSpec(s[..|s| - 1]);
      var r := TrimRight(s[..|s| - 1]);
      assert s[|r|..] == s[..|s| - 1][|r|..] + [s[|s| - 1]];
    }
  }

  /** What remains after trimming neither starts nor ends with a blank, and
      is empty exactly when the input was all blanks. */
  lemma TrimSpec(s: string)
    ensures var r := Trim(s);
            && |r| <= |s|
            && (r == [] || (!IsBlank(r[0]) && !IsBlank(r[|r| - 1])))
            && (r == [] <==> AllBlank(s))
  {
    TrimLeftSpec(s);
    var l := TrimLeft(s);
    TrimRightSpec(l);
    var r := TrimRight(l);
    if r != [] {
      assert r[0] == l[0];
    }
  }

  lemma {:induction false} AllBlankConcat(a: string, b: string)
    requires AllBlank(a) && AllBlank(b)
    ensures AllBlank(a + b)
  {
  }

  lemma {:induction false} TrimOfAllBlank(s: string, i: nat)
    requires i <= |s| && AllBlank(s[..i]) && AllBlank(s[i..])
    ensures Trim(s) == []
  {
    AllBlankConcat(s[..i], s[i..]);
    assert s[..i] + s[i..] == s;
    TrimSpec(s);
  }

  /** TrimLeft stops at the first non-blank character. */
  lemma {:induction false} TrimLeftAt(s: string, i: nat)
    requires i <= |s| && AllBlank(s[..i])
    requires i < |s| ==> !IsBlank(s[i])
    ensures TrimLeft(s) == s[i..]
  {
    if i > 0 {
      assert IsBlank(s[..i][0]);
      assert s[1..][..i - 1] == s[..i][1..];
      TrimLeftAt(s[1..], i - 1);
      assert s[1..][i - 1..] == s[i..];
    }
  }

  /** TrimRight stops after the last non-blank character. */
  lemma {:induction false} TrimRightAt(s: string, j: nat)
    requires j <= |s| && AllBlank(s[j..])
    requires j > 0 ==> !IsBlank(s[j - 1])
    ensures TrimRight(s) == s[..j]
    decreases |s|
  {
    if j < |s| {
      var s' := s[..|s| - 1];
      assert IsBlank(s[j..][|s| - 1 - j]);
      assert s'[j..] == s[j..][..|s| - 1 - j];
      TrimRightAt(s', j);
      assert s'[..j] == s[..j];
    }
  }

  /** Any piece of `s` that is surrounded by blanks only and neither starts
      nor ends with a blank is what Trim returns: the trim keeps exactly the
      middle of the line, internal whitespace included. */
  lemma {:induction false} TrimUnique(s: string, i: nat, j: nat)
    requires i <= j <= |s|
    requires AllBlank(s[..i]) && AllBlank(s[j..])
    requires i < j ==> !IsBlank(s[i]) && !IsBlank(s[j - 1])
    ensures Trim(s) == s[i..j]
  {
    if i == j {
      TrimOfAllBlank(s, i);
    } else {
      TrimLeftAt(s, i);
      var l := s[i..];
      assert l[j - i..] == s[j..];
      assert l[j - i - 1] == s[j - 1];
      TrimRightAt(l, j - i);
      assert l[..j - i] == s[i..j];
    }
  }

  /** Every character Trim keeps comes from its input. */
  lemma TrimInfix(s: string)
    ensures forall k :: 0 <= k < |Trim(s)| ==> Trim(s)[k] in s
  {
    TrimLeftSpec(s);
    var l := TrimLeft(s);
    TrimRightSpec(l);
    var r := TrimRight(l);
    forall k | 0 <= k < |r| ensures r[k] in s {
      assert r[k] == l[k];
      assert l[k] == s[|s| - |l| + k];
    }
  }

  /** A cleaned line holds no comment marker and no surrounding blanks, and
      it is empty exactly when everything before the first marker is blank. */
  lemma CleanSpec(line: string)
    ensures var r := Clean(line);
            && CommentMarker !in r
            && (r == [] || (!IsBlank(r[0]) && !IsBlank(r[|r| - 1])))
            && (r == [] <==> AllBlank(StripComment(line)))
  {
    var t := StripComment(line);
    StripCommentSpec(line);
    TrimSpec(t);
    TrimInfix(t);
  }

  /** A line whose first non-blank character is the comment marker is
      dropped, however many markers follow. */
  lemma {:induction false} CommentOnlyLineIsDropped(line: string, i: nat)
    requires i < |line| && line[i] == CommentMarker
    requires AllBlank(line[..i])
    ensures Clean(line) == []
  {
    var t := StripComment(line);
    StripCommentSpec(line);
    assert AllBlank(t) by {
      forall k | 0 <= k < |t| ensures IsBlank(t[k]) {
        assert t[k] == line[..i][k];
      }
    }
    CleanSpec(line);
  }

  /** Text before a comment survives, trimmed: `a # same line` offers `a`. */
  lemma {:induction false} CommentAfterText(text: string, comment: string)
    requires CommentMarker !in text
    ensures Clean(text + [CommentMarker] + comment) == Trim(text)
  {
    var line := text + [CommentMarker] + comment;
    IndexOfAfter(text, [CommentMarker] + comment, CommentMarker);
    assert IndexOf([CommentMarker] + comment, CommentMarker) == Some(0);
    assert line == text + ([CommentMarker] + comment);
    assert line[..|text|] == text;
  }
}

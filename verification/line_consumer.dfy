/** The consumer side of the simple line parser: a consumer is offered one
    cleaned line per call and either accepts it or rejects it, optionally
    with a message. A rejection ends the parse with a diagnostic of the form
    `error: <streamName> Line <n>, <message>`. */
module LineConsumer {
  import opened Strings

  /** What a consumer answers for one line. An empty message stands for a
      rejection that did not set an error text. */
  datatype Verdict = Accept | Reject(message: string)

  /** The consumer capability: a function value from line to verdict. Its
      side effects (collecting lines) are read off the parser's record of
      the lines it offered. */
  type Consumer = string -> Verdict

  /** The text used when a consumer rejects without saying why. */
  const FallbackMessage: string := "ConsumeLine failed without setting an error."

  /** The reason reported for a rejection: the consumer's own message, or the
      fallback when it left the message empty. Never empty. */
  function RejectionReason(message: string): (r: string)
    ensures r != []
    ensures message != [] ==> r == message
    ensures message == [] ==> r == FallbackMessage
  {
    if message == [] then FallbackMessage else message
  }

  const DiagnosticPrefix: string := "error: "
  const LineWord: string := " Line "
  const ReasonSeparator: string := ", "

  /** The single diagnostic string of a failed parse. */
  function Diagnostic(streamName: string, line: nat, reason: string): string
  {
    DiagnosticPrefix + streamName + LineWord + NatToDecimal(line) + ReasonSeparator + reason
  }

  /** A diagnostic determines the line and the reason it reports, once the
      stream name is known: distinct failures read differently. */
  lemma {:induction false} DiagnosticInjective(streamName: string, m: nat, n: nat, a: string, b: string)
    requires Diagnostic(streamName, m, a) == Diagnostic(streamName, n, b)
    ensures m == n && a == b
  {
    var dm := NatToDecimal(m);
    var dn := NatToDecimal(n);
    var p := DiagnosticPrefix + streamName + LineWord;
    var x := Diagnostic(streamName, m, a);
    assert x == p + dm + (ReasonSeparator + a);
    assert x == p + dn + (ReasonSeparator + b);
    // The decimal part is the run of digits after the fixed prefix.
    assert x[|p|..] == dm + (ReasonSeparator + a);
    assert x[|p|..] == dn + (ReasonSeparator + b);
    DigitRunOf(dm, ReasonSeparator + a);
    DigitRunOf(dn, ReasonSeparator + b);
    NatToDecimalInjective(m, n);
    assert a == x[|p| + |dm| + |ReasonSeparator|..];
    assert b == x[|p| + |dn| + |ReasonSeparator|..];
  }

  /** The consumer the unit tests use: it accepts every line except the one
      equal to `reject`; that one it rejects with `Rejected '<line>'`, or with
      no message when `skipMessage` is set. */
  function Collector(reject: Option<string>, skipMessage: bool): Consumer
  {
    (line: string) =>
      if reject == Some(line) then
        Reject(if skipMessage then "" else "Rejected '" + line + "'")
      else Accept
  }
}

/**
  The diagnostic sink the scanner reports to (`Loxr` in src/lib.rs).

  The original prints each diagnostic and sets a sticky `had_error` flag.
  Here a report appends a `Diagnostic` record to `reported` instead of
  printing it, and sets the flag; nothing ever clears either.
 */
module ErrorSink {

  /** One reported diagnostic: line number, position label and message. */
  datatype Diagnostic = Diagnostic(line: nat, pos: string, message: string)

  datatype Loxr = Loxr(hadError: bool, reported: seq<Diagnostic>)

  /** The flag is set exactly when something has been reported. */
  predicate Consistent(l: Loxr) {
    l.hadError <==> |l.reported| > 0
  }

  /** `later` can be reached from `earlier` by reporting: the flag never
      goes back to false and no diagnostic is ever withdrawn. */
  predicate Extends(earlier: Loxr, later: Loxr) {
    && (earlier.hadError ==> later.hadError)
    && earlier.reported <= later.reported
  }

  /** A fresh sink: no error yet. */
  function New(): (l: Loxr)
    ensures !l.hadError
    ensures Consistent(l)
  {
    Loxr(false, [])
  }

  /** Records one diagnostic and sets the sticky flag, whatever it was before. */
  function Report(l: Loxr, line: nat, pos: string, message: string): (r: Loxr)
    ensures r.hadError
    ensures Extends(l, r)
    ensures |r.reported| == |l.reported| + 1
    ensures r.reported[|l.reported|] == Diagnostic(line, pos, message)
    ensures Consistent(l) ==> Consistent(r)
  {
    Loxr(true, l.reported + [Diagnostic(line, pos, message)])
  }

  /** `error(line, message)`: a report with an empty position label. */
  function Error(l: Loxr, line: nat, message: string): (r: Loxr)
    ensures r == Report(l, line, "", message)
    ensures r.hadError && r.reported == l.reported + [Diagnostic(line, "", message)]
  {
    Report(l, line, "", message)
  }

  /** Reporting is monotone: whatever follows a report, the flag stays set. */
  lemma {:induction false} ExtendsTransitive(a: Loxr, b: Loxr, c: Loxr)
    requires Extends(a, b) && Extends(b, c)
    ensures Extends(a, c)
  {
  }

  /** A second error leaves the flag exactly as the first one left it. */
  lemma ErrorIdempotentOnFlag(l: Loxr, line1: nat, msg1: string, line2: nat, msg2: string)
    ensures Error(Error(l, line1, msg1), line2, msg2).hadError == Error(l, line1, msg1).hadError
  {
  }
}

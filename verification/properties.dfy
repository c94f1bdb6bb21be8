/**
  Properties of the scanner: what each kind of step does, and what a whole
  scan produces.
 */
module ScannerProperties {
  import opened Wrappers
  import opened Tokens
  import opened Lexer
  import ErrorSink

  // ---------------------------------------------------------------------
  // Single steps

  /** Each of `( ) { } , . + ; *` yields one token of its own kind whose
      lexeme is that one character. */
  lemma SingleCharacterStep(src: seq<char>, s: Scanner)
    requires s.start == s.current < |src| && src[s.current] in "(){},.+;*"
    ensures var o := ScanToken(src, s);
      && o.Ok?
      && o.s == s.(current := s.current + 1, tokens := o.s.tokens)
      && |o.s.tokens| == |s.tokens| + 1
      && o.s.tokens[..|s.tokens|] == s.tokens
      && o.s.tokens[|s.tokens|] == Token(o.s.tokens[|s.tokens|].kind, s.current, s.current + 1, None, s.line)
      && PunctuatorText(o.s.tokens[|s.tokens|].kind) == Some([src[s.current]])
  {
    SingleCharacterScan(src, s);
  }

  /** `-` has no case of its own: it yields no token and is reported as an
      invalid token. */
  lemma MinusIsInvalid(src: seq<char>, s: Scanner)
    requires s.start == s.current < |src| && src[s.current] == '-'
    ensures ScanToken(src, s) == Ok(s.(current := s.current + 1, sink := ErrorSink.Error(s.sink, s.line, InvalidToken)))
  {
  }

  /** Each of `! > < =` yields the two-character kind, consuming the `=`,
      exactly when the next character exists and is `=`; otherwise the
      one-character kind, consuming nothing more. */
  lemma EqualSuffixStep(src: seq<char>, s: Scanner)
    requires s.start == s.current < |src| && src[s.current] in "!<>="
    ensures var o := ScanToken(src, s);
      var eq := s.current + 1 < |src| && src[s.current + 1] == '=';
      && o.Ok?
      && o.s.current == s.current + (if eq then 2 else 1)
      && o.s == s.(current := o.s.current, tokens := o.s.tokens)
      && |o.s.tokens| == |s.tokens| + 1
      && o.s.tokens[..|s.tokens|] == s.tokens
      && o.s.tokens[|s.tokens|] == Token(o.s.tokens[|s.tokens|].kind, s.current, o.s.current, None, s.line)
      && PunctuatorText(o.s.tokens[|s.tokens|].kind) == Some(if eq then [src[s.current], '='] else [src[s.current]])
  {
    var ks := EqualSuffixKinds(src[s.current]);
    var next := MatchNextAddToken(src, s.(current := s.current + 1), '=', ks.0, ks.1);
    EqualSuffixScan(src, s);
    EqualSuffixNext(src, s, ks, next);
  }

  lemma EqualSuffixNext(src: seq<char>, s: Scanner, ks: (TokenType, TokenType), next: Scanner)
    requires s.start == s.current < |src|
    requires PunctuatorText(ks.0) == Some([src[s.current], '=']) && PunctuatorText(ks.1) == Some([src[s.current]])
    requires next == MatchNextAddToken(src, s.(current := s.current + 1), '=', ks.0, ks.1)
    ensures var eq := s.current + 1 < |src| && src[s.current + 1] == '=';
      && next.current == s.current + (if eq then 2 else 1)
      && next == s.(current := next.current, tokens := next.tokens)
      && |next.tokens| == |s.tokens| + 1
      && next.tokens[..|s.tokens|] == s.tokens
      && next.tokens[|s.tokens|] == Token(next.tokens[|s.tokens|].kind, s.current, next.current, None, s.line)
      && PunctuatorText(next.tokens[|s.tokens|].kind) == Some(if eq then [src[s.current], '='] else [src[s.current]])
  {
  }

  /** `//` consumes up to, not including, the next newline (or to the end)
      and yields no token. */
  lemma LineCommentStep(src: seq<char>, s: Scanner)
    requires s.start == s.current && s.current + 1 < |src|
    requires src[s.current] == '/' && src[s.current + 1] == '/'
    ensures var o := ScanToken(src, s);
      && o.Ok?
      && o.s == s.(current := o.s.current)
      && s.current + 2 <= o.s.current <= |src|
      && (o.s.current == |src| || src[o.s.current] == '\n')
      && (forall k :: s.current <= k < o.s.current ==> src[k] != '\n')
  {
  }

  /** A `/` followed by anything but `/` or `*` yields one `Slash` token. */
  lemma SlashStep(src: seq<char>, s: Scanner)
    requires s.start == s.current && s.current + 1 < |src|
    requires src[s.current] == '/' && src[s.current + 1] != '/' && src[s.current + 1] != '*'
    ensures ScanToken(src, s) ==
      Ok(s.(current := s.current + 1, tokens := s.tokens + [Token(Slash, s.current, s.current + 1, None, s.line)]))
  {
  }

  /** A `/` as the last character is read past: the scanner panics at the
      end of the input, having reported nothing. */
  lemma TrailingSlashPanics(src: seq<char>, s: Scanner)
    requires s.start == s.current == |src| - 1 && src[s.current] == '/'
    ensures ScanToken(src, s) == Panic(s.(current := |src|), |src|)
  {
  }

  /** A closed block comment ends just after the first star-slash that follows the
      slash-star, yields no token, and leaves the line counter unchanged even
      when the comment spans lines. */
  lemma BlockCommentStep(src: seq<char>, s: Scanner, close: nat)
    requires s.start == s.current && s.current + 1 < |src|
    requires src[s.current] == '/' && src[s.current + 1] == '*'
    requires s.current + 2 <= close && ClosesAt(src, close)
    ensures var o := ScanToken(src, s);
      && o.Ok?
      && o.s == s.(current := o.s.current)
      && s.current + 4 <= o.s.current <= close + 2
      && ClosesAt(src, o.s.current - 2)
      && (forall k :: s.current + 2 <= k < o.s.current - 2 ==> !ClosesAt(src, k))
  {
  }

  /** An unclosed block comment reports "No ending to block comment" once
      and then panics reading past the end of the input. */
  lemma UnterminatedBlockCommentPanics(src: seq<char>, s: Scanner)
    requires s.start == s.current && s.current + 1 < |src|
    requires src[s.current] == '/' && src[s.current + 1] == '*'
    requires forall k :: s.current + 2 <= k < |src| ==> !ClosesAt(src, k)
    ensures ScanToken(src, s) ==
      Panic(s.(current := |src|, sink := ErrorSink.Error(s.sink, s.line, NoEndingToBlockComment)), |src|)
  {
    assert !exists k :: s.current + 2 <= k && ClosesAt(src, k);
  }

  /** A newline outside strings and comments yields nothing and counts a
      line; a space, carriage return or tab yields nothing at all. */
  lemma LayoutStep(src: seq<char>, s: Scanner)
    requires s.start == s.current < |src| && src[s.current] in " \r\t\n"
    ensures ScanToken(src, s) ==
      Ok(s.(current := s.current + 1, line := if src[s.current] == '\n' then s.line + 1 else s.line))
  {
  }

  /** A letter or digit starts a word or number token, and the same step
      still reports "Invalid token" at the line the token was added on. */
  lemma AlphanumericStep(src: seq<char>, s: Scanner)
    requires s.start == s.current < |src| && IsAlphaNumeric(src[s.current])
    ensures var o := ScanToken(src, s);
      && o.Ok?
      && |o.s.tokens| == |s.tokens| + 1
      && o.s.tokens[..|s.tokens|] == s.tokens
      && o.s.tokens[|s.tokens|].kind == (if IsDigit(src[s.current]) then Number else WordKind(src[s.current..o.s.current]))
      && o.s.line == s.line
      && o.s.sink == ErrorSink.Error(s.sink, s.line, InvalidToken)
  {
    AlphanumericScan(src, s);
  }

  /** On a letter or digit a step is the fall-through branch: a number or a
      word, then the report. */
  lemma AlphanumericScan(src: seq<char>, s: Scanner)
    requires s.start == s.current < |src| && IsAlphaNumeric(src[s.current])
    ensures var adv := s.(current := s.current + 1);
      var scanned := if IsDigit(src[s.current]) then NumberLiteral(src, adv) else IdentifierOrKeyword(src, adv);
      ScanToken(src, s) == Ok(scanned.(sink := ErrorSink.Error(scanned.sink, scanned.line, InvalidToken)))
  {
  }

  /** Any character no case covers yields no token and is reported as an
      invalid token. */
  lemma UnknownCharacterStep(src: seq<char>, s: Scanner)
    requires AsciiText(src) && s.start == s.current < |src|
    requires var c := src[s.current];
      !IsAlphaNumeric(c) && c !in "(){},.+;*!<>=/\" \r\t\n"
    ensures ScanToken(src, s) == Ok(s.(current := s.current + 1, sink := ErrorSink.Error(s.sink, s.line, InvalidToken)))
  {
  }

  // ---------------------------------------------------------------------
  // Whole scans

  /** Empty input yields exactly the `Eof` token, with an empty lexeme, on
      line 1, and reports nothing. */
  lemma ScanEmpty(sink: ErrorSink.Loxr)
    ensures Scan([], sink) == Ok(Scanner(0, 0, 1, [Token(Eof, 0, 0, None, 1)], sink))
  {
  }

  /** The kinds of a token sequence, in order. */
  function Kinds(ts: seq<Token>): (ks: seq<TokenType>) {
    if |ts| == 0 then [] else Kinds(ts[..|ts| - 1]) + [ts[|ts| - 1].kind]
  }

  /** The characters of fixed punctuation and operators the scanner accepts. */
  predicate IsOperatorChar(c: char) {
    c in "(){},.+;*!<>="
  }

  /** An independent reading of punctuation text: split it by longest
      match against the spelling table of the token vocabulary; `None`
      when some character has no spelling. */
  function PunctuationReading(w: seq<char>, i: nat): (ks: Option<seq<TokenType>>)
    requires i <= |w|
    decreases |w| - i
  {
    if i == |w| then Some([])
    else if i + 1 < |w| && PunctuatorKind([w[i], w[i + 1]]).Some? then
      Prepend(PunctuatorKind([w[i], w[i + 1]]).value, PunctuationReading(w, i + 2))
    else if PunctuatorKind([w[i]]).Some? then
      Prepend(PunctuatorKind([w[i]]).value, PunctuationReading(w, i + 1))
    else
      None
  }

  function Prepend(k: TokenType, rest: Option<seq<TokenType>>): (ks: Option<seq<TokenType>>) {
    match rest
    case Some(ks) => Some([k] + ks)
    case None => None
  }

  /** The reading takes a two-character operator first when the table
      spells one. */
  lemma LongestMatchPair(src: seq<char>, i: nat, t: TokenType)
    requires i + 1 < |src|
    requires PunctuatorText(t) == Some([src[i], src[i + 1]])
    ensures PunctuationReading(src, i) == Prepend(t, PunctuationReading(src, i + 2))
  {
    PunctuatorTableRoundTrip([src[i], src[i + 1]], t);
  }

  /** Otherwise it takes the single character. */
  lemma LongestMatchSingle(src: seq<char>, i: nat, t: TokenType)
    requires i < |src|
    requires PunctuatorText(t) == Some([src[i]])
    requires i + 1 < |src| ==> src[i + 1] != '=' || src[i] !in "!<>="
    ensures PunctuationReading(src, i) == Prepend(t, PunctuationReading(src, i + 1))
  {
    PunctuatorTableRoundTrip([src[i]], t);
    if i + 1 < |src| {
      var pair := [src[i], src[i + 1]];
      PunctuatorTableRoundTrip(pair, PunctuatorKind(pair).GetOr(Eof));
    }
  }

  /** One step on punctuation-only text takes exactly the token the
      longest-match reading takes first. */
  lemma PunctuationStep(src: seq<char>, s: Scanner)
    requires s.start == s.current < |src| && IsOperatorChar(src[s.current])
    ensures var o := ScanToken(src, s);
      && o.Ok?
      && s.current < o.s.current
      && o.s.sink == s.sink && o.s.line == s.line
      && |o.s.tokens| == |s.tokens| + 1
      && o.s.tokens[..|s.tokens|] == s.tokens
      && PunctuationReading(src, s.current) == Prepend(o.s.tokens[|s.tokens|].kind, PunctuationReading(src, o.s.current))
  {
    if src[s.current] in "!<>=" {
      EqualSuffixPunctuationStep(src, s);
    } else {
      SingleCharacterPunctuationStep(src, s);
    }
  }

  lemma EqualSuffixPunctuationStep(src: seq<char>, s: Scanner)
    requires s.start == s.current < |src| && src[s.current] in "!<>="
    ensures var o := ScanToken(src, s);
      && o.Ok?
      && s.current < o.s.current
      && o.s.sink == s.sink && o.s.line == s.line
      && |o.s.tokens| == |s.tokens| + 1
      && o.s.tokens[..|s.tokens|] == s.tokens
      && PunctuationReading(src, s.current) == Prepend(o.s.tokens[|s.tokens|].kind, PunctuationReading(src, o.s.current))
  {
    var ks := EqualSuffixKinds(src[s.current]);
    var next := MatchNextAddToken(src, s.(current := s.current + 1), '=', ks.0, ks.1);
    EqualSuffixScan(src, s);
    PunctuationTokenStep(src, s, next, next.tokens[|s.tokens|].kind);
  }

  lemma SingleCharacterPunctuationStep(src: seq<char>, s: Scanner)
    requires s.start == s.current < |src| && src[s.current] in "(){},.+;*"
    ensures var o := ScanToken(src, s);
      && o.Ok?
      && s.current < o.s.current
      && o.s.sink == s.sink && o.s.line == s.line
      && |o.s.tokens| == |s.tokens| + 1
      && o.s.tokens[..|s.tokens|] == s.tokens
      && PunctuationReading(src, s.current) == Prepend(o.s.tokens[|s.tokens|].kind, PunctuationReading(src, o.s.current))
  {
    var k := SingleCharacterKind(src[s.current]);
    var next := AddToken(src, s.(current := s.current + 1), k, None);
    SingleCharacterScan(src, s);
    PunctuationTokenStep(src, s, next, k);
  }

  /** A step that adds one punctuation token spelled by the characters it
      consumed agrees with the reading. */
  lemma PunctuationTokenStep(src: seq<char>, s: Scanner, next: Scanner, k: TokenType)
    requires s.start == s.current < next.current <= s.current + 2 && next.current <= |src|
    requires next == s.(current := next.current, tokens := s.tokens + [Token(k, s.current, next.current, None, s.line)])
    requires PunctuatorText(k) == Some(if next.current == s.current + 2 then [src[s.current], src[s.current + 1]] else [src[s.current]])
    requires next.current == s.current + 1 && s.current + 1 < |src| ==> src[s.current + 1] != '=' || src[s.current] !in "!<>="
    ensures s.current < next.current
    ensures next.sink == s.sink && next.line == s.line
    ensures |next.tokens| == |s.tokens| + 1
    ensures next.tokens[..|s.tokens|] == s.tokens
    ensures PunctuationReading(src, s.current) == Prepend(next.tokens[|s.tokens|].kind, PunctuationReading(src, next.current))
  {
    assert next.tokens[..|s.tokens|] == s.tokens;
    LongestMatch(src, s.current, next.current, k);
  }

  /** The token a step takes, spelled by the characters it consumed, is the
      token the longest-match reading takes first. */
  lemma LongestMatch(src: seq<char>, i: nat, j: nat, t: TokenType)
    requires i < j <= i + 2 && j <= |src|
    requires PunctuatorText(t) == Some(if j == i + 2 then [src[i], src[i + 1]] else [src[i]])
    requires j == i + 1 && i + 1 < |src| ==> src[i + 1] != '=' || src[i] !in "!<>="
    ensures PunctuationReading(src, i) == Prepend(t, PunctuationReading(src, j))
  {
    if j == i + 2 {
      LongestMatchPair(src, i, t);
    } else {
      LongestMatchSingle(src, i, t);
    }
  }

  /** Bookkeeping for one step of `PunctuationRun`: the step's token,
      followed by the rest of the reading, extends both sides alike. */
  lemma ReadingCons(here: Option<seq<TokenType>>, next: Option<seq<TokenType>>,
                    before: seq<Token>, after: seq<Token>, final: seq<Token>)
    requires |after| == |before| + 1 && after[..|before|] == before
    requires here == Prepend(after[|before|].kind, next)
    requires next.Some?
    requires Kinds(final) == Kinds(after) + next.value + [Eof]
    ensures here.Some?
    ensures Kinds(final) == Kinds(before) + here.value + [Eof]
  {
    assert after[..|after| - 1] == before;
    ConcatShift(Kinds(final), Kinds(after), Kinds(before), after[|before|].kind, next.value, here.value);
  }

  lemma ConcatShift(f: seq<TokenType>, a: seq<TokenType>, b: seq<TokenType>, k: TokenType,
                    n: seq<TokenType>, h: seq<TokenType>)
    requires a == b + [k] && h == [k] + n && f == a + n + [Eof]
    ensures f == b + h + [Eof]
  {
    assert b + [k] + n == b + ([k] + n);
  }

  /** On text made only of punctuation and operators the scan never
      panics, reports nothing, stays on one line, and yields exactly the
      kinds of the longest-match reading, then `Eof`. */
  lemma {:induction false} PunctuationRun(src: seq<char>, s: Scanner)
    requires s.start <= s.current <= |src|
    requires forall k :: s.current <= k < |src| ==> IsOperatorChar(src[k])
    ensures Run(src, s).Ok?
    ensures Run(src, s).s.sink == s.sink && Run(src, s).s.line == s.line
    ensures PunctuationReading(src, s.current).Some?
    ensures Kinds(Run(src, s).s.tokens) == Kinds(s.tokens) + PunctuationReading(src, s.current).value + [Eof]
    decreases |src| - s.current
  {
    if s.current < |src| {
      var s' := s.(start := s.current);
      var o := ScanToken(src, s');
      PunctuationStep(src, s');
      RunStep(src, s);
      PunctuationRun(src, o.s);
      ReadingCons(PunctuationReading(src, s.current), PunctuationReading(src, o.s.current),
                  s.tokens, o.s.tokens, Run(src, s).s.tokens);
    } else {
      var r := AddToken(src, s, Eof, None);
      assert r.tokens[..|r.tokens| - 1] == s.tokens;
    }
  }

  lemma OperatorCharIsAscii(c: char)
    requires IsOperatorChar(c)
    ensures IsAscii(c)
  {
  }

  /** A whole scan of punctuation-only text: it never panics, reports
      nothing, and its token kinds are the longest-match reading followed
      by one `Eof`. */
  lemma PunctuationScan(src: seq<char>, sink: ErrorSink.Loxr)
    requires forall k :: 0 <= k < |src| ==> IsOperatorChar(src[k])
    ensures AsciiText(src)
    ensures Scan(src, sink).Ok? && Scan(src, sink).s.sink == sink
    ensures PunctuationReading(src, 0).Some?
    ensures Kinds(Scan(src, sink).s.tokens) == PunctuationReading(src, 0).value + [Eof]
  {
    forall k | 0 <= k < |src| ensures IsAscii(src[k]) {
      OperatorCharIsAscii(src[k]);
    }
    assert Scan(src, sink) == Run(src, Init(src, sink));
    PunctuationRunFromStart(src, sink);
  }

  lemma PunctuationRunFromStart(src: seq<char>, sink: ErrorSink.Loxr)
    requires forall k :: 0 <= k < |src| ==> IsOperatorChar(src[k])
    ensures var o := Run(src, Init(src, sink));
      && o.Ok? && o.s.sink == sink
      && PunctuationReading(src, 0).Some?
      && Kinds(o.s.tokens) == PunctuationReading(src, 0).value + [Eof]
  {
    var s0 := Init(src, sink);
    PunctuationRun(src, s0);
    var none: seq<Token> := [];
    assert Kinds(none) == [];
    DropEmpty(Kinds(Run(src, s0).s.tokens), Kinds(none), PunctuationReading(src, 0).value);
  }

  lemma DropEmpty(f: seq<TokenType>, a: seq<TokenType>, r: seq<TokenType>)
    requires a == [] && f == a + r + [Eof]
    ensures f == r + [Eof]
  {
    assert a + r == r;
  }

  /** A finished scan that holds any identifier, keyword or number token
      has reported an error: every such token comes from the branch that
      goes on to report "Invalid token". */
  lemma WordTokenMeansError(src: seq<char>, sink: ErrorSink.Loxr, k: nat)
    requires AsciiText(src)
    requires Scan(src, sink).Ok? && k < |Scan(src, sink).s.tokens|
    requires IsWordKind(Scan(src, sink).s.tokens[k].kind)
    ensures Scan(src, sink).s.sink.hadError
  {
    var o := Run(src, Init(src, sink));
    assert Scan(src, sink) == o;
    RunKeepsInvariant(src, Init(src, sink));
    FinishedWordMeansError(src, o.s, k);
  }

  lemma FinishedWordMeansError(src: seq<char>, s: Scanner, k: nat)
    requires Finished(src, s) && k < |s.tokens| && IsWordKind(s.tokens[k].kind)
    ensures s.sink.hadError
  {
    var n := |s.tokens|;
    assert k < n - 1;
    assert s.tokens[..n - 1][k] == s.tokens[k];
  }

  /** Only a `/` can make a step panic: every other character is consumed
      without reading past the end of the input. */
  lemma PanicOnlyAtSlash(src: seq<char>, s: Scanner)
    requires AsciiText(src) && s.start == s.current < |src|
    requires ScanToken(src, s).Panic?
    ensures src[s.current] == '/'
  {
  }

  /** Input with no `/` from the cursor on never makes the scan panic. */
  lemma {:induction false} NoSlashNeverPanics(src: seq<char>, s: Scanner)
    requires AsciiText(src) && s.start <= s.current <= |src|
    requires forall k :: s.current <= k < |src| ==> src[k] != '/'
    ensures Run(src, s).Ok?
    decreases |src| - s.current
  {
    if s.current < |src| {
      var s' := s.(start := s.current);
      if ScanToken(src, s').Panic? {
        PanicOnlyAtSlash(src, s');
      } else {
        ScanTokenEffect(src, s');
        NoSlashNeverPanics(src, ScanToken(src, s').s);
      }
    }
  }

  /** The loop only ever adds to the sink, whatever state it starts from:
      once an error is reported, `had_error` stays set. */
  lemma {:induction false} RunExtendsSink(src: seq<char>, s: Scanner)
    requires s.start <= s.current <= |src|
    ensures ErrorSink.Extends(s.sink, Run(src, s).s.sink)
    decreases |src| - s.current
  {
    if s.current < |src| {
      var s' := s.(start := s.current);
      var o := ScanToken(src, s');
      ScanTokenEffect(src, s');
      if o.Ok? {
        RunExtendsSink(src, o.s);
        ErrorSink.ExtendsTransitive(s.sink, o.s.sink, Run(src, o.s).s.sink);
      }
    }
  }

  /** The `Eof` lexeme starts where the last step started, not at the end:
      on non-empty input that finishes, it is never empty. */
  lemma {:induction false} EofLexemeOfLastStep(src: seq<char>, s: Scanner)
    requires s.start <= s.current < |src|
    requires Run(src, s).Ok?
    ensures var o := Run(src, s).s;
      var eof := o.tokens[|o.tokens| - 1];
      s.current <= eof.lo < eof.hi == |src|
    decreases |src| - s.current
  {
    var s' := s.(start := s.current);
    var o := ScanToken(src, s');
    RunStep(src, s);
    if o.s.current < |src| {
      EofLexemeOfLastStep(src, o.s);
    }
  }

  /** On a whole scan: the `Eof` token's lexeme is empty exactly when the
      input is. */
  lemma EofLexemeEmptyIffEmptyInput(src: seq<char>, sink: ErrorSink.Loxr)
    requires AsciiText(src) && Scan(src, sink).Ok?
    ensures var o := Scan(src, sink).s;
      var eof := o.tokens[|o.tokens| - 1];
      eof.hi == |src| && (eof.lo == eof.hi <==> |src| == 0)
  {
    var s0 := Init(src, sink);
    assert Scan(src, sink) == Run(src, s0);
    if |src| > 0 {
      EofLexemeOfLastStep(src, s0);
    }
  }
}

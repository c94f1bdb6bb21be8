/**
  The scanner of src/lexer/lexer.rs: one left-to-right pass over the source
  characters that produces tokens and reports malformed input to the sink.

  The source is a `seq<char>`; a token's lexeme is the offsets `[lo, hi)`
  into it. Two reads of the original are not bounds-checked; reaching them
  with the cursor at the end is an `Outcome.Panic` here.
 */
module Lexer {
  import opened Wrappers
  import opened Tokens
  import ErrorSink

  const InvalidToken := "Invalid token"
  const UnterminatedString := "Unterminated string"
  const NoEndingToBlockComment := "No ending to block comment"

  /** The scanner's mutable state: the cursor (`start` of the token being
      scanned, `current` next unread offset), the line counter, the tokens
      produced so far, and the sink it reports to. */
  datatype Scanner = Scanner(start: nat, current: nat, line: nat, tokens: seq<Token>, sink: ErrorSink.Loxr)

  /** Scanning either finishes, or panics indexing `src` at `index`, which
      is out of bounds; `s` is the state at the moment of the panic. */
  datatype Outcome = Ok(s: Scanner) | Panic(s: Scanner, index: nat)

  // ---------------------------------------------------------------------
  // Shape of the tokens the scanner produces

  /** The lexeme `src[t.lo..t.hi]` has the form the token's kind demands. */
  predicate Shaped(src: seq<char>, t: Token) {
    t.lo <= t.hi <= |src| &&
    var w := src[t.lo..t.hi];
    if PunctuatorText(t.kind).Some? then
      && w == PunctuatorText(t.kind).value
      && t.literal.None?
      && (IsEqualPrefixKind(t.kind) ==> t.hi == |src| || src[t.hi] != '=')
      && (t.kind == Slash ==> t.hi < |src| && src[t.hi] != '/' && src[t.hi] != '*')
    else if t.kind == String then
      && |w| >= 2 && w[0] == '"' && w[|w| - 1] == '"'
      && (forall k :: 0 < k < |w| - 1 ==> w[k] != '"')
      && t.literal == Some(Str(w[1..|w| - 1]))
    else if t.kind == Number then
      && IsNumberText(w)
      && (t.hi == |src| || !IsDigit(src[t.hi]))
      && t.literal == Some(Num(w))
    else if t.kind == Eof then
      t.hi == |src| && t.literal.None?
    else
      && |w| > 0 && IsAlpha(w[0]) && AllAlphaNumeric(w)
      && (t.hi == |src| || !IsAlphaNumeric(src[t.hi]))
      && t.kind == WordKind(w)
      && t.literal.None?
  }

  /** A token one scan step may add: well shaped, never `Minus`, never `Eof`. */
  predicate Emitted(src: seq<char>, t: Token) {
    Shaped(src, t) && t.kind != Minus && t.kind != Eof
  }

  /** The invariant of the scan loop. */
  predicate Running(src: seq<char>, s: Scanner) {
    && s.start <= s.current <= |src|
    && s.line >= 1
    && TokensWithin(src, s.tokens, s.current, s.line)
    && TokensOrdered(s.tokens)
    && WordsReported(s.tokens, s.sink.hadError)
  }

  /** Every token is well shaped, lies in the consumed input, and was added
      on a line counted so far. */
  predicate TokensWithin(src: seq<char>, ts: seq<Token>, current: nat, line: nat) {
    forall k :: 0 <= k < |ts| ==> Emitted(src, ts[k]) && ts[k].hi <= current && 1 <= ts[k].line <= line
  }

  /** Tokens follow one another in the input and in line order. */
  predicate TokensOrdered(ts: seq<Token>) {
    forall k :: 0 <= k < |ts| - 1 ==> ts[k].hi <= ts[k + 1].lo && ts[k].line <= ts[k + 1].line
  }

  /** A word token is only ever present together with a reported error. */
  predicate WordsReported(ts: seq<Token>, hadError: bool) {
    forall k :: 0 <= k < |ts| && IsWordKind(ts[k].kind) ==> hadError
  }

  /** What one scan step does to the state: it consumes input, keeps the
      cursor in bounds, and adds at most one token, spanning exactly the
      consumed input; a word token always comes with an error. */
  predicate StepEffect(src: seq<char>, s: Scanner, next: Scanner) {
    && s.current < next.current <= |src|
    && next.start == s.start
    && s.line <= next.line
    && s.tokens <= next.tokens
    && |next.tokens| <= |s.tokens| + 1
    && (|next.tokens| > |s.tokens| ==>
          var t := next.tokens[|s.tokens|];
          && t.lo == s.start && t.hi == next.current && t.line == next.line
          && Emitted(src, t)
          && (IsWordKind(t.kind) ==> next.sink.hadError))
    && ErrorSink.Extends(s.sink, next.sink)
    && (ErrorSink.Consistent(s.sink) ==> ErrorSink.Consistent(next.sink))
  }

  /** The state after the loop: the cursor at the end, and the tokens of the
      loop followed by one `Eof` token whose lexeme runs from the last
      step's `start` to the end. */
  predicate Finished(src: seq<char>, s: Scanner) {
    && s.current == |src|
    && |s.tokens| > 0
    && Running(src, s.(tokens := s.tokens[..|s.tokens| - 1]))
    && s.tokens[|s.tokens| - 1] == Token(Eof, s.start, |src|, None, s.line)
  }

  // ---------------------------------------------------------------------
  // Cursor primitives

  /** Whether the cursor `i` has no character left to read. */
  predicate IsAtEnd(src: seq<char>, i: nat)
    ensures !IsAtEnd(src, i) <==> i < |src|
  {
    i >= |src|
  }

  /** The character at `i`, or NUL past the end. */
  function Peek(src: seq<char>, i: nat): (c: char)
    ensures i < |src| ==> c == src[i]
    ensures IsAtEnd(src, i) ==> c == '\0'
  {
    if IsAtEnd(src, i) then '\0' else src[i]
  }

  /** The character at `i + 1`, or NUL past the end: a look one further
      than `Peek`. */
  function PeekNext(src: seq<char>, i: nat): (c: char)
    ensures c == Peek(src, i + 1)
  {
    if i + 1 >= |src| then '\0' else src[i + 1]
  }

  /** Appends one token whose lexeme is `src[start..current]`, on the
      current line; nothing else changes. */
  function AddToken(src: seq<char>, s: Scanner, kind: TokenType, literal: Option<Literal>): (r: Scanner)
    requires s.start <= s.current <= |src|
    ensures |r.tokens| == |s.tokens| + 1 && r.tokens[..|s.tokens|] == s.tokens
    ensures r.tokens[|s.tokens|] == Token(kind, s.start, s.current, literal, s.line)
    ensures r == s.(tokens := r.tokens)
  {
    s.(tokens := s.tokens + [Token(kind, s.start, s.current, literal, s.line)])
  }

  predicate NotNewline(c: char) {
    c != '\n'
  }

  /** Advances from `i` while `p` holds: the end of the maximal run of
      characters satisfying `p` that starts at `i`. */
  function SkipWhile(src: seq<char>, i: nat, p: char -> bool): (j: nat)
    requires i <= |src|
    ensures i <= j <= |src|
    ensures forall k :: i <= k < j ==> p(src[k])
    ensures j == |src| || !p(src[j])
    decreases |src| - i
  {
    if !IsAtEnd(src, i) && p(src[i]) then SkipWhile(src, i + 1, p) else i
  }

  /** Number of newline characters in `w`. */
  function Newlines(w: seq<char>): nat {
    if |w| == 0 then 0 else (if w[0] == '\n' then 1 else 0) + Newlines(w[1..])
  }

  // ---------------------------------------------------------------------
  // The sub-scanners

  /** `match_next_add_token`: the two-character kind, consuming `expected`,
      exactly when the next character exists and is `expected`; otherwise
      the one-character kind with nothing more consumed. */
  function MatchNextAddToken(src: seq<char>, s: Scanner, expected: char, matches: TokenType, matchesNot: TokenType): (r: Scanner)
    requires s.start <= s.current <= |src|
    ensures var matched := s.current < |src| && src[s.current] == expected;
      && r.current == (if matched then s.current + 1 else s.current)
      && r.tokens == s.tokens + [Token(if matched then matches else matchesNot, s.start, r.current, None, s.line)]
      && r == s.(current := r.current, tokens := r.tokens)
  {
    if IsAtEnd(src, s.current) || src[s.current] != expected then
      AddToken(src, s, matchesNot, None)
    else
      AddToken(src, s.(current := s.current + 1), matches, None)
  }

  /** A position where the two characters `*` `/` close a block comment. */
  predicate ClosesAt(src: seq<char>, k: int) {
    0 <= k && k + 1 < |src| && src[k] == '*' && src[k + 1] == '/'
  }

  /** The block-comment loop, entered after slash-star. It stops just after the
      first star-slash; it does not count newlines. When the end is reached it
      reports the missing end and then advances past the end, which panics. */
  function BlockComment(src: seq<char>, s: Scanner): (o: Outcome)
    requires s.current <= |src|
    ensures o.Ok? <==> exists k :: s.current <= k && ClosesAt(src, k)
    ensures o.Ok? ==>
      && s.current + 2 <= o.s.current
      && ClosesAt(src, o.s.current - 2)
      && (forall k :: s.current <= k < o.s.current - 2 ==> !ClosesAt(src, k))
      && o.s == s.(current := o.s.current)
    ensures o.Panic? ==>
      && o.index == |src|
      && o.s == s.(current := |src|, sink := ErrorSink.Error(s.sink, s.line, NoEndingToBlockComment))
    decreases |src| - s.current
  {
    if IsAtEnd(src, s.current) then
      Panic(s.(sink := ErrorSink.Error(s.sink, s.line, NoEndingToBlockComment)), s.current)
    else if Peek(src, s.current) == '*' && PeekNext(src, s.current) == '/' then
      assert ClosesAt(src, s.current);
      Ok(s.(current := s.current + 2))
    else
      BlockComment(src, s.(current := s.current + 1))
  }

  /** The `/` case, entered with the `/` consumed. */
  function SlashOrComment(src: seq<char>, s: Scanner): (o: Outcome)
    requires s.start + 1 == s.current <= |src| && src[s.start] == '/'
    ensures s.current == |src| <==> o == Panic(s, |src|)
    ensures s.current < |src| && src[s.current] == '/' ==>
      && o == Ok(s.(current := o.s.current))
      && s.current <= o.s.current <= |src|
      && (o.s.current == |src| || src[o.s.current] == '\n')
      && (forall k :: s.current <= k < o.s.current ==> src[k] != '\n')
    ensures s.current < |src| && src[s.current] == '*' ==>
      o == BlockComment(src, s.(current := s.current + 1))
    ensures s.current < |src| && src[s.current] != '/' && src[s.current] != '*' ==>
      o == Ok(s.(tokens := s.tokens + [Token(Slash, s.start, s.current, None, s.line)]))
  {
    if IsAtEnd(src, s.current) then
      // `source_as_vec[current]` is read without an end check
      Panic(s, s.current)
    else if src[s.current] == '/' then
      Ok(s.(current := SkipWhile(src, s.current, NotNewline)))
    else if Peek(src, s.current) == '*' then
      BlockComment(src, s.(current := s.current + 1))
    else
      Ok(AddToken(src, s, Slash, None))
  }

  /** The body of the string loop: advances to the closing quote or the end,
      counting the newlines it passes. */
  function StringBody(src: seq<char>, s: Scanner): (r: Scanner)
    requires s.current <= |src|
    ensures s.current <= r.current <= |src|
    ensures r.current == |src| || src[r.current] == '"'
    ensures forall k :: s.current <= k < r.current ==> src[k] != '"'
    ensures r.line == s.line + Newlines(src[s.current..r.current])
    ensures r == s.(current := r.current, line := r.line)
    decreases |src| - s.current
  {
    if Peek(src, s.current) != '"' && !IsAtEnd(src, s.current) then
      var line := if Peek(src, s.current) == '\n' then s.line + 1 else s.line;
      var r := StringBody(src, s.(line := line, current := s.current + 1));
      assert src[s.current..r.current][1..] == src[s.current + 1..r.current];
      r
    else
      s
  }

  /** A string literal, entered with the opening quote consumed. With a
      closing quote ahead, one `String` token whose literal is exactly the
      text strictly between the quotes, escapes not processed; otherwise
      "Unterminated string" and no token. Newlines inside count as lines. */
  function StringLiteral(src: seq<char>, s: Scanner): (r: Scanner)
    requires s.start + 1 == s.current <= |src| && src[s.start] == '"'
    ensures s.tokens <= r.tokens && |r.tokens| <= |s.tokens| + 1
    ensures |r.tokens| > |s.tokens| <==> exists k :: s.current <= k < |src| && src[k] == '"'
    ensures |r.tokens| > |s.tokens| ==>
      && s.current < r.current <= |src|
      && src[r.current - 1] == '"'
      && (forall k :: s.current <= k < r.current - 1 ==> src[k] != '"')
      && r.line == s.line + Newlines(src[s.current..r.current - 1])
      && r.tokens[|s.tokens|] == Token(String, s.start, r.current, Some(Str(src[s.current..r.current - 1])), r.line)
      && r == s.(current := r.current, line := r.line, tokens := r.tokens)
    ensures |r.tokens| == |s.tokens| ==>
      && r.current == |src|
      && r.line == s.line + Newlines(src[s.current..])
      && r == s.(current := |src|, line := r.line, sink := ErrorSink.Error(s.sink, r.line, UnterminatedString))
  {
    var b := StringBody(src, s);
    if IsAtEnd(src, b.current) then
      assert src[s.current..b.current] == src[s.current..];
      b.(sink := ErrorSink.Error(b.sink, b.line, UnterminatedString))
    else
      assert src[b.current] == '"';
      AddToken(src, b.(current := b.current + 1), String, Some(Str(src[s.start + 1..b.current])))
  }

  /** Once a number ends at `j`, no longer prefix of the input starting at
      `start` is number text either. */
  lemma {:induction false} NumberIsMaximalMunch(src: seq<char>, start: nat, j: nat)
    requires start < j <= |src|
    requires IsNumberText(src[start..j])
    requires j == |src| || !IsDigit(src[j])
    requires j + 1 < |src| && src[j] == '.' && IsDigit(src[j + 1]) ==> '.' in src[start..j]
    ensures forall e :: j < e <= |src| ==> !IsNumberText(src[start..e])
  {
    forall e | j < e <= |src|
      ensures !IsNumberText(src[start..e])
    {
      var w := src[start..e];
      assert w[j - start] == src[j];
      if src[j] == '.' {
        if '.' in src[start..j] {
          var m :| 0 <= m < j - start && src[start..j][m] == '.';
          assert w[m] == '.';
        } else if e == j + 1 {
          assert w[|w| - 1] == '.';
        } else {
          assert w[j + 1 - start] == src[j + 1];
        }
      }
    }
  }

  /** A non-empty run of digits is number text. */
  lemma DigitRunIsNumberText(src: seq<char>, start: nat, j: nat)
    requires start < j <= |src|
    requires forall k :: start <= k < j ==> IsDigit(src[k])
    ensures IsNumberText(src[start..j])
  {
    var w := src[start..j];
    assert forall k :: 0 <= k < |w| ==> w[k] == src[start + k];
  }

  /** Two non-empty digit runs joined by one `.` are number text. */
  lemma DottedRunIsNumberText(src: seq<char>, start: nat, i: nat, j: nat)
    requires start < i && i + 1 < j <= |src|
    requires forall k :: start <= k < j && k != i ==> IsDigit(src[k])
    requires src[i] == '.'
    ensures IsNumberText(src[start..j])
    ensures '.' in src[start..j]
  {
    var w := src[start..j];
    assert forall k :: 0 <= k < |w| ==> w[k] == src[start + k];
    assert w[i - start] == '.';
  }

  /** A number literal, entered with its first digit consumed: a maximal
      digit run, then `.` and a second digit run only when the `.` is
      directly followed by a digit. The lexeme is the longest number text
      at `start`; the literal is that text. */
  function NumberLiteral(src: seq<char>, s: Scanner): (r: Scanner)
    requires s.start + 1 == s.current <= |src| && IsDigit(src[s.start])
    ensures s.current <= r.current <= |src|
    ensures IsNumberText(src[s.start..r.current])
    ensures r.current == |src| || !IsDigit(src[r.current])
    ensures forall e :: r.current < e <= |src| ==> !IsNumberText(src[s.start..e])
    ensures r == s.(current := r.current,
                    tokens := s.tokens + [Token(Number, s.start, r.current, Some(Num(src[s.start..r.current])), s.line)])
  {
    var i := SkipWhile(src, s.current, IsDigit);
    if Peek(src, i) == '.' && IsDigit(PeekNext(src, i)) then
      var j := SkipWhile(src, i + 1, IsDigit);
      DottedRunIsNumberText(src, s.start, i, j);
      NumberIsMaximalMunch(src, s.start, j);
      AddToken(src, s.(current := j), Number, Some(Num(src[s.start..j])))
    else
      DigitRunIsNumberText(src, s.start, i);
      NumberIsMaximalMunch(src, s.start, i);
      AddToken(src, s.(current := i), Number, Some(Num(src[s.start..i])))
  }

  /** An identifier or keyword, entered with its first letter consumed: the
      maximal alphanumeric run, whose kind is the keyword's exactly when the
      run is a reserved word, and `Identifier` otherwise. */
  function IdentifierOrKeyword(src: seq<char>, s: Scanner): (r: Scanner)
    requires s.start + 1 == s.current <= |src| && IsAlpha(src[s.start])
    ensures s.current <= r.current <= |src|
    ensures AllAlphaNumeric(src[s.start..r.current])
    ensures r.current == |src| || !IsAlphaNumeric(src[r.current])
    ensures var w := src[s.start..r.current];
      && r == s.(current := r.current, tokens := s.tokens + [Token(WordKind(w), s.start, r.current, None, s.line)])
      && (WordKind(w) == Identifier <==> w !in ReservedWords)
      && (WordKind(w) != Identifier ==> KeywordText(WordKind(w)) == w)
  {
    var j := SkipWhile(src, s.current, IsAlphaNumeric);
    var w := src[s.start..j];
    KeywordTableRoundTrip(w, WordKind(w));
    AddToken(src, s.(current := j), WordKind(w), None)
  }

  // ---------------------------------------------------------------------
  // One step and the scan loop

  /** `scan_token`: consumes one character and dispatches on it. A letter or
      digit is scanned as a word or number and is still reported as an
      invalid token; `-` has no case and is reported as invalid. */
  function ScanToken(src: seq<char>, s: Scanner): (o: Outcome)
    requires s.start == s.current < |src|
    ensures s.current < o.s.current <= |src|
    ensures o.s.start == s.start
    ensures o.Panic? ==> o.index == |src|
  {
    var c := src[s.current];
    var adv := s.(current := s.current + 1);
    match c
    case '(' => Ok(AddToken(src, adv, LeftParen, None))
    case ')' => Ok(AddToken(src, adv, RightParen, None))
    case '{' => Ok(AddToken(src, adv, LeftBrace, None))
    case '}' => Ok(AddToken(src, adv, RightBrace, None))
    case ',' => Ok(AddToken(src, adv, Comma, None))
    case '.' => Ok(AddToken(src, adv, Dot, None))
    case '+' => Ok(AddToken(src, adv, Plus, None))
    case ';' => Ok(AddToken(src, adv, Semicolon, None))
    case '*' => Ok(AddToken(src, adv, Star, None))
    case '!' => Ok(MatchNextAddToken(src, adv, '=', BangEqual, Bang))
    case '>' => Ok(MatchNextAddToken(src, adv, '=', GreaterEqual, Greater))
    case '<' => Ok(MatchNextAddToken(src, adv, '=', LessEqual, Less))
    case '=' => Ok(MatchNextAddToken(src, adv, '=', EqualEqual, Equal))
    case '/' => SlashOrComment(src, adv)
    case '\n' => Ok(adv.(line := adv.line + 1))
    case ' ' => Ok(adv)
    case '\r' => Ok(adv)
    case '\t' => Ok(adv)
    case '"' => Ok(StringLiteral(src, adv))
    case _ =>
      var scanned :=
        if IsDigit(c) then NumberLiteral(src, adv)
        else if IsAlphaNumeric(c) then IdentifierOrKeyword(src, adv)
        else adv;
      Ok(scanned.(sink := ErrorSink.Error(scanned.sink, scanned.line, InvalidToken)))
  }

  // ---------------------------------------------------------------------
  // What each branch of a step does

  /** A step that only adds one token and moves the cursor over it. */
  lemma AddedTokenStepEffect(src: seq<char>, s: Scanner, next: Scanner, t: Token)
    requires s.start == s.current < next.current <= |src|
    requires next == s.(current := next.current, tokens := s.tokens + [t])
    requires t.lo == s.start && t.hi == next.current && t.line == s.line
    requires Emitted(src, t) && !IsWordKind(t.kind)
    ensures StepEffect(src, s, next)
  {
    assert next.tokens[|s.tokens|] == t;
  }

  /** A token whose lexeme is its kind's fixed spelling is well shaped,
      given the lookahead conditions of its kind. */
  lemma PunctuatorTokenEmitted(src: seq<char>, t: Token, spelling: string)
    requires t.lo <= t.hi <= |src| && src[t.lo..t.hi] == spelling
    requires PunctuatorText(t.kind) == Some(spelling) && t.kind != Minus && t.literal.None?
    requires IsEqualPrefixKind(t.kind) ==> t.hi == |src| || src[t.hi] != '='
    requires t.kind == Slash ==> t.hi < |src| && src[t.hi] != '/' && src[t.hi] != '*'
    ensures Emitted(src, t) && !IsWordKind(t.kind)
  {
  }

  lemma PunctuatorStepEffect(src: seq<char>, s: Scanner, kind: TokenType)
    requires s.start == s.current < |src|
    requires PunctuatorText(kind) == Some([src[s.current]])
    requires !IsEqualPrefixKind(kind) && kind != Slash && kind != Minus
    ensures StepEffect(src, s, AddToken(src, s.(current := s.current + 1), kind, None))
  {
    OneCharacterStepEffect(src, s, AddToken(src, s.(current := s.current + 1), kind, None), kind);
  }

  lemma OperatorStepEffect(src: seq<char>, s: Scanner, matches: TokenType, matchesNot: TokenType)
    requires s.start == s.current < |src|
    requires PunctuatorText(matchesNot) == Some([src[s.current]]) && IsEqualPrefixKind(matchesNot)
    requires PunctuatorText(matches) == Some([src[s.current], '=']) && !IsEqualPrefixKind(matches)
    requires matches != Slash && matches != Minus
    ensures StepEffect(src, s, MatchNextAddToken(src, s.(current := s.current + 1), '=', matches, matchesNot))
  {
    var r := MatchNextAddToken(src, s.(current := s.current + 1), '=', matches, matchesNot);
    if s.current + 1 < |src| && src[s.current + 1] == '=' {
      TwoCharacterStepEffect(src, s, r, matches);
    } else {
      OneCharacterStepEffect(src, s, r, matchesNot);
    }
  }

  lemma TwoCharacterStepEffect(src: seq<char>, s: Scanner, next: Scanner, kind: TokenType)
    requires s.start == s.current && s.current + 1 < |src|
    requires next == s.(current := s.current + 2, tokens := s.tokens + [Token(kind, s.current, s.current + 2, None, s.line)])
    requires PunctuatorText(kind) == Some([src[s.current], src[s.current + 1]])
    requires !IsEqualPrefixKind(kind) && kind != Slash && kind != Minus
    ensures StepEffect(src, s, next)
  {
    var t := Token(kind, s.current, s.current + 2, None, s.line);
    assert src[s.current..s.current + 2] == [src[s.current], src[s.current + 1]];
    PunctuatorTokenEmitted(src, t, [src[s.current], src[s.current + 1]]);
    AddedTokenStepEffect(src, s, next, t);
  }

  lemma OneCharacterStepEffect(src: seq<char>, s: Scanner, next: Scanner, kind: TokenType)
    requires s.start == s.current < |src|
    requires next == s.(current := s.current + 1, tokens := s.tokens + [Token(kind, s.current, s.current + 1, None, s.line)])
    requires PunctuatorText(kind) == Some([src[s.current]])
    requires IsEqualPrefixKind(kind) ==> s.current + 1 == |src| || src[s.current + 1] != '='
    requires kind != Slash && kind != Minus
    ensures StepEffect(src, s, next)
  {
    var t := Token(kind, s.current, s.current + 1, None, s.line);
    assert src[s.current..s.current + 1] == [src[s.current]];
    PunctuatorTokenEmitted(src, t, [src[s.current]]);
    AddedTokenStepEffect(src, s, next, t);
  }

  lemma SlashStepEffect(src: seq<char>, s: Scanner)
    requires s.start == s.current < |src| && src[s.current] == '/'
    ensures StepEffect(src, s, SlashOrComment(src, s.(current := s.current + 1)).s)
  {
    var adv := s.(current := s.current + 1);
    if adv.current < |src| && src[adv.current] != '/' && src[adv.current] != '*' {
      assert src[s.current..s.current + 1] == [src[s.current]];
    } else if adv.current < |src| && src[adv.current] == '*' {
      var o := BlockComment(src, adv.(current := adv.current + 1));
      assert o.Panic? ==> o.s.sink.reported == s.sink.reported + [ErrorSink.Diagnostic(s.line, "", NoEndingToBlockComment)];
    }
  }

  /** A string token spanning two quotes with none between them, whose
      literal is the text between, is well shaped. */
  lemma StringTokenShaped(src: seq<char>, t: Token)
    requires t.kind == String && t.lo + 2 <= t.hi <= |src|
    requires src[t.lo] == '"' && src[t.hi - 1] == '"'
    requires forall k :: t.lo < k < t.hi - 1 ==> src[k] != '"'
    requires t.literal == Some(Str(src[t.lo + 1..t.hi - 1]))
    ensures Shaped(src, t)
  {
    var w := src[t.lo..t.hi];
    assert w[1..|w| - 1] == src[t.lo + 1..t.hi - 1];
    assert forall k :: 0 < k < |w| - 1 ==> w[k] == src[t.lo + k];
  }

  lemma StringStepEffect(src: seq<char>, s: Scanner)
    requires s.start == s.current < |src| && src[s.current] == '"'
    ensures StepEffect(src, s, StringLiteral(src, s.(current := s.current + 1)))
  {
    var r := StringLiteral(src, s.(current := s.current + 1));
    if |r.tokens| > |s.tokens| {
      StringTokenShaped(src, r.tokens[|s.tokens|]);
    }
  }

  /** The fall-through branch on a digit: a number, then the report. */
  lemma NumberStepEffect(src: seq<char>, s: Scanner)
    requires s.start == s.current < |src| && IsDigit(src[s.current])
    ensures var r := NumberLiteral(src, s.(current := s.current + 1));
      StepEffect(src, s, r.(sink := ErrorSink.Error(r.sink, r.line, InvalidToken)))
  {
    var r := NumberLiteral(src, s.(current := s.current + 1));
    var t := r.tokens[|s.tokens|];
    assert Shaped(src, t);
  }

  /** The fall-through branch on a letter: a word, then the report. */
  lemma WordStepEffect(src: seq<char>, s: Scanner)
    requires s.start == s.current < |src| && IsAlpha(src[s.current])
    ensures var r := IdentifierOrKeyword(src, s.(current := s.current + 1));
      StepEffect(src, s, r.(sink := ErrorSink.Error(r.sink, r.line, InvalidToken)))
  {
    var r := IdentifierOrKeyword(src, s.(current := s.current + 1));
    var w := src[s.start..r.current];
    assert w[0] == src[s.current];
    WordKindHasNoSpelling(WordKind(w));
    var t := r.tokens[|s.tokens|];
    assert Shaped(src, t);
  }

  /** The fall-through branch: a number, a word, or nothing, and in every
      case an "Invalid token" report. */
  lemma FallThroughStepEffect(src: seq<char>, s: Scanner)
    requires s.start == s.current < |src|
    ensures var c := src[s.current];
      var adv := s.(current := s.current + 1);
      var scanned :=
        if IsDigit(c) then NumberLiteral(src, adv)
        else if IsAlphaNumeric(c) then IdentifierOrKeyword(src, adv)
        else adv;
      StepEffect(src, s, scanned.(sink := ErrorSink.Error(scanned.sink, scanned.line, InvalidToken)))
  {
    var c := src[s.current];
    if IsDigit(c) {
      NumberStepEffect(src, s);
    } else if IsAlphaNumeric(c) {
      WordStepEffect(src, s);
    }
  }

  /** The kind a single-character case of `ScanToken` adds, for
      `( ) { } , . + ; *`. This is a proof-side copy of those arms of
      `ScanToken`, named so that lemmas about all nine arms can share one
      case split; `SingleCharacterScan` proves the two agree. */
  function SingleCharacterKind(c: char): (k: TokenType)
    requires c in "(){},.+;*"
    ensures PunctuatorText(k) == Some([c]) && !IsEqualPrefixKind(k) && k != Slash && k != Minus
  {
    match c
    case '(' => LeftParen
    case ')' => RightParen
    case '{' => LeftBrace
    case '}' => RightBrace
    case ',' => Comma
    case '.' => Dot
    case '+' => Plus
    case ';' => Semicolon
    case _ => Star
  }

  /** The kinds an equal-suffix case of `ScanToken` passes on to
      `MatchNextAddToken`: with the `=`, and without it. This is a
      proof-side copy of the `! > < =` arms of `ScanToken`;
      `EqualSuffixScan` proves the two agree. */
  function EqualSuffixKinds(c: char): (ks: (TokenType, TokenType))
    requires c in "!<>="
    ensures PunctuatorText(ks.0) == Some([c, '=']) && !IsEqualPrefixKind(ks.0) && ks.0 != Slash && ks.0 != Minus
    ensures PunctuatorText(ks.1) == Some([c]) && IsEqualPrefixKind(ks.1)
  {
    match c
    case '!' => (BangEqual, Bang)
    case '>' => (GreaterEqual, Greater)
    case '<' => (LessEqual, Less)
    case _ => (EqualEqual, Equal)
  }

  /** On `( ) { } , . + ; *` a step is `add_token` with that character's
      kind. */
  lemma SingleCharacterScan(src: seq<char>, s: Scanner)
    requires s.start == s.current < |src| && src[s.current] in "(){},.+;*"
    ensures ScanToken(src, s) == Ok(AddToken(src, s.(current := s.current + 1), SingleCharacterKind(src[s.current]), None))
  {
  }

  lemma SingleCharacterStepEffect(src: seq<char>, s: Scanner)
    requires s.start == s.current < |src| && src[s.current] in "(){},.+;*"
    ensures StepEffect(src, s, ScanToken(src, s).s)
  {
    SingleCharacterScan(src, s);
    PunctuatorStepEffect(src, s, SingleCharacterKind(src[s.current]));
  }

  /** On `! > < =` a step is `match_next_add_token` with that character's
      pair of kinds. */
  lemma EqualSuffixScan(src: seq<char>, s: Scanner)
    requires s.start == s.current < |src| && src[s.current] in "!<>="
    ensures var ks := EqualSuffixKinds(src[s.current]);
      ScanToken(src, s) == Ok(MatchNextAddToken(src, s.(current := s.current + 1), '=', ks.0, ks.1))
  {
  }

  lemma EqualSuffixStepEffect(src: seq<char>, s: Scanner)
    requires s.start == s.current < |src| && src[s.current] in "!<>="
    ensures StepEffect(src, s, ScanToken(src, s).s)
  {
    var ks := EqualSuffixKinds(src[s.current]);
    EqualSuffixScan(src, s);
    OperatorStepEffect(src, s, ks.0, ks.1);
  }

  lemma RemainingStepEffect(src: seq<char>, s: Scanner)
    requires s.start == s.current < |src| && src[s.current] !in "!<>=(){},.+;*"
    ensures StepEffect(src, s, ScanToken(src, s).s)
  {
    var c := src[s.current];
    if c == '/' {
      SlashStepEffect(src, s);
    } else if c == '"' {
      StringStepEffect(src, s);
    } else if c == '\n' || c == ' ' || c == '\r' || c == '\t' {
    } else {
      FallThroughStepEffect(src, s);
    }
  }

  /** Every step adds at most one well-shaped token spanning exactly the
      input it consumed, never `Minus` or `Eof`; the sink only grows. */
  lemma ScanTokenEffect(src: seq<char>, s: Scanner)
    requires s.start == s.current < |src|
    ensures StepEffect(src, s, ScanToken(src, s).s)
  {
    var c := src[s.current];
    if c in "(){},.+;*" {
      SingleCharacterStepEffect(src, s);
    } else if c in "!<>=" {
      EqualSuffixStepEffect(src, s);
    } else {
      RemainingStepEffect(src, s);
    }
  }

  // ---------------------------------------------------------------------
  // The scan loop

  /** A step taken from a running state, with `start` reset to `current`,
      leads to a running state. */
  lemma StepPreservesRunning(src: seq<char>, s: Scanner, next: Scanner)
    requires Running(src, s) && s.start == s.current
    requires StepEffect(src, s, next)
    ensures Running(src, next)
  {
    StepKeepsTokensWithin(src, s, next);
    StepKeepsTokensOrdered(src, s, next);
    StepKeepsWordsReported(src, s, next);
  }

  lemma StepKeepsTokensWithin(src: seq<char>, s: Scanner, next: Scanner)
    requires TokensWithin(src, s.tokens, s.current, s.line) && s.start == s.current && s.line >= 1
    requires StepEffect(src, s, next)
    ensures TokensWithin(src, next.tokens, next.current, next.line)
  {
    TokensWithinWidened(src, s.tokens, s.current, s.line, next.current, next.line);
    if |next.tokens| > |s.tokens| {
      assert next.tokens == s.tokens + [next.tokens[|s.tokens|]];
      TokensWithinAppend(src, s.tokens, next.tokens[|s.tokens|], next.current, next.line);
    } else {
      assert next.tokens == s.tokens;
    }
  }

  lemma TokensWithinWidened(src: seq<char>, ts: seq<Token>, current: nat, line: nat, current': nat, line': nat)
    requires TokensWithin(src, ts, current, line) && current <= current' && line <= line'
    ensures TokensWithin(src, ts, current', line')
  {
  }

  lemma TokensWithinAppend(src: seq<char>, ts: seq<Token>, t: Token, current: nat, line: nat)
    requires TokensWithin(src, ts, current, line)
    requires Emitted(src, t) && t.hi <= current && 1 <= t.line <= line
    ensures TokensWithin(src, ts + [t], current, line)
  {
    forall k | 0 <= k < |ts + [t]|
      ensures Emitted(src, (ts + [t])[k]) && (ts + [t])[k].hi <= current && 1 <= (ts + [t])[k].line <= line
    {
      if k < |ts| {
        assert (ts + [t])[k] == ts[k];
      }
    }
  }

  lemma StepKeepsTokensOrdered(src: seq<char>, s: Scanner, next: Scanner)
    requires TokensWithin(src, s.tokens, s.current, s.line) && TokensOrdered(s.tokens) && s.start == s.current
    requires StepEffect(src, s, next)
    ensures TokensOrdered(next.tokens)
  {
    var n := |s.tokens|;
    forall k | 0 <= k < |next.tokens| - 1
      ensures next.tokens[k].hi <= next.tokens[k + 1].lo && next.tokens[k].line <= next.tokens[k + 1].line
    {
      assert next.tokens[k] == s.tokens[k];
      if k + 1 < n {
        assert next.tokens[k + 1] == s.tokens[k + 1];
      }
    }
  }

  lemma StepKeepsWordsReported(src: seq<char>, s: Scanner, next: Scanner)
    requires WordsReported(s.tokens, s.sink.hadError)
    requires StepEffect(src, s, next)
    ensures WordsReported(next.tokens, next.sink.hadError)
  {
    forall k | 0 <= k < |next.tokens| && IsWordKind(next.tokens[k].kind)
      ensures next.sink.hadError
    {
      if k < |s.tokens| {
        assert next.tokens[k] == s.tokens[k];
      }
    }
  }

  /** `Scanner::new`: cursor at the start, line 1, no tokens. */
  function Init(src: seq<char>, sink: ErrorSink.Loxr): (s: Scanner)
    ensures Running(src, s)
    ensures s.tokens == [] && s.current == 0 && s.line == 1 && s.sink == sink
  {
    Scanner(0, 0, 1, [], sink)
  }

  /** The loop of `scan_tokens` from state `s`: step while input remains,
      then add the `Eof` token, whose lexeme runs from the last step's
      `start` to the end. */
  function Run(src: seq<char>, s: Scanner): (o: Outcome)
    requires s.start <= s.current <= |src|
    ensures o.Ok? ==> o.s.current == |src| && |o.s.tokens| > 0
    ensures o.Ok? ==> o.s.tokens[|o.s.tokens| - 1] == Token(Eof, o.s.start, |src|, None, o.s.line)
    ensures o.Panic? ==> o.index == |src|
    decreases |src| - s.current
  {
    if IsAtEnd(src, s.current) then
      Ok(AddToken(src, s, Eof, None))
    else
      var o := ScanToken(src, s.(start := s.current));
      if o.Panic? then o else Run(src, o.s)
  }

  /** The loop keeps its invariant: started from a running state it either
      finishes or panics in one, only appends tokens, and only adds to the
      sink. */
  lemma {:induction false} RunKeepsInvariant(src: seq<char>, s: Scanner)
    requires Running(src, s)
    ensures var o := Run(src, s);
      && (o.Ok? ==> Finished(src, o.s))
      && (o.Panic? ==> Running(src, o.s))
      && s.tokens <= o.s.tokens
      && ErrorSink.Extends(s.sink, o.s.sink)
      && (ErrorSink.Consistent(s.sink) ==> ErrorSink.Consistent(o.s.sink))
    decreases |src| - s.current
  {
    if IsAtEnd(src, s.current) {
      var r := AddToken(src, s, Eof, None);
      assert r.tokens[..|r.tokens| - 1] == s.tokens;
    } else {
      var s' := s.(start := s.current);
      var o := ScanToken(src, s');
      ScanTokenEffect(src, s');
      StepPreservesRunning(src, s', o.s);
      if o.Ok? {
        RunKeepsInvariant(src, o.s);
      }
    }
  }

  /** A step that does not panic hands the loop on to the next state. */
  lemma RunStep(src: seq<char>, s: Scanner)
    requires s.start <= s.current < |src|
    requires ScanToken(src, s.(start := s.current)).Ok?
    ensures Run(src, s) == Run(src, ScanToken(src, s.(start := s.current)).s)
  {
  }

  /** A finished state holds exactly one `Eof` token, as its last token,
      and every token is well shaped. */
  lemma FinishedTokens(src: seq<char>, s: Scanner)
    requires Finished(src, s)
    ensures |s.tokens| > 0 && s.tokens[|s.tokens| - 1].kind == Eof
    ensures forall k :: 0 <= k < |s.tokens| - 1 ==> s.tokens[k].kind != Eof
    ensures forall k :: 0 <= k < |s.tokens| ==> Shaped(src, s.tokens[k]) && s.tokens[k].kind != Minus
  {
    var n := |s.tokens|;
    assert forall k :: 0 <= k < n - 1 ==> s.tokens[k] == s.tokens[..n - 1][k];
  }

  /** ASCII source text: one byte per character. */
  predicate AsciiText(src: seq<char>) {
    forall k :: 0 <= k < |src| ==> IsAscii(src[k])
  }

  /** `Scanner::new` followed by `scan_tokens`. Unless it panics, the result
      ends with exactly one `Eof` token, and every token has the shape its
      kind demands; the sink is only ever added to. */
  function Scan(src: seq<char>, sink: ErrorSink.Loxr): (o: Outcome)
    requires AsciiText(src)
    ensures o.Ok? ==> |o.s.tokens| > 0 && o.s.tokens[|o.s.tokens| - 1].kind == Eof
    ensures o.Ok? ==> forall k :: 0 <= k < |o.s.tokens| - 1 ==> o.s.tokens[k].kind != Eof
    ensures o.Ok? ==> forall k :: 0 <= k < |o.s.tokens| ==> Shaped(src, o.s.tokens[k]) && o.s.tokens[k].kind != Minus
    ensures o.Panic? ==> o.index == |src|
    ensures ErrorSink.Extends(sink, o.s.sink)
    ensures ErrorSink.Consistent(sink) ==> ErrorSink.Consistent(o.s.sink)
  {
    var o := Run(src, Init(src, sink));
    RunKeepsInvariant(src, Init(src, sink));
    if o.Ok? then FinishedTokens(src, o.s); o else o
  }

  /** `scan_tokens`, as the original's while loop. */
  method ScanTokens(src: seq<char>, sink: ErrorSink.Loxr) returns (o: Outcome)
    requires AsciiText(src)
    ensures o == Scan(src, sink)
  {
    var s := Init(src, sink);
    while !IsAtEnd(src, s.current)
      invariant s.start <= s.current <= |src|
      invariant Run(src, s) == Scan(src, sink)
      decreases |src| - s.current
    {
      s := s.(start := s.current);
      var step := ScanToken(src, s);
      if step.Panic? {
        return step;
      }
      s := step.s;
    }
    o := Ok(AddToken(src, s, Eof, None));
  }
}

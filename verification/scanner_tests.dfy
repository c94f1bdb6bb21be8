/**
  The scanner's own test vectors, as lemmas about the model.
 */
module ScannerTests {
  import opened Wrappers
  import opened Tokens
  import opened Lexer
  import opened ScannerProperties
  import ErrorSink

  /** The input of `test_single_character_tokens`. */
  const Punctuation := "{}.()**}}!===!>=><=>"

  /** The kinds `test_single_character_tokens` expects before `Eof`. */
  const PunctuationKinds: seq<TokenType> := [
    LeftBrace, RightBrace, Dot, LeftParen, RightParen, Star, Star, RightBrace, RightBrace,
    BangEqual, EqualEqual, Bang, GreaterEqual, Greater, LessEqual, Greater
  ]

  /** The input of `should_return_err`. */
  const WordInBraces := "{}dfg{}"

  /** One token of the longest-match reading of `Punctuation`: the token at
      `i`, `width` characters wide, followed by whatever the rest reads as. */
  lemma PunctuationReadingStep(i: nat, width: nat, t: TokenType, rest: seq<TokenType>)
    requires (width == 1 || width == 2) && i + width <= |Punctuation|
    requires PunctuatorText(t) == Some(if width == 1 then [Punctuation[i]] else [Punctuation[i], Punctuation[i + 1]])
    requires width == 1 && i + 1 < |Punctuation| ==> Punctuation[i + 1] != '=' || Punctuation[i] !in "!<>="
    requires PunctuationReading(Punctuation, i + width) == Some(rest)
    ensures PunctuationReading(Punctuation, i) == Some([t] + rest)
  {
    if width == 1 {
      LongestMatchSingle(Punctuation, i, t);
    } else {
      LongestMatchPair(Punctuation, i, t);
    }
  }

  lemma PunctuationReadingFrom17(rest: seq<TokenType>)
    requires PunctuationReading(Punctuation, 20) == Some(rest)
    ensures PunctuationReading(Punctuation, 17) == Some([LessEqual] + ([Greater] + rest))
  {
    var r := rest;
    PunctuationReadingStep(19, 1, Greater, r); r := [Greater] + r;
    PunctuationReadingStep(17, 2, LessEqual, r); r := [LessEqual] + r;
  }

  lemma PunctuationReadingFrom14(rest: seq<TokenType>)
    requires PunctuationReading(Punctuation, 17) == Some(rest)
    ensures PunctuationReading(Punctuation, 14) == Some([GreaterEqual] + ([Greater] + rest))
  {
    var r := rest;
    PunctuationReadingStep(16, 1, Greater, r); r := [Greater] + r;
    PunctuationReadingStep(14, 2, GreaterEqual, r); r := [GreaterEqual] + r;
  }

  lemma PunctuationReadingFrom11(rest: seq<TokenType>)
    requires PunctuationReading(Punctuation, 14) == Some(rest)
    ensures PunctuationReading(Punctuation, 11) == Some([EqualEqual] + ([Bang] + rest))
  {
    var r := rest;
    PunctuationReadingStep(13, 1, Bang, r); r := [Bang] + r;
    PunctuationReadingStep(11, 2, EqualEqual, r); r := [EqualEqual] + r;
  }

  lemma PunctuationReadingFrom8(rest: seq<TokenType>)
    requires PunctuationReading(Punctuation, 11) == Some(rest)
    ensures PunctuationReading(Punctuation, 8) == Some([RightBrace] + ([BangEqual] + rest))
  {
    var r := rest;
    PunctuationReadingStep(9, 2, BangEqual, r); r := [BangEqual] + r;
    PunctuationReadingStep(8, 1, RightBrace, r); r := [RightBrace] + r;
  }

  lemma PunctuationReadingFrom6(rest: seq<TokenType>)
    requires PunctuationReading(Punctuation, 8) == Some(rest)
    ensures PunctuationReading(Punctuation, 6) == Some([Star] + ([RightBrace] + rest))
  {
    var r := rest;
    PunctuationReadingStep(7, 1, RightBrace, r); r := [RightBrace] + r;
    PunctuationReadingStep(6, 1, Star, r); r := [Star] + r;
  }

  lemma PunctuationReadingFrom4(rest: seq<TokenType>)
    requires PunctuationReading(Punctuation, 6) == Some(rest)
    ensures PunctuationReading(Punctuation, 4) == Some([RightParen] + ([Star] + rest))
  {
    var r := rest;
    PunctuationReadingStep(5, 1, Star, r); r := [Star] + r;
    PunctuationReadingStep(4, 1, RightParen, r); r := [RightParen] + r;
  }

  lemma PunctuationReadingFrom2(rest: seq<TokenType>)
    requires PunctuationReading(Punctuation, 4) == Some(rest)
    ensures PunctuationReading(Punctuation, 2) == Some([Dot] + ([LeftParen] + rest))
  {
    var r := rest;
    PunctuationReadingStep(3, 1, LeftParen, r); r := [LeftParen] + r;
    PunctuationReadingStep(2, 1, Dot, r); r := [Dot] + r;
  }

  lemma PunctuationReadingFrom0(rest: seq<TokenType>)
    requires PunctuationReading(Punctuation, 2) == Some(rest)
    ensures PunctuationReading(Punctuation, 0) == Some([LeftBrace] + ([RightBrace] + rest))
  {
    var r := rest;
    PunctuationReadingStep(1, 1, RightBrace, r); r := [RightBrace] + r;
    PunctuationReadingStep(0, 1, LeftBrace, r); r := [LeftBrace] + r;
  }

  /** The longest-match reading of the whole vector. */
  lemma PunctuationReadingAll()
    ensures PunctuationReading(Punctuation, 0) == Some(PunctuationKinds)
  {
    var none: seq<TokenType> := [];
    assert PunctuationReading(Punctuation, 20) == Some(none);
    PunctuationReadingFrom17(none);
    var r17 := [LessEqual] + ([Greater] + none);
    PunctuationReadingFrom14(r17);
    var r14 := [GreaterEqual] + ([Greater] + r17);
    PunctuationReadingFrom11(r14);
    var r11 := [EqualEqual] + ([Bang] + r14);
    PunctuationReadingFrom8(r11);
    var r8 := [RightBrace] + ([BangEqual] + r11);
    PunctuationReadingFrom6(r8);
    var r6 := [Star] + ([RightBrace] + r8);
    PunctuationReadingFrom4(r6);
    var r4 := [RightParen] + ([Star] + r6);
    PunctuationReadingFrom2(r4);
    var r2 := [Dot] + ([LeftParen] + r4);
    PunctuationReadingFrom0(r2);
    var r0 := [LeftBrace] + ([RightBrace] + r2);
    ExpectedKinds(none);
  }

  /** The reading, written token by token, is the expected kind list. */
  lemma ExpectedKinds(none: seq<TokenType>)
    requires none == []
    ensures [LeftBrace] + ([RightBrace] + ([Dot] + ([LeftParen] + ([RightParen] + ([Star] + ([Star] + ([RightBrace] + ([RightBrace] + ([BangEqual] + ([EqualEqual] + ([Bang] + ([GreaterEqual] + ([Greater] + ([LessEqual] + ([Greater] + none)))))))))))))))
         == PunctuationKinds
  {
  }

  /** `test_single_character_tokens`: scanning the vector with a fresh
      sink yields its sixteen tokens in order, then `Eof`, and reports no
      error. */
  lemma TestSingleCharacterTokens()
    ensures AsciiText(Punctuation)
    ensures var o := Scan(Punctuation, ErrorSink.New());
      && o.Ok?
      && Kinds(o.s.tokens) == PunctuationKinds + [Eof]
      && !o.s.sink.hadError
  {
    PunctuationIsOperatorText();
    PunctuationReadingAll();
    PunctuationScan(Punctuation, ErrorSink.New());
  }

  lemma PunctuationIsOperatorText()
    ensures forall k :: 0 <= k < |Punctuation| ==> IsOperatorChar(Punctuation[k])
  {
    forall k | 0 <= k < |Punctuation| ensures IsOperatorChar(Punctuation[k]) {
      assert Punctuation[k] in "{}.()*!=<>";
    }
  }

  /** `should_return_err`: the letters of `dfg` go through the identifier
      branch and on into the "Invalid token" report, so a scan with a
      fresh sink finishes with `had_error` set. */
  lemma TestShouldReturnErr()
    ensures AsciiText(WordInBraces)
    ensures var o := Scan(WordInBraces, ErrorSink.New());
      && o.Ok?
      && o.s.sink.hadError
  {
    var src := WordInBraces;
    var s0 := Init(src, ErrorSink.New());
    WordInBracesFacts();
    assert Scan(src, ErrorSink.New()) == Run(src, s0);
    NoSlashNeverPanics(src, s0);
    WordInBracesReachesWord(s0);
  }

  lemma WordInBracesFacts()
    ensures AsciiText(WordInBraces)
    ensures forall k :: 0 <= k < |WordInBraces| ==> WordInBraces[k] != '/'
  {
    forall k | 0 <= k < |WordInBraces| ensures IsAscii(WordInBraces[k]) && WordInBraces[k] != '/' {
      assert WordInBraces[k] in "{}dfg";
    }
  }

  /** The scan of `WordInBraces` reaches the word `dfg` with the sink it
      started with, and the word's step reports an error. */
  lemma WordInBracesReachesWord(s0: Scanner)
    requires s0 == Scanner(0, 0, 1, [], ErrorSink.New())
    ensures Run(WordInBraces, s0).s.sink.hadError
  {
    var src := WordInBraces;
    SingleCharacterStep(src, s0);
    var s1 := ScanToken(src, s0).s;
    RunStep(src, s0);
    SingleCharacterStep(src, s1.(start := 1));
    var s2 := ScanToken(src, s1.(start := 1)).s;
    RunStep(src, s1);
    AlphanumericStep(src, s2.(start := 2));
    var s3 := ScanToken(src, s2.(start := 2)).s;
    RunStep(src, s2);
    RunExtendsSink(src, s3);
  }
}

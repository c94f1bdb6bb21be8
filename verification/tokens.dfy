/**
  The token vocabulary of the scanner (src/lexer/lexer.rs): token kinds,
  the keyword table, literals, tokens, and the ASCII character classes the
  scanner dispatches on.
 */
module Tokens {
  import opened Wrappers

  datatype TokenType =
    // Single-character tokens.
    | LeftParen | RightParen | LeftBrace | RightBrace
    | Comma | Dot | Minus | Plus | Semicolon | Slash | Star
    // One or two character tokens.
    | Bang | BangEqual | Equal | EqualEqual
    | Greater | GreaterEqual | Less | LessEqual
    // Literals.
    | Identifier | String | Number
    // Keywords.
    | And | Class | Else | False | Fun | For | If | Nil
    | Or | Print | Return | Super | This | True | Var | While
    | Eof

  predicate IsKeywordKind(k: TokenType) {
    k in {And, Class, Else, False, Fun, For, If, Nil, Or, Print, Return, Super, This, True, Var, While}
  }

  /** Kinds whose token starts with a letter or digit. */
  predicate IsWordKind(k: TokenType) {
    k == Identifier || k == Number || IsKeywordKind(k)
  }

  /** The keyword table: the kind a reserved word scans to, if any. */
  function Keyword(w: string): (r: Option<TokenType>)
    ensures r.Some? ==> IsKeywordKind(r.value)
  {
    match w
    case "and" => Some(And)
    case "class" => Some(Class)
    case "else" => Some(Else)
    case "false" => Some(False)
    case "for" => Some(For)
    case "fun" => Some(Fun)
    case "if" => Some(If)
    case "nil" => Some(Nil)
    case "or" => Some(Or)
    case "print" => Some(Print)
    case "return" => Some(Return)
    case "super" => Some(Super)
    case "this" => Some(This)
    case "true" => Some(True)
    case "var" => Some(Var)
    case "while" => Some(While)
    case _ => None
  }

  /** The spelling of each keyword kind, written from the kind's side. */
  function KeywordText(k: TokenType): (w: string)
    requires IsKeywordKind(k)
  {
    match k
    case And => "and"
    case Class => "class"
    case Else => "else"
    case False => "false"
    case Fun => "fun"
    case For => "for"
    case If => "if"
    case Nil => "nil"
    case Or => "or"
    case Print => "print"
    case Return => "return"
    case Super => "super"
    case This => "this"
    case True => "true"
    case Var => "var"
    case While => "while"
  }

  /** The sixteen reserved words. */
  const ReservedWords: set<string> :=
    {"and", "class", "else", "false", "for", "fun", "if", "nil",
     "or", "print", "return", "super", "this", "true", "var", "while"}

  /** The kind a word (identifier-shaped lexeme) scans to. */
  function WordKind(w: string): (k: TokenType)
    ensures k == Identifier || IsKeywordKind(k)
  {
    Keyword(w).GetOr(Identifier)
  }

  /** Keyword lookup and keyword spelling are inverse to each other, and the
      table recognises exactly the reserved words. */
  lemma KeywordTableRoundTrip(w: string, k: TokenType)
    ensures Keyword(w) == Some(k) <==> IsKeywordKind(k) && KeywordText(k) == w
    ensures Keyword(w).Some? <==> w in ReservedWords
  {
    if Keyword(w).Some? {
      KeywordLookupSpelled(w);
    }
    if IsKeywordKind(k) && KeywordText(k) == w {
      KeywordTextRecognised(k);
    }
    KeywordLookupReserved(w);
  }

  lemma KeywordLookupSpelled(w: string)
    requires Keyword(w).Some?
    ensures KeywordText(Keyword(w).value) == w
  {
  }

  lemma KeywordLookupReserved(w: string)
    ensures Keyword(w).Some? <==> w in ReservedWords
  {
  }

  /** Every keyword kind is reached by its own spelling. */
  lemma KeywordTextRecognised(k: TokenType)
    requires IsKeywordKind(k)
    ensures Keyword(KeywordText(k)) == Some(k)
    ensures WordKind(KeywordText(k)) == k
  {
  }

  /** The fixed spelling of each punctuation and operator kind. `Minus` has
      one in the vocabulary even though the scanner never produces it. */
  function PunctuatorText(k: TokenType): (w: Option<string>) {
    match k
    case LeftParen => Some("(")
    case RightParen => Some(")")
    case LeftBrace => Some("{")
    case RightBrace => Some("}")
    case Comma => Some(",")
    case Dot => Some(".")
    case Minus => Some("-")
    case Plus => Some("+")
    case Semicolon => Some(";")
    case Slash => Some("/")
    case Star => Some("*")
    case Bang => Some("!")
    case BangEqual => Some("!=")
    case Equal => Some("=")
    case EqualEqual => Some("==")
    case Greater => Some(">")
    case GreaterEqual => Some(">=")
    case Less => Some("<")
    case LessEqual => Some("<=")
    case _ => None
  }

  /** The punctuation table read the other way: the kind spelled `w`. */
  function PunctuatorKind(w: string): (k: Option<TokenType>) {
    match w
    case "(" => Some(LeftParen)
    case ")" => Some(RightParen)
    case "{" => Some(LeftBrace)
    case "}" => Some(RightBrace)
    case "," => Some(Comma)
    case "." => Some(Dot)
    case "-" => Some(Minus)
    case "+" => Some(Plus)
    case ";" => Some(Semicolon)
    case "/" => Some(Slash)
    case "*" => Some(Star)
    case "!" => Some(Bang)
    case "!=" => Some(BangEqual)
    case "=" => Some(Equal)
    case "==" => Some(EqualEqual)
    case ">" => Some(Greater)
    case ">=" => Some(GreaterEqual)
    case "<" => Some(Less)
    case "<=" => Some(LessEqual)
    case _ => None
  }

  /** The two readings of the punctuation table agree; the only
      two-character spellings are an equal-prefix operator followed by `=`. */
  lemma PunctuatorTableRoundTrip(w: string, k: TokenType)
    ensures PunctuatorKind(w) == Some(k) <==> PunctuatorText(k) == Some(w)
    ensures PunctuatorKind(w).Some? && |w| == 2 ==> w[1] == '=' && w[0] in "!<>="
  {
    if PunctuatorKind(w).Some? {
      PunctuatorKindSpelling(w);
    }
  }

  /** Whatever the lookup finds is spelled exactly as looked up. */
  lemma PunctuatorKindSpelling(w: string)
    requires PunctuatorKind(w).Some?
    ensures PunctuatorText(PunctuatorKind(w).value) == Some(w)
    ensures |w| == 2 ==> w[1] == '=' && w[0] in "!<>="
  {
  }

  /** Identifier, number and keyword kinds have no fixed spelling. */
  lemma WordKindHasNoSpelling(k: TokenType)
    requires IsWordKind(k)
    ensures PunctuatorText(k).None? && k != String && k != Eof
  {
  }

  /** The one-character operators that become two-character ones before `=`. */
  predicate IsEqualPrefixKind(k: TokenType) {
    k in {Bang, Equal, Greater, Less}
  }

  /** A literal value: the text between a string's quotes, or the digit text
      of a number (the original parses it into an `f32`). */
  datatype Literal = Str(text: string) | Num(text: string)

  /** A token: its kind, its lexeme as the offsets `[lo, hi)` into the
      scanned source, its literal and the line current when it was added. */
  datatype Token = Token(kind: TokenType, lo: nat, hi: nat, literal: Option<Literal>, line: nat)

  // ASCII character classes. On ASCII input they coincide with Rust's
  // `char::is_numeric` and `char::is_alphanumeric`.

  predicate IsAscii(c: char) {
    c as int < 128
  }

  predicate IsDigit(c: char) {
    '0' <= c <= '9'
  }

  predicate IsAlpha(c: char) {
    ('a' <= c <= 'z') || ('A' <= c <= 'Z')
  }

  predicate IsAlphaNumeric(c: char) {
    IsAlpha(c) || IsDigit(c)
  }

  predicate AllAlphaNumeric(w: string) {
    forall k :: 0 <= k < |w| ==> IsAlphaNumeric(w[k])
  }

  /** The text of a number literal: digits, with at most one `.` that has
      a digit on each side. */
  predicate IsNumberText(w: string) {
    && |w| > 0
    && IsDigit(w[0])
    && IsDigit(w[|w| - 1])
    && (forall k :: 0 <= k < |w| ==> IsDigit(w[k]) || w[k] == '.')
    && (forall k, m :: 0 <= k < m < |w| && w[k] == '.' ==> w[m] != '.')
  }
}

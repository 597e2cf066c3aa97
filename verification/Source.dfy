/** parser/boundary.go and parser/goexpr.go: what their cursor loops compute, as functions
    of a position in one source text. Positions count characters. */
module SourceText {
  import opened Options

  /** The Go token kinds that the scanners look at. Value stands for identifiers and the
      literals other than strings, Other for every remaining kind. */
  datatype TokenKind =
    | String | Value | Less | Comma | Colon | Or | Greater
    | LeftParen | LeftBracket | LeftBrace | RightParen | RightBracket | RightBrace
    | Other

  datatype Token = Token(kind: TokenKind, off: nat)

  /** The character that a punctuation token stands on. */
  function Punctuation(kind: TokenKind): Option<char> {
    match kind
    case Less => Some('<')
    case Comma => Some(',')
    case Colon => Some(':')
    case Or => Some('|')
    case Greater => Some('>')
    case LeftParen => Some('(')
    case LeftBracket => Some('[')
    case LeftBrace => Some('{')
    case RightParen => Some(')')
    case RightBracket => Some(']')
    case RightBrace => Some('}')
    case _ => None
  }

  /** Length of the prefix f, js or css with which t continues from i, when the delimiter follows it; else 0. */
  function PrefixBefore(t: string, i: nat, delim: char): (n: nat)
    ensures n > 0 ==> i + n < |t| && t[i + n] == delim && (t[i] == 'f' || t[i] == 'j' || t[i] == 'c')
  {
    if i + 2 < |t| && t[i] == 'j' && t[i + 1] == 's' && t[i + 2] == delim then 2
    else if i + 3 < |t| && t[i] == 'c' && t[i + 1] == 's' && t[i + 2] == 's' && t[i + 3] == delim then 3
    else if i + 1 < |t| && t[i] == 'f' && t[i + 1] == delim then 1
    else 0
  }

  /** A source text with Go's letter and digit tests and its tokenizer: tokens(base) are
      the tokens of text[base..] at their positions in text. */
  datatype Source = Source(text: string, letter: char -> bool, digit: char -> bool, tokens: nat -> seq<Token>) {

    /** What is assumed of the tokenizer: tokens come in order, inside the scanned region,
        and each punctuation token stands on a character of its own. */
    ghost predicate TokenizerOk() {
      forall base: nat, k: nat :: base < |text| && k < |tokens(base)| ==> TokenOk(base, k)
    }

    ghost predicate TokenOk(base: nat, k: nat)
      requires k < |tokens(base)|
    {
      var t := tokens(base)[k];
      && base <= t.off <= |text|
      && (k > 0 ==> tokens(base)[k - 1].off <= t.off)
      && (k > 0 && Punctuation(tokens(base)[k - 1].kind).Some? ==> tokens(base)[k - 1].off < t.off)
      && (Punctuation(t.kind).Some? ==> t.off < |text| && text[t.off] == Punctuation(t.kind).value)
    }

    /** No element and no backtick literal can start from position i on. */
    predicate Fast(i: nat) {
      forall k :: i <= k < |text| ==> text[k] != '<' && text[k] != '`'
    }

    predicate IdentStart(c: char) { c == '_' || letter(c) }

    predicate IdentContinue(c: char) { IdentStart(c) || digit(c) }

    /** hasIdentBoundary */
    predicate Boundary(i: nat)
      requires i <= |text|
    {
      i == 0 || !IdentContinue(text[i - 1])
    }

    /** Length of the f, js or css prefix (with its delimiter) of a literal that starts at i; 0 if none does. */
    function OpeningAt(i: nat): (n: nat)
      requires i <= |text|
      ensures n > 0 ==> i + n <= |text| && (text[i] == 'f' || text[i] == 'j' || text[i] == 'c')
      ensures n > 0 ==> text[i + n - 1] == '`' || text[i + n - 1] == '"'
    {
      if !Boundary(i) then 0
      else if PrefixBefore(text, i, '`') > 0 then PrefixBefore(text, i, '`') + 1
      else if PrefixBefore(text, i, '"') > 0 then PrefixBefore(text, i, '"') + 1
      else 0
    }

    /** Number of backslashes right before position i. */
    function Backslashes(i: nat): nat
      requires i <= |text|
    {
      if i > 0 && text[i - 1] == '\\' then Backslashes(i - 1) + 1 else 0
    }

    /** backtickEscapedIn */
    predicate Escaped(i: nat)
      requires i <= |text|
    {
      Backslashes(i) % 2 == 1
    }

    /** Just past the quote that closes a Go string or rune whose body starts at i. */
    function StringEnd(i: nat, quote: char): (end: nat)
      ensures end <= |text|
      ensures i <= |text| ==> i <= end
      ensures i < |text| ==> i < end
      decreases |text| - i
    {
      if i >= |text| then |text|
      else if text[i] == '\\' then StringEnd(i + 2, quote)
      else if text[i] == quote then i + 1
      else StringEnd(i + 1, quote)
    }

    /** Just past the backtick that closes a Go raw string whose body starts at i. */
    function RawEnd(i: nat): (end: nat)
      requires i <= |text|
      ensures i <= end <= |text|
      decreases |text| - i
    {
      if i == |text| then i else if text[i] == '`' then i + 1 else RawEnd(i + 1)
    }

    /** The line end that closes a line comment. */
    function LineEnd(i: nat): (end: nat)
      requires i <= |text|
      ensures i <= end <= |text|
      decreases |text| - i
    {
      if i < |text| && text[i] != '\n' then LineEnd(i + 1) else i
    }

    /** Just past the closer of a block comment whose body starts at i. */
    function BlockEnd(i: nat): (end: nat)
      requires i <= |text|
      ensures i <= end <= |text|
      decreases |text| - i
    {
      if i + 1 >= |text| then |text|
      else if text[i] == '*' && text[i + 1] == '/' then i + 2
      else BlockEnd(i + 1)
    }

    /** skipQuotedOrComment */
    function QuotedEnd(i: nat): (end: Option<nat>)
      requires i < |text|
      ensures end.Some? ==> i < end.value <= |text|
    {
      if text[i] == '"' || text[i] == '\'' then Some(StringEnd(i + 1, text[i]))
      else if text[i] == '`' then Some(RawEnd(i + 1))
      else if text[i] == '/' && i + 1 < |text| && text[i + 1] == '/' then Some(LineEnd(i + 2))
      else if text[i] == '/' && i + 1 < |text| && text[i + 1] == '*' then Some(BlockEnd(i + 2))
      else None
    }

    /** The byte loop of goDepth1End from position i at the given depth: the '}' that brings the
        depth to 0. Brackets of all kinds count alike, and a depth below 1 is kept as it is. */
    function CloseFrom(i: nat, depth: int): (close: Option<nat>)
      requires i <= |text|
      ensures close.Some? ==> i <= close.value < |text| && text[close.value] == '}'
      decreases |text| - i, 2
    {
      if i == |text| then None
      else if LiteralEnd(i).Some? then CloseFrom(LiteralEnd(i).value, depth)
      else if QuotedEnd(i).Some? then CloseFrom(QuotedEnd(i).value, depth)
      else if text[i] == '{' || text[i] == '(' || text[i] == '[' then CloseFrom(i + 1, depth + 1)
      else if text[i] == '}' || text[i] == ')' || text[i] == ']' then
        if depth == 1 && text[i] == '}' then Some(i) else CloseFrom(i + 1, depth - 1)
      else CloseFrom(i + 1, depth)
    }

    /** skipGSXEmbeddedLiteral on a fast source: past the literal that starts at i, if one does. */
    function LiteralEnd(i: nat): (end: Option<nat>)
      requires i <= |text|
      ensures end.Some? ==> i < end.value <= |text|
      decreases |text| - i, 1
    {
      var n := OpeningAt(i);
      if n == 0 then None else Some(BodyEnd(i + n, text[i + n - 1]))
    }

    /** embeddedLiteralEndHoleAware on a fast source: past the delimiter that closes a literal
        whose body is read up to i; the end of the text if there is none. */
    function BodyEnd(i: nat, delim: char): (end: nat)
      requires i <= |text|
      ensures i <= end <= |text| && (i < |text| ==> i < end)
      decreases |text| - i, 0
    {
      if i == |text| then i
      else if text[i] == delim && !Escaped(i) then i + 1
      else if HoleAt(i) then
        var close := CloseFrom(i + 2, 1);
        if close.None? then |text| else BodyEnd(close.value + 1, delim)
      else BodyEnd(i + 1, delim)
    }

    /** An unescaped @{ stands at i. */
    predicate HoleAt(i: nat)
      requires i < |text|
    {
      text[i] == '@' && i + 1 < |text| && text[i + 1] == '{' && !Escaped(i)
    }
  }
}

/** parser/boundary.go and parser/goexpr.go: where holes, literals, tags and elements end, on every source. The
    Go tokenizer says where tokens are; everything else is read off the text. */
module Spans {
  import opened SourceText
  import opened Options

  // ----- where spans start -----

  predicate IsPrefixChar(c: char) { c == 'j' || c == 's' || c == 'c' || c == 'f' }

  /** langPrefixStart: where an f, js or css prefix right before the delimiter starts: the place at which the
      literal of that delimiter opens. */
  function LangPrefixStart(s: Source, delim: nat): (p: Option<nat>)
    requires delim < |s.text|
    ensures p.Some? ==> p.value < delim
    ensures p.Some? ==> forall k :: p.value <= k < delim ==> IsPrefixChar(s.text[k])
  {
    if delim >= 2 && s.text[delim - 2] == 'j' && s.text[delim - 1] == 's' && s.Boundary(delim - 2)
    then Some(delim - 2)
    else if delim >= 3 && s.text[delim - 3] == 'c' && s.text[delim - 2] == 's' && s.text[delim - 1] == 's' && s.Boundary(delim - 3)
    then Some(delim - 3)
    else if delim >= 1 && s.text[delim - 1] == 'f' && s.Boundary(delim - 1)
    then Some(delim - 1)
    else None
  }

  /** Reading back from a delimiter finds the prefix exactly where reading forward finds a literal that
      opens with it. */
  lemma {:induction false} PrefixIsOpening(s: Source, delim: nat, p: nat)
    requires delim < |s.text| && (s.text[delim] == '`' || s.text[delim] == '"') && p <= delim
    ensures LangPrefixStart(s, delim) == Some(p) <==> s.OpeningAt(p) > 0 && p + s.OpeningAt(p) == delim + 1
  {}

  /** byteBeginsTag */
  predicate BeginsTag(s: Source, i: nat) {
    && i < |s.text| && s.text[i] != '-'
    && (s.text[i] == '>' || s.text[i] == '/' || s.text[i] == '?' || s.IdentStart(s.text[i]))
  }

  /** tokenExpectsOperandAfter */
  predicate ExpectsOperandAfter(kind: TokenKind) {
    kind !in {Value, String, RightParen, RightBracket, RightBrace}
  }

  /** tok starts a prefixed literal, or an element where an operand is expected. */
  predicate StartsSpan(s: Source, tok: Token, expects: bool) {
    || (tok.kind == String && tok.off < |s.text| && (s.text[tok.off] == '`' || s.text[tok.off] == '"')
        && LangPrefixStart(s, tok.off).Some?)
    || (expects && tok.kind == Less && BeginsTag(s, tok.off + 1))
  }

  function Turn(kind: TokenKind): int {
    if kind in {LeftParen, LeftBracket, LeftBrace} then 1
    else if kind in {RightParen, RightBracket, RightBrace} then -1 else 0
  }

  // ----- where spans end -----

  /** goDepth1End: the '}' that closes what is one level deep from `from` on. */
  ghost function GoEnd(s: Source, from: nat): (close: Option<nat>)
    requires from <= |s.text| && s.TokenizerOk()
    ensures close.Some? ==> from <= close.value < |s.text| && s.text[close.value] == '}'
    decreases |s.text| - from, 5, 0
  {
    if s.Fast(from) then s.CloseFrom(from, 1) else CloseAt(s, from, 0, 1, true)
  }

  /** The same from token k of the tokenizer that was started at base, at the given depth. */
  ghost function CloseAt(s: Source, base: nat, k: nat, depth: int, expects: bool): (close: Option<nat>)
    requires base <= |s.text| && s.TokenizerOk() && (base < |s.text| ==> k <= |s.tokens(base)|)
    ensures close.Some? ==> base <= close.value < |s.text| && s.text[close.value] == '}'
    decreases |s.text| - base, 4, if base < |s.text| then |s.tokens(base)| - k else 0
  {
    if base == |s.text| || k == |s.tokens(base)| then None
    else
      var tok := s.tokens(base)[k];
      assert s.TokenOk(base, k);
      if StartsSpan(s, tok, expects) then CloseAt(s, SpanEnd(s, tok), 0, depth, false)
      else if tok.kind == RightBrace && depth == 1 then Some(tok.off)
      else CloseAt(s, base, k + 1, depth + Turn(tok.kind), ExpectsOperandAfter(tok.kind))
  }

  /** Where the span that tok starts ends. */
  ghost function SpanEnd(s: Source, tok: Token): (end: nat)
    requires tok.off < |s.text| && s.TokenizerOk() && (tok.kind == Less ==> s.text[tok.off] == '<')
    ensures tok.off < end <= |s.text|
    ensures end == |s.text| || s.text[end - 1] == '>' || s.text[end - 1] == s.text[tok.off]
    decreases |s.text| - tok.off, 3, 0
  {
    if tok.kind == Less then ElementEnd(s, tok.off) else LiteralEndAt(s, tok.off + 1, s.text[tok.off])
  }

  /** embeddedLiteralEndHoleAware: just past the first delimiter that is neither escaped nor in a hole. */
  ghost function LiteralEndAt(s: Source, i: nat, delim: char): (end: nat)
    requires i <= |s.text| && s.TokenizerOk()
    ensures i <= end <= |s.text| && (i < |s.text| ==> i < end)
    ensures end == |s.text| || s.text[end - 1] == delim
    decreases |s.text| - i, 0, 0
  {
    if i == |s.text| then i
    else if s.text[i] == delim && !s.Escaped(i) then i + 1
    else if s.HoleAt(i) then
      var close := GoEnd(s, i + 2);
      if close.None? then |s.text| else LiteralEndAt(s, close.value + 1, delim)
    else LiteralEndAt(s, i + 1, delim)
  }

  /** elementSpanEnd */
  ghost function ElementEnd(s: Source, off: nat): (end: nat)
    requires off < |s.text| && s.text[off] == '<' && s.TokenizerOk()
    ensures off < end <= |s.text| && (end == |s.text| || s.text[end - 1] == '>')
    decreases |s.text| - off, 2, 1
  {
    EndFrom(s, off, 0)
  }

  /** Its walk from the tag at i, with so many elements open. */
  ghost function EndFrom(s: Source, i: nat, depth: int): (end: nat)
    requires i <= |s.text| && (i < |s.text| ==> s.text[i] == '<') && s.TokenizerOk()
    ensures i <= end <= |s.text| && (i < |s.text| ==> i < end) && (end == |s.text| || s.text[end - 1] == '>')
    decreases |s.text| - i, 2, 0
  {
    if i == |s.text| then i
    else
      var close := TagClose(s, i + 1);
      if close.None? then |s.text|
      else
        var after := close.value + 1;
        if Closing(s, i) then if depth <= 1 then after else EndFrom(s, NextTag(s, after), depth - 1)
        else if s.text[close.value - 1] == '/' then if depth == 0 then after else EndFrom(s, NextTag(s, after), depth)
        else EndFrom(s, NextTag(s, after), depth + 1)
  }

  predicate Closing(s: Source, i: nat) { i + 1 < |s.text| && s.text[i + 1] == '/' }

  /** scanTagClose, from inside of the tag. */
  ghost function TagClose(s: Source, j: nat): (close: Option<nat>)
    requires j <= |s.text| && s.TokenizerOk()
    ensures close.Some? ==> j <= close.value < |s.text| && s.text[close.value] == '>'
    decreases |s.text| - j, 1, 0
  {
    if j == |s.text| then None
    else if s.text[j] == '"' || s.text[j] == '\'' then TagClose(s, AttrEnd(s, j + 1, s.text[j]))
    else if s.text[j] == '{' then
      var close := GoEnd(s, j + 1);
      if close.None? then None else TagClose(s, close.value + 1)
    else if s.text[j] == '>' then Some(j)
    else TagClose(s, j + 1)
  }

  /** skipAttrQuoted: just past the next quote. */
  function AttrEnd(s: Source, j: nat, quote: char): (end: nat)
    requires j <= |s.text|
    ensures j <= end <= |s.text|
    decreases |s.text| - j
  {
    if j == |s.text| then j else if s.text[j] == quote then j + 1 else AttrEnd(s, j + 1, quote)
  }

  /** The next tag after text and holes, or the end of the source. */
  ghost function NextTag(s: Source, i: nat): (next: nat)
    requires i <= |s.text| && s.TokenizerOk()
    ensures i <= next <= |s.text| && (next < |s.text| ==> s.text[next] == '<')
    decreases |s.text| - i, 1, 0
  {
    if i == |s.text| || s.text[i] == '<' then i
    else if s.text[i] == '{' then
      var close := GoEnd(s, i + 1);
      if close.None? then |s.text| else NextTag(s, close.value + 1)
    else NextTag(s, i + 1)
  }

  /** On a source without '<' and backticks, a literal ends where the byte loop says. */
  lemma {:induction false} FastLiteral(s: Source, i: nat, delim: char)
    requires i <= |s.text| && s.TokenizerOk() && s.Fast(i)
    ensures LiteralEndAt(s, i, delim) == s.BodyEnd(i, delim)
    decreases |s.text| - i
  {
    hide Source.CloseFrom;
    if i < |s.text| && !(s.text[i] == delim && !s.Escaped(i)) {
      if s.HoleAt(i) {
        var close := s.CloseFrom(i + 2, 1);
        if close.Some? {
          FastLiteral(s, close.value + 1, delim);
        }
      } else {
        FastLiteral(s, i + 1, delim);
      }
    }
  }

  // ----- one step of each walk -----

  lemma {:induction false} OneTag(s: Source, i: nat, depth: int)
    requires i <= |s.text| && (i < |s.text| ==> s.text[i] == '<') && s.TokenizerOk()
    ensures EndFrom(s, i, depth) ==
      if i == |s.text| || TagClose(s, i + 1).None? then |s.text|
      else
        var close := TagClose(s, i + 1).value;
        if Closing(s, i) then if depth <= 1 then close + 1 else EndFrom(s, NextTag(s, close + 1), depth - 1)
        else if s.text[close - 1] == '/' then if depth == 0 then close + 1 else EndFrom(s, NextTag(s, close + 1), depth)
        else EndFrom(s, NextTag(s, close + 1), depth + 1)
  {
    hide TagClose, NextTag;
  }

  lemma {:induction false} OneText(s: Source, i: nat)
    requires i <= |s.text| && s.TokenizerOk()
    ensures NextTag(s, i) ==
      if i == |s.text| || s.text[i] == '<' then i
      else if s.text[i] != '{' then NextTag(s, i + 1)
      else match GoEnd(s, i + 1) case None => |s.text| case Some(close) => NextTag(s, close + 1)
  {
    hide GoEnd;
  }

  lemma {:induction false} OneStep(s: Source, base: nat, k: nat, depth: int, expects: bool)
    requires s.TokenizerOk() && base < |s.text| && k < |s.tokens(base)|
    ensures var tok := s.tokens(base)[k];
      && base <= tok.off && (StartsSpan(s, tok, expects) ==> tok.off < |s.text| && (tok.kind == Less ==> s.text[tok.off] == '<'))
      && CloseAt(s, base, k, depth, expects)
      == if StartsSpan(s, tok, expects) then CloseAt(s, SpanEnd(s, tok), 0, depth, false)
         else if tok.kind == RightBrace && depth == 1 then Some(tok.off)
         else CloseAt(s, base, k + 1, depth + Turn(tok.kind), ExpectsOperandAfter(tok.kind))
  {
    assert s.TokenOk(base, k);
  }
}

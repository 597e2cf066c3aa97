/** parser/boundary.go and parser/goexpr.go: the mutually recursive scanners, as the loops they
    are. On a source without '<' and backticks they compute the functions of SourceText exactly;
    on every source they terminate and stay in bounds. */
module Scanners {
  import opened SourceText
  import opened Spans
  import opened ScanTrace
  import opened Options

  /** Every call starts strictly later in the text than its caller, or at the same place
      one layer further down; this is the order of the layers. */
  const DEPTH1 := 5
  const SCAN := 4
  const SPAN := 3
  const ELEMENT := 2
  const TAG := 1
  const BODY := 0

  method BacktickEscapedIn(s: Source, at: nat) returns (escaped: bool)
    requires at <= |s.text|
    ensures escaped == s.Escaped(at)
  {
    var n, i := 0, at;
    while i > 0 && s.text[i - 1] == '\\'
      invariant 0 <= i <= at && s.Backslashes(at) == n + s.Backslashes(i)
    {
      n, i := n + 1, i - 1;
    }
    escaped := n % 2 == 1;
  }

  method SkipQuotedOrComment(s: Source, at: nat) returns (end: Option<nat>)
    requires at < |s.text|
    ensures end == s.QuotedEnd(at)
  {
    var i, c := at, s.text[at];
    if c == '"' || c == '\'' {
      i := i + 1;
      while i < |s.text|
        invariant s.StringEnd(at + 1, c) == s.StringEnd(i, c)
      {
        if s.text[i] == '\\' {
          i := i + 2;
          continue;
        }
        if s.text[i] == c {
          return Some(i + 1);
        }
        i := i + 1;
      }
      return Some(|s.text|);
    } else if c == '`' {
      i := i + 1;
      while i < |s.text| && s.text[i] != '`'
        invariant i <= |s.text| && s.RawEnd(at + 1) == s.RawEnd(i)
      {
        i := i + 1;
      }
      return Some(if i < |s.text| then i + 1 else |s.text|);
    } else if c == '/' && i + 1 < |s.text| {
      if s.text[i + 1] == '/' {
        i := i + 2;
        while i < |s.text| && s.text[i] != '\n'
          invariant i <= |s.text| && s.LineEnd(at + 2) == s.LineEnd(i)
        {
          i := i + 1;
        }
        return Some(i);
      } else if s.text[i + 1] == '*' {
        i := i + 2;
        while i + 1 < |s.text| && (s.text[i] != '*' || s.text[i + 1] != '/')
          invariant i <= |s.text| && s.BlockEnd(at + 2) == s.BlockEnd(i)
        {
          i := i + 1;
        }
        return Some(if i + 1 < |s.text| then i + 2 else |s.text|);
      }
    }
    return None;
  }

  /** goExprEnd: the '}' that matches the '{' at open. */
  method GoExprEnd(s: Source, open: nat) returns (close: Option<nat>)
    requires open < |s.text| && s.TokenizerOk()
    ensures close == GoEnd(s, open + 1)
    decreases |s.text| - open - 1, DEPTH1 + 1
  {
    close := GoDepth1End(s, open + 1);
  }

  method GoDepth1End(s: Source, from: nat) returns (close: Option<nat>)
    requires from <= |s.text| && s.TokenizerOk()
    ensures close == GoEnd(s, from)
    decreases |s.text| - from, DEPTH1
  {
    if '<' !in s.text[from..] && '`' !in s.text[from..] {
      AbsentIsFast(s, from);
      close := FastLoop(s, from);
      return;
    }
    PresentIsSlow(s, from);
    var res, events := ScanGoExpr(s, from);
    FinishedEnds(s, from, events);
    return res.close;
  }

  /** The byte loop of goDepth1End. */
  method FastLoop(s: Source, from: nat) returns (close: Option<nat>)
    requires from <= |s.text| && s.TokenizerOk() && s.Fast(from)
    ensures close == s.CloseFrom(from, 1)
    decreases |s.text| - from, SPAN
  {
    var depth, i := 1, from;
    ghost var goal := s.CloseFrom(from, 1);
    while i < |s.text|
      invariant from <= i <= |s.text|
      invariant s.CloseFrom(i, depth) == goal
    {
      var end := SkipGSXEmbeddedLiteral(s, i);
      if end.Some? {
        i := end.value;
        continue;
      }
      end := SkipQuotedOrComment(s, i);
      if end.Some? {
        i := end.value;
        continue;
      }
      if s.text[i] == '{' || s.text[i] == '(' || s.text[i] == '[' {
        depth := depth + 1;
      } else if s.text[i] == '}' || s.text[i] == ')' || s.text[i] == ']' {
        depth := depth - 1;
        if depth == 0 && s.text[i] == '}' {
          return Some(i);
        }
      }
      i := i + 1;
    }
    return None;
  }

  lemma {:induction false} AbsentIsFast(s: Source, from: nat)
    requires from <= |s.text| && '<' !in s.text[from..] && '`' !in s.text[from..]
    ensures s.Fast(from)
  {
    forall k | from <= k < |s.text|
      ensures s.text[k] != '<' && s.text[k] != '`'
    {
      assert s.text[k] == s.text[from..][k - from];
    }
  }

  lemma {:induction false} PresentIsSlow(s: Source, from: nat)
    requires from <= |s.text| && ('<' in s.text[from..] || '`' in s.text[from..])
    ensures !s.Fast(from)
  {
    var k :| 0 <= k < |s.text[from..]| && (s.text[from..][k] == '<' || s.text[from..][k] == '`');
    assert s.text[from..][k] == s.text[from + k];
  }

  /** skipGSXEmbeddedLiteral: past a prefixed literal that starts at i. */
  method SkipGSXEmbeddedLiteral(s: Source, i: nat) returns (end: Option<nat>)
    requires i < |s.text| && s.TokenizerOk()
    ensures end == if s.OpeningAt(i) == 0 then None
      else Some(LiteralEndAt(s, i + s.OpeningAt(i), s.text[i + s.OpeningAt(i) - 1]))
    ensures s.Fast(i) ==> end == s.LiteralEnd(i)
    decreases |s.text| - i, BODY
  {
    var n := s.OpeningAt(i);
    if n == 0 {
      return None;
    }
    var past := EmbeddedLiteralEndHoleAware(s, i + n, s.text[i + n - 1]);
    if s.Fast(i) {
      FastLiteral(s, i + n, s.text[i + n - 1]);
    }
    return Some(past);
  }

  /** embeddedLiteralEndHoleAware: past the delimiter that closes the literal whose body starts
      at start; the end of the text when the literal or one of its holes does not close. */
  method EmbeddedLiteralEndHoleAware(s: Source, start: nat, delim: char) returns (end: nat)
    requires start <= |s.text| && s.TokenizerOk()
    ensures end == LiteralEndAt(s, start, delim)
    decreases |s.text| - start, BODY
  {
    var i := start;
    while i < |s.text|
      invariant start <= i <= |s.text|
      invariant LiteralEndAt(s, start, delim) == LiteralEndAt(s, i, delim)
    {
      var escaped := BacktickEscapedIn(s, i);
      if s.text[i] == delim && !escaped {
        return i + 1;
      }
      if s.text[i] == '@' && i + 1 < |s.text| && s.text[i + 1] == '{' && !escaped {
        var close := GoExprEnd(s, i + 1);
        if close.None? {
          return |s.text|;
        }
        i := close.value + 1;
        continue;
      }
      i := i + 1;
    }
    return |s.text|;
  }

  /** scanGoExpr: scans the Go tokens from `from`, which is already one level deep. Each element
      and each prefixed literal is skipped as one span, past which the tokenizer starts anew. */
  method ScanGoExpr(s: Source, from: nat) returns (res: ExprScan, ghost events: seq<Event>)
    requires from <= |s.text| && s.TokenizerOk()
    ensures Trace(s, from, events) && Finished(s, from, events) && res == Report(events)
    ensures res.close.Some? ==> from <= res.close.value < |s.text| && s.text[res.close.value] == '}'
    decreases |s.text| - from, SCAN
  {
    hide Trace, Report;
    res, events := ExprScan(None, [], [], [], [], []), [];
    var base, depth, expectOperand := from, 1, true;
    var prev: Option<Token> := None;
    NoEvents(s, from);
    while base < |s.text|
      invariant from <= base <= |s.text| && base == BaseOf(from, events) && CountOf(events) == 0
      invariant Trace(s, from, events) && Pending(res, depth, expectOperand, prev, events)
      decreases |s.text| - base
    {
      var toks := s.tokens(base);
      var advanced, k := false, 0;
      while k < |toks|
        invariant k <= |toks| && toks == s.tokens(base) && from <= base < |s.text|
        invariant base == BaseOf(from, events) && CountOf(events) == k
        invariant Trace(s, from, events) && Pending(res, depth, expectOperand, prev, events)
      {
        var tok := toks[k];
        TokenIs(s, base, k);
        NotClosed(events);
        var span := SkipSpan(s, base, tok, expectOperand);
        if span.Some? {
          ghost var next := Skip(tok.kind == Less, span.value);
          TraceGrows(s, from, events, next);
          SpanReported(events, next);
          res := if tok.kind == Less then res.(marks := res.marks + [span.value.0])
                 else res.(literals := res.literals + [span.value]);
          events := events + [next];
          base, expectOperand, prev, advanced := span.value.1, false, None, true;
          break;
        }
        TraceGrows(s, from, events, Saw(tok));
        ClosesAs(events, tok);
        res, depth := RecordToken(res, depth, prev, tok, events);
        events := events + [Saw(tok)];
        if res.close.Some? {
          NotClosed(events);
          return;
        }
        expectOperand, prev, k := ExpectsOperandAfter(tok.kind), Some(tok), k + 1;
      }
      if !advanced {
        break;
      }
    }
    NotClosed(events);
  }

  lemma {:induction false} TokenIs(s: Source, base: nat, k: nat)
    requires s.TokenizerOk() && base < |s.text| && k < |s.tokens(base)|
    ensures var tok := s.tokens(base)[k];
      base <= tok.off <= |s.text| && (tok.kind in {Less, RightBrace} ==>
        tok.off < |s.text| && s.text[tok.off] == if tok.kind == Less then '<' else '}')
  {
    assert s.TokenOk(base, k);
  }

  /** What the loop knows between two tokens. */
  ghost predicate Pending(res: ExprScan, depth: int, expectOperand: bool, prev: Option<Token>, events: seq<Event>) {
    && res == Report(events) && res.close == None && depth == DepthAfter(events)
    && expectOperand == Expects(events) && prev == PrevOf(events)
  }

  /** The switch of scanGoExpr: brackets move the depth, and at depth 1 the expression's own
      delimiters are recorded. */
  method RecordToken(res: ExprScan, depth: int, prev: Option<Token>, tok: Token, ghost events: seq<Event>)
    returns (res': ExprScan, depth': int)
    requires res == Report(events) && depth == DepthAfter(events) && prev == PrevOf(events) && !Closes(events)
    ensures res' == Report(events + [Saw(tok)]) && depth' == DepthAfter(events + [Saw(tok)])
  {
    TokenReported(events, tok);
    res', depth' := res, depth;
    if tok.kind in {LeftParen, LeftBracket, LeftBrace} {
      depth' := depth + 1;
    } else if tok.kind in {RightParen, RightBracket} {
      depth' := depth - 1;
    } else if tok.kind == RightBrace {
      depth' := depth - 1;
      if depth' == 0 {
        res' := res.(close := Some(tok.off));
      }
    } else if tok.kind == Comma && depth == 1 {
      res' := res.(commas := res.commas + [tok.off]);
    } else if tok.kind == Colon && depth == 1 {
      res' := res.(colons := res.colons + [tok.off]);
    } else if tok.kind == Greater && depth == 1 && prev.Some? && prev.value.kind == Or && tok.off == prev.value.off + 1 {
      res' := res.(pipes := res.pipes + [prev.value.off]);
    }
  }

  /** The first half of one turn of scanGoExpr: the span of the prefixed literal or of the
      element that starts at tok, if tok starts one. */
  method SkipSpan(s: Source, base: nat, tok: Token, expectOperand: bool) returns (span: Option<(nat, nat)>)
    requires base <= tok.off <= |s.text| && s.TokenizerOk()
    requires tok.kind == Less ==> tok.off < |s.text| && s.text[tok.off] == '<'
    ensures span.Some? <==> StartsSpan(s, tok, expectOperand)
    ensures span.Some? ==> SpanAt(s, tok, span.value)
    decreases |s.text| - base, SPAN
  {
    if tok.kind == String && tok.off < |s.text| && (s.text[tok.off] == '`' || s.text[tok.off] == '"') {
      var p := LangPrefixStart(s, tok.off);
      if p.Some? {
        var end := EmbeddedLiteralEndHoleAware(s, tok.off + 1, s.text[tok.off]);
        return Some((p.value, end));
      }
    }
    if expectOperand && tok.kind == Less && BeginsTag(s, tok.off + 1) {
      var end := ElementSpanEnd(s, tok.off);
      return Some((tok.off, end));
    }
    return None;
  }

  /** elementSpanEnd: past the element whose '<' stands at off. Between tags only '<' and '{'
      are structural. */
  method ElementSpanEnd(s: Source, off: nat) returns (end: nat)
    requires off < |s.text| && s.text[off] == '<' && s.TokenizerOk()
    ensures end == ElementEnd(s, off)
    decreases |s.text| - off, ELEMENT
  {
    hide EndFrom, TagClose, NextTag, GoEnd;
    var i, depth := off, 0;
    while i < |s.text|
      invariant off <= i <= |s.text|
      invariant i < |s.text| ==> s.text[i] == '<'
      invariant EndFrom(s, i, depth) == ElementEnd(s, off)
      decreases |s.text| - i
    {
      var closing := i + 1 < |s.text| && s.text[i + 1] == '/';
      var close := ScanTagClose(s, i);
      if close.None? {
        OneTag(s, i, depth);
        return |s.text|;
      }
      OneTag(s, i, depth);
      var selfClosing := !closing && s.text[close.value - 1] == '/';
      i := close.value + 1;
      if closing {
        depth := depth - 1;
        if depth <= 0 {
          return i;
        }
      } else if selfClosing {
        if depth == 0 {
          return i;
        }
      } else {
        depth := depth + 1;
      }
      assert EndFrom(s, NextTag(s, i), depth) == ElementEnd(s, off);
      while i < |s.text| && s.text[i] != '<'
        invariant close.value < i <= |s.text|
        invariant NextTag(s, close.value + 1) == NextTag(s, i)
        decreases |s.text| - i
      {
        OneText(s, i);
        if s.text[i] == '{' {
          var brace := GoDepth1End(s, i + 1);
          if brace.None? {
            return |s.text|;
          }
          i := brace.value + 1;
          continue;
        }
        i := i + 1;
      }
      OneText(s, i);
    }
    OneTag(s, i, depth);
    return |s.text|;
  }

  /** scanTagClose: the '>' that closes the tag whose '<' stands at i. */
  method ScanTagClose(s: Source, i: nat) returns (close: Option<nat>)
    requires i < |s.text| && s.TokenizerOk()
    ensures close == TagClose(s, i + 1)
    decreases |s.text| - i, TAG
  {
    var j := i + 1;
    while j < |s.text|
      invariant i < j <= |s.text|
      invariant TagClose(s, i + 1) == TagClose(s, j)
      decreases |s.text| - j
    {
      if s.text[j] == '"' || s.text[j] == '\'' {
        j := SkipAttrQuoted(s, j);
      } else if s.text[j] == '{' {
        var end := GoDepth1End(s, j + 1);
        if end.None? {
          return None;
        }
        j := end.value + 1;
      } else if s.text[j] == '>' {
        return Some(j);
      } else {
        j := j + 1;
      }
    }
    return None;
  }

  /** skipAttrQuoted: just past the next occurrence of the quote at i, escapes do not count. */
  method SkipAttrQuoted(s: Source, i: nat) returns (end: nat)
    requires i < |s.text|
    ensures end == AttrEnd(s, i + 1, s.text[i])
    ensures forall k :: i < k < end - 1 ==> s.text[k] != s.text[i]
    ensures end == |s.text| || (i + 1 < end && s.text[end - 1] == s.text[i])
  {
    for j := i + 1 to |s.text|
      invariant forall k :: i < k < j ==> s.text[k] != s.text[i]
      invariant AttrEnd(s, i + 1, s.text[i]) == AttrEnd(s, j, s.text[i])
    {
      if s.text[j] == s.text[i] {
        return j + 1;
      }
    }
    return |s.text|;
  }
}

/** What scanGoExpr reports, as a function of what it meets: the Go tokens, one after the other, and the
    spans of prefixed literals and elements, each of which is skipped. */
module ScanTrace {
  import opened SourceText
  import opened Spans
  import opened Options

  /** What scanGoExpr reports about one interpolation body. */
  datatype ExprScan = ExprScan(
    close: Option<nat>,
    pipes: seq<nat>, commas: seq<nat>, colons: seq<nat>, marks: seq<nat>,
    literals: seq<(nat, nat)>)

  /** One step of the scan: a token, or a span that is skipped (an element when mark). */
  datatype Event = Saw(tok: Token) | Skip(mark: bool, span: (nat, nat))

  // ----- the span of a token -----

  /** The span of the literal or element that starts at tok. */
  ghost predicate SpanAt(s: Source, tok: Token, span: (nat, nat))
    requires s.TokenizerOk()
  {
    && tok.off < |s.text| && (tok.kind == Less ==> s.text[tok.off] == '<') && span.1 == SpanEnd(s, tok)
    && if tok.kind == Less then span.0 == tok.off
       else (s.text[tok.off] == '`' || s.text[tok.off] == '"') && Some(span.0) == LangPrefixStart(s, tok.off)
  }

  // ----- the trace -----

  /** Where the tokenizer was last started. */
  function BaseOf(from: nat, ev: seq<Event>): nat {
    if ev == [] then from
    else if ev[|ev| - 1].Skip? then ev[|ev| - 1].span.1 else BaseOf(from, ev[..|ev| - 1])
  }

  /** How many tokens were seen since. */
  function CountOf(ev: seq<Event>): nat {
    if ev == [] || ev[|ev| - 1].Skip? then 0 else CountOf(ev[..|ev| - 1]) + 1
  }

  function PrevOf(ev: seq<Event>): Option<Token> {
    if ev == [] || ev[|ev| - 1].Skip? then None else Some(ev[|ev| - 1].tok)
  }

  /** An operand is expected: at the start, and as the last token says; a skipped span is one. */
  predicate Expects(ev: seq<Event>) {
    ev == [] || (ev[|ev| - 1].Saw? && ExpectsOperandAfter(ev[|ev| - 1].tok.kind))
  }

  /** The bracket depth, which starts at 1; spans do not count. */
  function DepthAfter(ev: seq<Event>): int {
    if ev == [] then 1
    else DepthAfter(ev[..|ev| - 1]) + (if ev[|ev| - 1].Saw? then Turn(ev[|ev| - 1].tok.kind) else 0)
  }

  /** The last event is the brace that brings the depth to 0. */
  predicate Closes(ev: seq<Event>) {
    && ev != [] && ev[|ev| - 1].Saw? && ev[|ev| - 1].tok.kind == RightBrace && DepthAfter(ev[..|ev| - 1]) == 1
  }

  /** Event k comes next: the next token of the tokenizer started last, seen or the start of a span. */
  ghost predicate StepOk(s: Source, from: nat, ev: seq<Event>, k: nat)
    requires k < |ev| && s.TokenizerOk()
  {
    Follows(s, from, ev[..k], ev[k])
  }

  ghost predicate Follows(s: Source, from: nat, ev: seq<Event>, e: Event)
    requires s.TokenizerOk()
  {
    var base, n := BaseOf(from, ev), CountOf(ev);
    && !Closes(ev) && base < |s.text| && n < |s.tokens(base)|
    && var tok := s.tokens(base)[n];
       match e
       case Saw(t) => t == tok && !StartsSpan(s, tok, Expects(ev))
       case Skip(mark, span) => StartsSpan(s, tok, Expects(ev)) && mark == (tok.kind == Less) && SpanAt(s, tok, span)
  }

  /** Every event is the next one: no token outside of the spans is left out. */
  ghost predicate Trace(s: Source, from: nat, ev: seq<Event>)
    requires s.TokenizerOk()
  {
    forall k :: 0 <= k < |ev| ==> StepOk(s, from, ev, k)
  }

  /** There is no next event: the closing brace was met, or nothing is left. */
  ghost predicate Finished(s: Source, from: nat, ev: seq<Event>) {
    var base := BaseOf(from, ev);
    Closes(ev) || base >= |s.text| || CountOf(ev) == |s.tokens(base)|
  }

  // ----- the report -----

  datatype Delimiter = Pipe | CommaMark | ColonMark

  /** The delimiter that the last event completes, at depth 1. */
  function PickAt(which: Delimiter, ev: seq<Event>): Option<nat> {
    if ev == [] || ev[|ev| - 1].Skip? || DepthAfter(ev[..|ev| - 1]) != 1 then None
    else
      var tok, prev := ev[|ev| - 1].tok, PrevOf(ev[..|ev| - 1]);
      match which
      case CommaMark => if tok.kind == Comma then Some(tok.off) else None
      case ColonMark => if tok.kind == Colon then Some(tok.off) else None
      case Pipe =>
        if tok.kind == Greater && prev.Some? && prev.value.kind == Or && tok.off == prev.value.off + 1 then Some(prev.value.off)
        else None
  }

  function Picked(which: Delimiter, ev: seq<Event>): seq<nat> {
    if ev == [] then []
    else
      var p := PickAt(which, ev);
      Picked(which, ev[..|ev| - 1]) + (if p.Some? then [p.value] else [])
  }

  function SpansOf(ev: seq<Event>): seq<(nat, nat)> {
    if ev == [] then []
    else SpansOf(ev[..|ev| - 1]) + (if ev[|ev| - 1].Skip? then [ev[|ev| - 1].span] else [])
  }

  function MarksOf(ev: seq<Event>): seq<nat> {
    if ev == [] then []
    else MarksOf(ev[..|ev| - 1]) + (if ev[|ev| - 1].Skip? && ev[|ev| - 1].mark then [ev[|ev| - 1].span.0] else [])
  }

  function LiteralsOf(ev: seq<Event>): seq<(nat, nat)> {
    if ev == [] then []
    else LiteralsOf(ev[..|ev| - 1]) + (if ev[|ev| - 1].Skip? && !ev[|ev| - 1].mark then [ev[|ev| - 1].span] else [])
  }

  function Report(ev: seq<Event>): ExprScan {
    ExprScan(if Closes(ev) then Some(ev[|ev| - 1].tok.off) else None,
      Picked(Pipe, ev), Picked(CommaMark, ev), Picked(ColonMark, ev), MarksOf(ev), LiteralsOf(ev))
  }

  lemma {:induction false} NoEvents(s: Source, from: nat)
    requires s.TokenizerOk()
    ensures Trace(s, from, []) && Report([]) == ExprScan(None, [], [], [], [], [])
  {}

  lemma {:induction false} NotClosed(ev: seq<Event>)
    ensures Report(ev).close.Some? <==> Closes(ev)
  {}

  lemma {:induction false} ClosesAs(ev: seq<Event>, tok: Token)
    ensures var close := Report(ev + [Saw(tok)]).close;
      close.Some? ==> close.value == tok.off && tok.kind == RightBrace
  {}

  lemma {:induction false} TraceGrows(s: Source, from: nat, ev: seq<Event>, e: Event)
    requires s.TokenizerOk()
    requires Trace(s, from, ev) && Follows(s, from, ev, e)
    ensures Trace(s, from, ev + [e])
  {
    hide Follows;
    forall k | 0 <= k < |ev + [e]|
      ensures StepOk(s, from, ev + [e], k)
    {
      assert (ev + [e])[..k] == ev[..k];
      if k == |ev| {
        assert ev[..k] == ev;
      } else {
        assert StepOk(s, from, ev, k);
      }
    }
  }

  lemma {:induction false} TraceShorter(s: Source, from: nat, ev: seq<Event>, k: nat)
    requires s.TokenizerOk()
    requires Trace(s, from, ev) && k <= |ev|
    ensures Trace(s, from, ev[..k])
  {
    hide Follows;
    forall j | 0 <= j < k
      ensures StepOk(s, from, ev[..k], j)
    {
      assert StepOk(s, from, ev, j);
      assert ev[..k][..j] == ev[..j];
    }
  }

  lemma {:induction false} SpanReported(ev: seq<Event>, e: Event)
    requires e.Skip? && !Closes(ev)
    ensures Report(ev + [e]) == if e.mark then Report(ev).(marks := Report(ev).marks + [e.span.0])
      else Report(ev).(literals := Report(ev).literals + [e.span])
    ensures DepthAfter(ev + [e]) == DepthAfter(ev) && CountOf(ev + [e]) == 0
  {
    assert (ev + [e])[..|ev|] == ev;
  }

  lemma {:induction false} TokenReported(ev: seq<Event>, tok: Token)
    requires !Closes(ev)
    ensures var r, now := Report(ev), ev + [Saw(tok)];
      && (forall which :: Picked(which, now) == Picked(which, ev) + (if PickAt(which, now).Some? then [PickAt(which, now).value] else []))
      && Report(now) == ExprScan(if Closes(now) then Some(tok.off) else None,
        Picked(Pipe, now), Picked(CommaMark, now), Picked(ColonMark, now), r.marks, r.literals)
    ensures DepthAfter(ev + [Saw(tok)]) == DepthAfter(ev) + Turn(tok.kind)
    ensures (ev + [Saw(tok)])[..|ev|] == ev
  {
    assert (ev + [Saw(tok)])[..|ev|] == ev;
  }

  // ----- what is reported -----

  /** The delimiter that event k completes. */
  function PickOf(which: Delimiter, ev: seq<Event>, k: nat): Option<nat>
    requires k < |ev|
  {
    PickAt(which, ev[..k + 1])
  }

  lemma {:induction false} PickOfPrefix(which: Delimiter, ev: seq<Event>, n: nat, k: nat)
    requires k < n <= |ev|
    ensures PickOf(which, ev[..n], k) == PickOf(which, ev, k)
  {
    assert ev[..n][..k + 1] == ev[..k + 1];
  }

  lemma {:induction false} PickedAre(which: Delimiter, ev: seq<Event>, d: nat)
    ensures d in Picked(which, ev) <==> exists k :: 0 <= k < |ev| && PickOf(which, ev, k) == Some(d)
  {
    hide PickAt, PickOf;
    if ev != [] {
      var n := |ev| - 1;
      PickedAre(which, ev[..n], d);
      forall k | 0 <= k < n
        ensures PickOf(which, ev[..n], k) == PickOf(which, ev, k)
      {
        PickOfPrefix(which, ev, n, k);
      }
      LastPick(which, ev);
      if d in Picked(which, ev[..n]) {
        var k :| 0 <= k < n && PickOf(which, ev[..n], k) == Some(d);
        assert PickOf(which, ev, k) == Some(d);
      }
    }
  }

  lemma {:induction false} LastPick(which: Delimiter, ev: seq<Event>)
    requires ev != []
    ensures PickOf(which, ev, |ev| - 1) == PickAt(which, ev)
  {
    assert ev[..|ev|] == ev;
  }

  /** How many of the tokens seen are of some kinds. */
  function Seen(ev: seq<Event>, kinds: set<TokenKind>): nat {
    if ev == [] then 0
    else Seen(ev[..|ev| - 1], kinds) + (if ev[|ev| - 1].Saw? && ev[|ev| - 1].tok.kind in kinds then 1 else 0)
  }

  /** As many brackets were closed as opened before event k. */
  predicate AtTop(ev: seq<Event>, k: nat)
    requires k <= |ev|
  {
    Seen(ev[..k], {LeftParen, LeftBracket, LeftBrace}) == Seen(ev[..k], {RightParen, RightBracket, RightBrace})
  }

  /** Event k is the delimiter at d: a comma, a colon, or the second half of a pipe whose first half is the event before. */
  predicate Completes(which: Delimiter, ev: seq<Event>, k: nat, d: nat)
    requires k < |ev|
  {
    match which
    case CommaMark => ev[k] == Saw(Token(Comma, d))
    case ColonMark => ev[k] == Saw(Token(Colon, d))
    case Pipe => k > 0 && ev[k - 1] == Saw(Token(Or, d)) && ev[k] == Saw(Token(Greater, d + 1))
  }

  lemma {:induction false} DepthIsBalance(ev: seq<Event>)
    ensures DepthAfter(ev) == 1 + Seen(ev, {LeftParen, LeftBracket, LeftBrace}) - Seen(ev, {RightParen, RightBracket, RightBrace})
  {
    if ev != [] {
      DepthIsBalance(ev[..|ev| - 1]);
    }
  }

  /** Exactly the delimiters outside of all brackets and spans are reported. */
  lemma {:induction false} EveryDelimiter(which: Delimiter, ev: seq<Event>, d: nat)
    ensures d in Picked(which, ev) <==> exists k :: 0 <= k < |ev| && AtTop(ev, k) && Completes(which, ev, k, d)
  {
    hide Picked, PickOf, AtTop, Completes;
    PickedAre(which, ev, d);
    forall k | 0 <= k < |ev|
      ensures PickOf(which, ev, k) == Some(d) <==> AtTop(ev, k) && Completes(which, ev, k, d)
    {
      PickIs(which, ev, k, d);
    }
  }

  lemma {:induction false} PickIs(which: Delimiter, ev: seq<Event>, k: nat, d: nat)
    requires k < |ev|
    ensures PickOf(which, ev, k) == Some(d) <==> AtTop(ev, k) && Completes(which, ev, k, d)
  {
    hide Seen, DepthAfter;
    var upto := ev[..k + 1];
    assert upto[..k] == ev[..k] && upto[k] == ev[k];
    DepthIsBalance(ev[..k]);
    if k > 0 {
      assert ev[..k][k - 1] == ev[k - 1];
    }
  }

  /** The spans are in order and disjoint, and none holds a reported delimiter: what is
      inside a literal or an element never splits the expression around it. */
  ghost predicate Opaque(s: Source, res: ExprScan, spans: seq<(nat, nat)>) {
    && (forall k :: 0 <= k < |spans| ==> spans[k].0 < spans[k].1 <= |s.text|)
    && (forall k, l :: 0 <= k < l < |spans| ==> spans[k].1 <= spans[l].0)
    && (forall k, d: nat :: 0 <= k < |spans| && IsDelimiter(res, d) ==> !(spans[k].0 <= d < spans[k].1))
  }

  predicate IsDelimiter(res: ExprScan, d: nat) {
    d in res.pipes || d in res.commas || d in res.colons || Some(d) == res.close
  }

  predicate IsDelimiterChar(c: char) { c == '|' || c == ',' || c == ':' || c == '}' }

  ghost predicate SpanFrom(spans: seq<(nat, nat)>, m: nat) {
    exists l :: 0 <= l < |spans| && spans[l].0 == m
  }

  /** Every reported literal is a skipped span, and one starts at every reported element. */
  ghost predicate Skipped(res: ExprScan, spans: seq<(nat, nat)>) {
    && (forall k :: 0 <= k < |res.literals| ==> res.literals[k] in spans)
    && (forall k :: 0 <= k < |res.marks| ==> SpanFrom(spans, res.marks[k]))
  }

  /** Every reported delimiter stands on its character between from and last. */
  ghost predicate Delimited(s: Source, res: ExprScan, from: nat, last: nat) {
    forall d: nat :: IsDelimiter(res, d) ==> from <= d <= last && d < |s.text| && IsDelimiterChar(s.text[d])
  }

  /** The tokenizer was last started at base, right after the last span. */
  ghost predicate Resumed(s: Source, spans: seq<(nat, nat)>, from: nat, base: nat) {
    && (forall k :: 0 <= k < |spans| ==> spans[k].1 <= base)
    && (base == from ==> spans == [])
    && (from < base < |s.text| ==> !IsPrefixChar(s.text[base - 1]))
  }

  /** The invariant of scanGoExpr between two tokens. */
  ghost predicate ScanInv(s: Source, res: ExprScan, spans: seq<(nat, nat)>, from: nat, base: nat, last: nat) {
    Opaque(s, res, spans) && Skipped(res, spans) && Delimited(s, res, from, last) && Resumed(s, spans, from, base)
  }

  /** Records one delimiter between the last start and the current token. */
  lemma {:induction false} AddDelimiter(s: Source, res: ExprScan, res': ExprScan, spans: seq<(nat, nat)>,
                                       from: nat, base: nat, last: nat, off: nat, d: nat)
    requires ScanInv(s, res, spans, from, base, last) && last <= off
    requires forall e: nat :: IsDelimiter(res', e) ==> IsDelimiter(res, e) || e == d
    requires res'.literals == res.literals && res'.marks == res.marks
    requires from <= base <= d <= off && d < |s.text| && IsDelimiterChar(s.text[d])
    ensures ScanInv(s, res', spans, from, base, off)
  {}

  /** Records one skipped span whose first characters, up to off, are a literal's prefix. */
  lemma {:induction false} AddSpan(s: Source, res: ExprScan, res': ExprScan, spans: seq<(nat, nat)>,
                                  from: nat, base: nat, last: nat, off: nat, span: (nat, nat))
    requires ScanInv(s, res, spans, from, base, last) && last <= off
    requires from <= base <= off < span.1 <= |s.text| && span.0 <= off
    requires forall k :: span.0 <= k < off ==> IsPrefixChar(s.text[k])
    requires s.text[off] == '<' || s.text[off] == '`' || s.text[off] == '"'
    requires span.1 == |s.text| || s.text[span.1 - 1] == '>' || s.text[span.1 - 1] == s.text[off]
    requires res' == res.(literals := res.literals + [span]) || res' == res.(marks := res.marks + [span.0])
    ensures ScanInv(s, res', spans + [span], from, span.1, span.1)
  {
    var all := spans + [span];
    SpanIsLater(s, spans, from, base, off, span);
    DelimitersOutside(s, res, from, last, off, span);
    assert forall d: nat :: IsDelimiter(res', d) == IsDelimiter(res, d);
    forall m | m == span.0 || SpanFrom(spans, m)
      ensures SpanFrom(all, m)
    {
      if m == span.0 {
        assert all[|spans|].0 == m;
      } else {
        var l :| 0 <= l < |spans| && spans[l].0 == m;
        assert all[l].0 == m;
      }
    }
  }

  /** A literal's prefix does not reach back into the span before it. */
  lemma {:induction false} SpanIsLater(s: Source, spans: seq<(nat, nat)>, from: nat, base: nat, off: nat, span: (nat, nat))
    requires Resumed(s, spans, from, base) && from <= base <= off < |s.text| && span.0 <= off
    requires forall k :: span.0 <= k < off ==> IsPrefixChar(s.text[k])
    ensures forall k :: 0 <= k < |spans| ==> spans[k].1 <= span.0
  {}

  lemma {:induction false} DelimitersOutside(s: Source, res: ExprScan, from: nat, last: nat, off: nat, span: (nat, nat))
    requires Delimited(s, res, from, last) && last <= off < |s.text| && span.0 <= off
    requires forall k :: span.0 <= k < off ==> IsPrefixChar(s.text[k])
    requires !IsDelimiterChar(s.text[off])
    ensures forall d: nat :: IsDelimiter(res, d) ==> d < span.0
  {
    forall d: nat | IsDelimiter(res, d)
      ensures d < span.0
    {
      assert d <= off && IsDelimiterChar(s.text[d]);
    }
  }

  // ----- what a trace says -----

  /** The offset of the last token, or the place where the tokenizer was started after it. */
  function LastOf(from: nat, ev: seq<Event>): nat {
    if ev == [] then from
    else if ev[|ev| - 1].Skip? then ev[|ev| - 1].span.1 else ev[|ev| - 1].tok.off
  }

  lemma {:induction false} LastStep(s: Source, from: nat, ev: seq<Event>)
    requires s.TokenizerOk()
    requires Trace(s, from, ev) && ev != []
    ensures Trace(s, from, ev[..|ev| - 1]) && Follows(s, from, ev[..|ev| - 1], ev[|ev| - 1])
  {
    TraceShorter(s, from, ev, |ev| - 1);
    assert StepOk(s, from, ev, |ev| - 1);
  }

  /** The token before the next one. */
  lemma {:induction false} LastToken(s: Source, from: nat, ev: seq<Event>)
    requires s.TokenizerOk()
    requires Trace(s, from, ev) && CountOf(ev) > 0
    ensures var base, n := BaseOf(from, ev), CountOf(ev);
      base < |s.text| && n <= |s.tokens(base)| && ev[|ev| - 1] == Saw(s.tokens(base)[n - 1])
  {
    LastStep(s, from, ev);
  }

  /** Where the next token stands. */
  lemma {:induction false} NextToken(s: Source, from: nat, ev: seq<Event>, e: Event)
    requires s.TokenizerOk() && Trace(s, from, ev) && Follows(s, from, ev, e)
    ensures var tok := s.tokens(BaseOf(from, ev))[CountOf(ev)];
      && BaseOf(from, ev) <= tok.off <= |s.text| && LastOf(from, ev) <= tok.off
      && (PrevOf(ev).Some? && Punctuation(PrevOf(ev).value.kind).Some? ==> LastOf(from, ev) < tok.off)
      && (Punctuation(tok.kind).Some? ==> tok.off < |s.text| && s.text[tok.off] == Punctuation(tok.kind).value)
  {
    assert s.TokenOk(BaseOf(from, ev), CountOf(ev));
    if CountOf(ev) > 0 {
      LastToken(s, from, ev);
    } else {
      NothingSince(from, ev);
    }
  }

  lemma {:induction false} NothingSince(from: nat, ev: seq<Event>)
    requires CountOf(ev) == 0
    ensures LastOf(from, ev) == BaseOf(from, ev) && PrevOf(ev).None?
  {}

  /** The token before the next one is inside of the region, on its character. */
  lemma {:induction false} PrevToken(s: Source, from: nat, ev: seq<Event>)
    requires s.TokenizerOk() && Trace(s, from, ev) && PrevOf(ev).Some?
    ensures var tok := PrevOf(ev).value;
      && BaseOf(from, ev) <= tok.off <= |s.text| && tok.off == LastOf(from, ev)
      && (Punctuation(tok.kind).Some? ==> tok.off < |s.text| && s.text[tok.off] == Punctuation(tok.kind).value)
  {
    LastToken(s, from, ev);
    assert s.TokenOk(BaseOf(from, ev), CountOf(ev) - 1);
  }

  /** Skipped spans are in order and disjoint, no reported delimiter lies in one, and each delimiter is on its
      character. */
  lemma {:induction false} SpansAreOpaque(s: Source, from: nat, ev: seq<Event>)
    requires s.TokenizerOk() && from <= |s.text| && Trace(s, from, ev)
    ensures ScanInv(s, Report(ev), SpansOf(ev), from, BaseOf(from, ev), LastOf(from, ev))
    ensures from <= BaseOf(from, ev) <= LastOf(from, ev) <= |s.text|
  {
    hide ScanInv, Trace, Report, SpanAt, StartsSpan;
    if ev == [] {
      NothingYet(s, from);
    } else {
      var init, e := ev[..|ev| - 1], ev[|ev| - 1];
      LastStep(s, from, ev);
      SpansAreOpaque(s, from, init);
      NextToken(s, from, init, e);
      assert ev == init + [e];
      match e
      case Saw(tok) => SawStep(s, from, init, tok);
      case Skip(_, _) => SkipStep(s, from, init, e);
    }
  }

  lemma {:induction false} NothingYet(s: Source, from: nat)
    ensures ScanInv(s, Report([]), SpansOf([]), from, BaseOf(from, []), LastOf(from, []))
  {}

  lemma {:induction false} SkipStep(s: Source, from: nat, ev: seq<Event>, e: Event)
    requires s.TokenizerOk()
    requires Follows(s, from, ev, e) && e.Skip? && from <= BaseOf(from, ev)
    requires ScanInv(s, Report(ev), SpansOf(ev), from, BaseOf(from, ev), LastOf(from, ev))
    requires var tok := s.tokens(BaseOf(from, ev))[CountOf(ev)]; BaseOf(from, ev) <= tok.off && LastOf(from, ev) <= tok.off
    ensures var now := ev + [e];
      && ScanInv(s, Report(now), SpansOf(now), from, BaseOf(from, now), LastOf(from, now))
      && BaseOf(from, now) == LastOf(from, now) <= |s.text| && from <= BaseOf(from, now)
  {
    hide ScanInv, Report, StartsSpan;
    var tok := s.tokens(BaseOf(from, ev))[CountOf(ev)];
    SpanReported(ev, e);
    assert (ev + [e])[..|ev|] == ev;
    AddSpan(s, Report(ev), Report(ev + [e]), SpansOf(ev), from, BaseOf(from, ev), LastOf(from, ev), tok.off, e.span);
  }

  lemma {:induction false} SawStep(s: Source, from: nat, ev: seq<Event>, tok: Token)
    requires s.TokenizerOk() && Trace(s, from, ev) && Follows(s, from, ev, Saw(tok)) && from <= BaseOf(from, ev)
    requires ScanInv(s, Report(ev), SpansOf(ev), from, BaseOf(from, ev), LastOf(from, ev))
    requires BaseOf(from, ev) <= tok.off && LastOf(from, ev) <= tok.off <= |s.text|
    requires Punctuation(tok.kind).Some? ==> tok.off < |s.text| && s.text[tok.off] == Punctuation(tok.kind).value
    ensures var now := ev + [Saw(tok)];
      && ScanInv(s, Report(now), SpansOf(now), from, BaseOf(from, now), LastOf(from, now))
      && from <= BaseOf(from, now) <= LastOf(from, now) <= |s.text|
  {
    hide ScanInv, Trace, StartsSpan, Picked, MarksOf, LiteralsOf;
    var now := ev + [Saw(tok)];
    TokenReported(ev, tok);
    var d := if tok.kind == Greater && PrevOf(ev).Some? then PrevOf(ev).value.off else tok.off;
    if PrevOf(ev).Some? {
      PrevToken(s, from, ev);
    }
    assert SpansOf(now) == SpansOf(ev);
    if Closes(now) || PickAt(Pipe, now).Some? || PickAt(CommaMark, now).Some? || PickAt(ColonMark, now).Some? {
      AddDelimiter(s, Report(ev), Report(now), SpansOf(ev), from, BaseOf(from, ev), LastOf(from, ev), tok.off, d);
    } else {
      assert Report(now) == Report(ev);
      KeepDelimiters(s, Report(ev), SpansOf(ev), from, BaseOf(from, ev), LastOf(from, ev), tok.off);
    }
  }

  lemma {:induction false} KeepDelimiters(s: Source, res: ExprScan, spans: seq<(nat, nat)>, from: nat, base: nat, last: nat, off: nat)
    requires ScanInv(s, res, spans, from, base, last) && last <= off
    ensures ScanInv(s, res, spans, from, base, off)
  {}

  /** The scan ends at the first closing brace outside of all brackets and spans, and reports that brace alone. */
  lemma {:induction false} CloseIsFirst(s: Source, from: nat, ev: seq<Event>, k: nat, d: nat)
    requires s.TokenizerOk() && Trace(s, from, ev) && k < |ev|
    ensures AtTop(ev, k) && ev[k] == Saw(Token(RightBrace, d)) <==> k == |ev| - 1 && Report(ev).close == Some(d)
  {
    hide Seen, DepthAfter, Picked, MarksOf, LiteralsOf;
    assert ev[..|ev|] == ev;
    assert ev[..k + 1][..k] == ev[..k] && ev[..k + 1][k] == ev[k];
    DepthIsBalance(ev[..k]);
    assert Closes(ev[..k + 1]) <==> AtTop(ev, k) && ev[k].Saw? && ev[k].tok.kind == RightBrace;
    forall j: nat | j < |ev|
      ensures !Closes(ev[..j])
    {
      assert StepOk(s, from, ev, j);
    }
  }

  /** Between one start of the tokenizer and the next, the events are its tokens one after the other, up to the one
      that starts a span. */
  lemma {:induction false} TokensInOrder(s: Source, from: nat, ev: seq<Event>, i: nat, j: nat)
    requires s.TokenizerOk()
    requires Trace(s, from, ev) && i + j < |ev| && (i == 0 || ev[i - 1].Skip?)
    requires forall m :: i <= m < i + j ==> ev[m].Saw?
    ensures var base := if i == 0 then from else ev[i - 1].span.1;
      && base < |s.text| && j < |s.tokens(base)|
      && (ev[i + j].Saw? ==> ev[i + j].tok == s.tokens(base)[j])
      && (ev[i + j].Skip? <==> StartsSpan(s, s.tokens(base)[j], Expects(ev[..i + j])))
  {
    hide StartsSpan, SpanAt;
    SegmentIs(from, ev, i, j);
    assert StepOk(s, from, ev, i + j);
  }

  lemma {:induction false} SegmentIs(from: nat, ev: seq<Event>, i: nat, j: nat)
    requires i + j <= |ev| && (i == 0 || ev[i - 1].Skip?)
    requires forall m :: i <= m < i + j ==> ev[m].Saw?
    ensures BaseOf(from, ev[..i + j]) == if i == 0 then from else ev[i - 1].span.1
    ensures CountOf(ev[..i + j]) == j
  {
    var now := ev[..i + j];
    if j > 0 {
      SegmentIs(from, ev, i, j - 1);
      assert now[..|now| - 1] == ev[..i + j - 1] && now[|now| - 1] == ev[i + j - 1];
    } else if i > 0 {
      assert now[|now| - 1] == ev[i - 1];
    }
  }

  ghost predicate Ascending(p: seq<nat>) { forall i, j :: 0 <= i < j < |p| ==> p[i] < p[j] }

  /** The delimiters of each kind are reported in the order of the text. */
  lemma {:induction false} DelimitersAscend(s: Source, from: nat, ev: seq<Event>, which: Delimiter)
    requires s.TokenizerOk() && Trace(s, from, ev)
    ensures Ascending(Picked(which, ev))
    ensures forall d :: d in Picked(which, ev) ==> d < LastOf(from, ev) || (which != Pipe && PickAt(which, ev) == Some(d))
  {
    hide Trace, Follows, PickAt;
    if ev != [] {
      var init := ev[..|ev| - 1];
      LastStep(s, from, ev);
      DelimitersAscend(s, from, init, which);
      PickedIsLater(s, from, init, ev[|ev| - 1], which);
      assert ev == init + [ev[|ev| - 1]];
      if PickAt(which, ev).Some? {
        AscendAppend(Picked(which, init), PickAt(which, ev).value);
      }
    }
  }

  lemma {:induction false} AscendAppend(p: seq<nat>, x: nat)
    requires Ascending(p) && forall d :: d in p ==> d < x
    ensures Ascending(p + [x])
  {
    assert forall i :: 0 <= i < |p| ==> p[i] in p;
  }

  lemma {:induction false} PickedIsLater(s: Source, from: nat, ev: seq<Event>, e: Event, which: Delimiter)
    requires s.TokenizerOk() && Trace(s, from, ev) && Follows(s, from, ev, e)
    requires forall d :: d in Picked(which, ev) ==> d < LastOf(from, ev) || (which != Pipe && PickAt(which, ev) == Some(d))
    ensures var now := ev + [e];
      && (forall d :: d in Picked(which, ev) ==> d < LastOf(from, now))
      && (PickAt(which, now).Some? ==>
          (which == Pipe ==> PickAt(which, now).value < LastOf(from, now))
          && forall d :: d in Picked(which, ev) ==> d < PickAt(which, now).value)
  {
    hide Trace, Picked;
    NextToken(s, from, ev, e);
    assert (ev + [e])[..|ev|] == ev;
    if PrevOf(ev).Some? {
      PrevToken(s, from, ev);
    }
  }

  /** Where the scan ends that has met these events. */
  ghost function EndAfter(s: Source, from: nat, ev: seq<Event>): Option<nat>
    requires s.TokenizerOk() && BaseOf(from, ev) <= |s.text|
    requires !Closes(ev) && BaseOf(from, ev) < |s.text| ==> CountOf(ev) <= |s.tokens(BaseOf(from, ev))|
  {
    if Closes(ev) then Some(ev[|ev| - 1].tok.off)
    else CloseAt(s, BaseOf(from, ev), CountOf(ev), DepthAfter(ev), Expects(ev))
  }

  /** It ends at the same place from wherever a trace has taken it. */
  lemma {:induction false} TraceGoesOn(s: Source, from: nat, ev: seq<Event>)
    requires s.TokenizerOk() && from <= |s.text| && Trace(s, from, ev)
    ensures from <= BaseOf(from, ev) <= |s.text|
    ensures !Closes(ev) && BaseOf(from, ev) < |s.text| ==> CountOf(ev) <= |s.tokens(BaseOf(from, ev))|
    ensures CloseAt(s, from, 0, 1, true) == EndAfter(s, from, ev)
  {
    hide Trace, StartsSpan, CloseAt;
    if ev != [] {
      var init, e := ev[..|ev| - 1], ev[|ev| - 1];
      LastStep(s, from, ev);
      TraceGoesOn(s, from, init);
      NextToken(s, from, init, e);
      OneStep(s, BaseOf(from, init), CountOf(init), DepthAfter(init), Expects(init));
    }
  }

  /** A finished trace ends where goDepth1End says. */
  lemma {:induction false} FinishedEnds(s: Source, from: nat, ev: seq<Event>)
    requires s.TokenizerOk() && from <= |s.text| && Trace(s, from, ev) && Finished(s, from, ev)
    ensures Report(ev).close == CloseAt(s, from, 0, 1, true)
  {
    hide Trace, Picked, MarksOf, LiteralsOf, DepthAfter;
    TraceGoesOn(s, from, ev);
  }
}

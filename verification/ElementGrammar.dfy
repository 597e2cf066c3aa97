/** The elements, Go fragments and prefixed literals that the scanners are meant to delimit on any source, as a
    grammar of their own. They nest without limit: tags hold holes, holes hold Go code, and Go code holds elements
    and literals. Print any of them anywhere and the scanners find exactly its end. */
module ElementGrammar {
  import opened SourceText
  import opened Spans
  import opened Options
  import ByteLoop = HoleGrammar

  datatype Element = Void(tag: Inside) | Pair(open: Inside, kids: Nodes, close: Inside)

  /** What stands between '<' and '>'. */
  datatype Inside = NoParts | Parts(part: Part, more: Inside)
  datatype Part = Plain(c: char) | Quoted(mark: char, content: string) | AttrHole(go: Go)

  /** What stands between two tags. */
  datatype Nodes = NoNodes | Nodes(node: Node, rest: Nodes)
  datatype Node = Prose(c: char) | ProseHole(go: Go) | Child(element: Element)

  /** Go code, cut where an element or a literal is embedded. */
  datatype Go = Tail(code: Code) | Embed(code: Code, span: Span, rest: Go)

  /** A stretch of Go with the tokens that the tokenizer gives it, at their offsets in the stretch. */
  datatype Code = Code(text: string, toks: seq<Token>)

  /** An element, or a literal from its delimiter on; the prefix belongs to the code before it. */
  datatype Span = Markup(element: Element) | Literal(delim: char, segments: Segments)
  datatype Segments = Done | Segs(part: Segment, rest: Segments)
  datatype Segment = Ch(c: char) | Esc(c: char) | LiteralHole(go: Go)

  // ----- printing: x in front of the text next -----

  function Show(e: Element, next: string): string {
    match e
    case Void(tag) => ['<'] + ShowInside(tag, ['>'] + next)
    case Pair(open, kids, close) =>
      ['<'] + ShowInside(open, ['>'] + ShowNodes(kids, ['<'] + ShowInside(close, ['>'] + next)))
  }

  function ShowInside(t: Inside, next: string): string {
    match t case NoParts => next case Parts(part, more) => ShowPart(part, ShowInside(more, next))
  }

  function ShowPart(p: Part, next: string): string {
    match p
    case Plain(c) => [c] + next
    case Quoted(mark, content) => [mark] + (content + ([mark] + next))
    case AttrHole(go) => ['{'] + ShowGo(go, ['}'] + next)
  }

  function ShowNodes(n: Nodes, next: string): string {
    match n case NoNodes => next case Nodes(node, rest) => ShowNode(node, ShowNodes(rest, next))
  }

  function ShowNode(n: Node, next: string): string {
    match n
    case Prose(c) => [c] + next
    case ProseHole(go) => ['{'] + ShowGo(go, ['}'] + next)
    case Child(element) => Show(element, next)
  }

  function ShowGo(g: Go, next: string): string {
    match g
    case Tail(code) => code.text + next
    case Embed(code, span, rest) => code.text + ShowSpan(span, ShowGo(rest, next))
  }

  function ShowSpan(x: Span, next: string): string {
    match x
    case Markup(element) => Show(element, next)
    case Literal(delim, segments) => [delim] + ShowSegments(segments, [delim] + next)
  }

  function ShowSegments(g: Segments, next: string): string {
    match g case Done => next case Segs(part, rest) => ShowSegment(part, ShowSegments(rest, next))
  }

  function ShowSegment(p: Segment, next: string): string {
    match p
    case Ch(c) => [c] + next
    case Esc(c) => ['\\'] + ([c] + next)
    case LiteralHole(go) => ['@'] + (['{'] + ShowGo(go, ['}'] + next))
  }

  // ----- lengths -----

  function Size(e: Element): nat {
    match e
    case Void(tag) => 2 + InsideSize(tag)
    case Pair(open, kids, close) => 4 + InsideSize(open) + NodesSize(kids) + InsideSize(close)
  }

  function InsideSize(t: Inside): nat {
    match t case NoParts => 0 case Parts(part, more) => PartSize(part) + InsideSize(more)
  }

  function PartSize(p: Part): nat {
    match p case Plain(_) => 1 case Quoted(_, content) => 2 + |content| case AttrHole(go) => 2 + GoSize(go)
  }

  function NodesSize(n: Nodes): nat {
    match n case NoNodes => 0 case Nodes(node, rest) => NodeSize(node) + NodesSize(rest)
  }

  function NodeSize(n: Node): nat {
    match n case Prose(_) => 1 case ProseHole(go) => 2 + GoSize(go) case Child(element) => Size(element)
  }

  function GoSize(g: Go): nat {
    match g case Tail(code) => |code.text| case Embed(code, span, rest) => |code.text| + SpanSize(span) + GoSize(rest)
  }

  function SpanSize(x: Span): nat {
    match x case Markup(element) => Size(element) case Literal(_, segments) => 2 + SegmentsSize(segments)
  }

  function SegmentsSize(g: Segments): nat {
    match g case Done => 0 case Segs(part, rest) => SegmentSize(part) + SegmentsSize(rest)
  }

  function SegmentSize(p: Segment): nat {
    match p case Ch(_) => 1 case Esc(_) => 2 case LiteralHole(go) => 3 + GoSize(go)
  }

  // ----- well-formed markup -----

  predicate StartsWithSlash(t: Inside) { t.Parts? && t.part == Plain('/') }

  predicate EndsInSlash(t: Inside) {
    t.Parts? && if t.more.NoParts? then t.part == Plain('/') else EndsInSlash(t.more)
  }

  /** A void tag ends in a slash, an opening tag does not, and a closing tag starts with one. */
  ghost predicate ElementOk(e: Element) {
    match e
    case Void(tag) => InsideOk(tag) && !StartsWithSlash(tag) && EndsInSlash(tag)
    case Pair(open, kids, close) =>
      && InsideOk(open) && !StartsWithSlash(open) && !EndsInSlash(open) && NodesOk(kids)
      && InsideOk(close) && StartsWithSlash(close)
  }

  ghost predicate InsideOk(t: Inside) { t.Parts? ==> PartOk(t.part) && InsideOk(t.more) }

  ghost predicate PartOk(p: Part) {
    match p
    case Plain(c) => c != '"' && c != '\'' && c != '{' && c != '>'
    case Quoted(mark, content) => (mark == '"' || mark == '\'') && mark !in content
    case AttrHole(go) => HoleOk(go)
  }

  ghost predicate NodesOk(n: Nodes) { n.Nodes? ==> NodeOk(n.node) && NodesOk(n.rest) }

  /** Quotes, slashes and backticks are prose. */
  ghost predicate NodeOk(n: Node) {
    match n
    case Prose(c) => c != '<' && c != '{'
    case ProseHole(go) => HoleOk(go)
    case Child(element) => ElementOk(element)
  }

  /** The brackets of the code of a hole match; embedded elements and literals count as nothing. */
  ghost predicate HoleOk(g: Go)
    decreases g, 1
  {
    GoOk(g, true) && exists n :: NestOk(n) && Flat(n) == AllToks(g)
  }

  /** Elements stand where Go has an operand. */
  ghost predicate GoOk(g: Go, first: bool)
    decreases g, 0
  {
    && CodeOk(g.code, first)
    && (g.Embed? ==>
         && (g.span.Markup? ==> Awaits(g.code.toks, |g.code.toks|, first))
         && SpanOk(g.span) && GoOk(g.rest, false))
  }

  /** A '<' of the code itself compares: it comes after an operand. No string of its own comes right after the last
      letter of a language prefix. */
  predicate CodeOk(code: Code, first: bool) {
    forall j :: 0 <= j < |code.toks| ==>
      && (code.toks[j].kind.Less? ==> !Awaits(code.toks, j, first))
      && (code.toks[j].kind.String? && code.toks[j].off > 0 ==>
           code.toks[j].off <= |code.text| && code.text[code.toks[j].off - 1] != 'f' && code.text[code.toks[j].off - 1] != 's')
  }

  /** After the first k tokens Go has an operand, not an operator; first says so of the start of the code. */
  predicate Awaits(toks: seq<Token>, k: nat, first: bool)
    requires k <= |toks|
  {
    if k == 0 then first else
      var kind := toks[k - 1].kind;
      !kind.Value? && !kind.String? && !IsCloser(kind)
  }

  ghost predicate SpanOk(x: Span) {
    match x
    case Markup(element) => ElementOk(element)
    case Literal(delim, segments) => (delim == '"' || delim == '`') && SegmentsOk(segments, delim)
  }

  ghost predicate SegmentsOk(g: Segments, delim: char) {
    g.Segs? ==> SegmentOk(g.part, ShowSegments(g.rest, [delim]), delim) && SegmentsOk(g.rest, delim)
  }

  ghost predicate SegmentOk(p: Segment, next: string, delim: char) {
    match p
    case Ch(c) => c != '\\' && c != delim && (c == '@' ==> !(['{'] <= next))
    case Esc(_) => true
    case LiteralHole(go) => HoleOk(go)
  }

  /** Tokens with matching brackets. As in the scanner, brackets of all kinds count alike. */
  datatype Nest = Empty | Leaf(tok: Token, rest: Nest) | Group(open: Token, inner: Nest, close: Token, rest: Nest)

  predicate NestOk(n: Nest) {
    match n
    case Empty => true
    case Leaf(tok, rest) => !IsOpener(tok.kind) && !IsCloser(tok.kind) && NestOk(rest)
    case Group(open, inner, close, rest) => IsOpener(open.kind) && IsCloser(close.kind) && NestOk(inner) && NestOk(rest)
  }

  predicate IsOpener(kind: TokenKind) { kind.LeftParen? || kind.LeftBracket? || kind.LeftBrace? }

  predicate IsCloser(kind: TokenKind) { kind.RightParen? || kind.RightBracket? || kind.RightBrace? }

  function Flat(n: Nest): seq<Token> {
    match n
    case Empty => []
    case Leaf(tok, rest) => [tok] + Flat(rest)
    case Group(open, inner, close, rest) => [open] + (Flat(inner) + ([close] + Flat(rest)))
  }

  function AllToks(g: Go): seq<Token> {
    match g case Tail(code) => code.toks case Embed(code, _, rest) => code.toks + AllToks(rest)
  }

  // ----- what is assumed of the tokenizer: it reads the Go code as it was written -----

  ghost predicate ElementReads(s: Source, i: nat, e: Element)
    decreases e
  {
    match e
    case Void(tag) => InsideReads(s, i + 1, tag)
    case Pair(open, kids, close) =>
      && InsideReads(s, i + 1, open) && NodesReads(s, i + 2 + InsideSize(open), kids)
      && InsideReads(s, i + 3 + InsideSize(open) + NodesSize(kids), close)
  }

  ghost predicate InsideReads(s: Source, i: nat, t: Inside)
    decreases t
  {
    t.Parts? ==> (t.part.AttrHole? ==> HoleReads(s, i + 1, t.part.go)) && InsideReads(s, i + PartSize(t.part), t.more)
  }

  ghost predicate NodesReads(s: Source, i: nat, n: Nodes)
    decreases n
  {
    n.Nodes? ==> NodeReads(s, i, n.node) && NodesReads(s, i + NodeSize(n.node), n.rest)
  }

  ghost predicate NodeReads(s: Source, i: nat, n: Node)
    decreases n
  {
    match n
    case Prose(_) => true
    case ProseHole(go) => HoleReads(s, i + 1, go)
    case Child(element) => ElementReads(s, i, element)
  }

  /** The code of a hole. Where nothing that follows has a '<' or a backtick, the byte loop reads it, and it is a
      body of that loop's own grammar. */
  ghost predicate HoleReads(s: Source, i: nat, g: Go)
    decreases g, 1
  {
    if s.Fast(i) then exists b :: ByteLoop.BodyAt(s, i, b) && ByteLoop.Length(b) == GoSize(g)
    else GoReads(s, i, g)
  }

  /** The tokenizer, started at i, gives the tokens of each stretch of code, and then that of the embedded element
      or literal or of the closing brace. */
  ghost predicate GoReads(s: Source, i: nat, g: Go)
    decreases g, 0
  {
    var off := i + |g.code.text|;
    match g
    case Tail(code) => TokensAt(s, i, code, Token(RightBrace, off))
    case Embed(code, span, rest) =>
      && TokensAt(s, i, code, SpanToken(span, off)) && Opens(s, i, code, span)
      && SpanReads(s, off, span) && GoReads(s, off + SpanSize(span), rest)
  }

  /** An element in Go code has a name, or is a fragment; a literal has its prefix at the end of the code before it,
      where an identifier can start. */
  predicate Opens(s: Source, i: nat, code: Code, x: Span) {
    match x
    case Markup(element) =>
      match element {
        case Void(tag) => HasName(s, tag)
        case Pair(open, _, _) => open.NoParts? || HasName(s, open)
      }
    case Literal(_, _) => EndsIn(s, i, code, "f") || EndsIn(s, i, code, "js") || EndsIn(s, i, code, "css")
  }

  predicate HasName(s: Source, t: Inside) { t.Parts? && t.part.Plain? && s.IdentStart(t.part.c) && t.part.c != '-' }

  predicate EndsIn(s: Source, i: nat, code: Code, prefix: string) {
    var n := |code.text| - |prefix|;
    n >= 0 && code.text[n..] == prefix && i + n <= |s.text| && s.Boundary(i + n)
  }

  function SpanToken(x: Span, off: nat): Token { Token(if x.Markup? then Less else String, off) }

  function Shifted(t: Token, i: nat): Token { Token(t.kind, i + t.off) }

  ghost predicate TokensAt(s: Source, i: nat, code: Code, next: Token) {
    && i < |s.text| && |s.tokens(i)| > |code.toks| && s.tokens(i)[|code.toks|] == next
    && forall k :: 0 <= k < |code.toks| ==> s.tokens(i)[k] == Shifted(code.toks[k], i)
  }

  /** The depth and the expectation after the first k tokens. */
  function DepthOf(toks: seq<Token>, k: nat, depth: int): int
    requires k <= |toks|
  {
    if k == 0 then depth else DepthOf(toks, k - 1, depth) + Turn(toks[k - 1].kind)
  }

  predicate ExpectsOf(toks: seq<Token>, k: nat, expects: bool)
    requires k <= |toks|
  {
    if k == 0 then expects else ExpectsOperandAfter(toks[k - 1].kind)
  }

  ghost predicate Quiet(s: Source, i: nat, toks: seq<Token>, expects: bool) {
    forall j :: 0 <= j < |toks| ==> !StartsSpan(s, Shifted(toks[j], i), ExpectsOf(toks, j, expects))
  }

  ghost predicate SpanReads(s: Source, off: nat, x: Span)
    decreases x
  {
    match x
    case Markup(element) => ElementReads(s, off, element)
    case Literal(_, segments) => SegmentsReads(s, off + 1, segments)
  }

  ghost predicate SegmentsReads(s: Source, i: nat, g: Segments)
    decreases g
  {
    g.Segs? ==> (g.part.LiteralHole? ==> HoleReads(s, i + 2, g.part.go)) && SegmentsReads(s, i + SegmentSize(g.part), g.rest)
  }

  // ----- texts at a position -----

  predicate At(s: Source, i: nat, t: string) { ByteLoop.At(s, i, t) }

  lemma {:induction false} AtCons(s: Source, i: nat, c: char, t: string)
    requires At(s, i, [c] + t)
    ensures i < |s.text| && s.text[i] == c && At(s, i + 1, t)
  {
    ByteLoop.AtCons(s, i, c, t);
  }

  /** t is x in front of next, where x has n characters. */
  predicate Prefixed(t: string, n: nat, next: string) { |t| == n + |next| && t[n..] == next }

  lemma {:induction false} Chain(t: string, n: nat, u: string, m: nat, next: string)
    requires Prefixed(t, n, u) && Prefixed(u, m, next)
    ensures Prefixed(t, n + m, next)
  {
    assert t[n + m..] == u[m..];
  }

  lemma {:induction false} One(c: char, next: string)
    ensures Prefixed([c] + next, 1, next)
  {}

  lemma {:induction false} Many(x: string, next: string)
    ensures Prefixed(x + next, |x|, next)
  {}

  lemma {:induction false} ElementPrefixed(e: Element, next: string)
    ensures Prefixed(Show(e, next), Size(e), next)
    decreases e
  {
    hide Prefixed;
    match e {
      case Void(tag) => TagPrefixed(tag, next);
      case Pair(open, kids, close) =>
        var shut := ['<'] + ShowInside(close, ['>'] + next);
        var more := ShowNodes(kids, shut);
        TagPrefixed(open, more);
        NodesPrefixed(kids, shut);
        TagPrefixed(close, next);
        Chain(more, NodesSize(kids), shut, 2 + InsideSize(close), next);
        Chain(Show(e, next), 2 + InsideSize(open), more, NodesSize(kids) + (2 + InsideSize(close)), next);
    }
  }

  lemma {:induction false} TagPrefixed(t: Inside, next: string)
    ensures Prefixed(['<'] + ShowInside(t, ['>'] + next), 2 + InsideSize(t), next)
    decreases t, 1
  {
    hide Prefixed, ShowInside, InsideSize;
    var inside := ShowInside(t, ['>'] + next);
    One('<', inside);
    InsidePrefixed(t, ['>'] + next);
    One('>', next);
    Chain(inside, InsideSize(t), ['>'] + next, 1, next);
    Chain(['<'] + inside, 1, inside, InsideSize(t) + 1, next);
  }

  lemma {:induction false} InsidePrefixed(t: Inside, next: string)
    ensures Prefixed(ShowInside(t, next), InsideSize(t), next)
    decreases t, 0
  {
    hide Prefixed, ShowPart, PartSize;
    match t {
      case NoParts => Many("", next); assert "" + next == next;
      case Parts(part, more) =>
        PartPrefixed(part, ShowInside(more, next));
        InsidePrefixed(more, next);
        Chain(ShowInside(t, next), PartSize(part), ShowInside(more, next), InsideSize(more), next);
    }
  }

  lemma {:induction false} PartPrefixed(p: Part, next: string)
    ensures Prefixed(ShowPart(p, next), PartSize(p), next)
    decreases p
  {
    hide Prefixed;
    match p {
      case Plain(c) => One(c, next);
      case Quoted(mark, content) =>
        One(mark, content + ([mark] + next));
        Many(content, [mark] + next);
        One(mark, next);
        Chain(content + ([mark] + next), |content|, [mark] + next, 1, next);
        Chain(ShowPart(p, next), 1, content + ([mark] + next), |content| + 1, next);
      case AttrHole(go) => HolePrefixed(go, next);
    }
  }

  lemma {:induction false} HolePrefixed(g: Go, next: string)
    ensures Prefixed(['{'] + ShowGo(g, ['}'] + next), 2 + GoSize(g), next)
    decreases g, 1
  {
    hide Prefixed;
    var t := ShowGo(g, ['}'] + next);
    One('{', t);
    GoPrefixed(g, ['}'] + next);
    One('}', next);
    Chain(t, GoSize(g), ['}'] + next, 1, next);
    Chain(['{'] + t, 1, t, GoSize(g) + 1, next);
  }

  lemma {:induction false} NodePrefixed(n: Node, next: string)
    ensures Prefixed(ShowNode(n, next), NodeSize(n), next)
    decreases n
  {
    hide Prefixed;
    match n {
      case Prose(c) => One(c, next);
      case ProseHole(go) => HolePrefixed(go, next);
      case Child(element) => ElementPrefixed(element, next);
    }
  }

  lemma {:induction false} NodesPrefixed(n: Nodes, next: string)
    ensures Prefixed(ShowNodes(n, next), NodesSize(n), next)
    decreases n
  {
    hide Prefixed, ShowNode, NodeSize;
    match n {
      case NoNodes => Many("", next); assert "" + next == next;
      case Nodes(node, rest) =>
        NodePrefixed(node, ShowNodes(rest, next));
        NodesPrefixed(rest, next);
        Chain(ShowNodes(n, next), NodeSize(node), ShowNodes(rest, next), NodesSize(rest), next);
    }
  }

  lemma {:induction false} GoPrefixed(g: Go, next: string)
    ensures Prefixed(ShowGo(g, next), GoSize(g), next)
    decreases g, 0
  {
    hide Prefixed;
    match g {
      case Tail(code) => Many(code.text, next);
      case Embed(code, span, rest) =>
        var more := ShowGo(rest, next);
        Many(code.text, ShowSpan(span, more));
        SpanPrefixed(span, more);
        GoPrefixed(rest, next);
        Chain(ShowSpan(span, more), SpanSize(span), more, GoSize(rest), next);
        Chain(ShowGo(g, next), |code.text|, ShowSpan(span, more), SpanSize(span) + GoSize(rest), next);
    }
  }

  lemma {:induction false} SpanPrefixed(x: Span, next: string)
    ensures Prefixed(ShowSpan(x, next), SpanSize(x), next)
    decreases x
  {
    hide Prefixed;
    match x {
      case Markup(element) => ElementPrefixed(element, next);
      case Literal(delim, segments) =>
        var t := ShowSegments(segments, [delim] + next);
        One(delim, t);
        SegmentsPrefixed(segments, [delim] + next);
        One(delim, next);
        Chain(t, SegmentsSize(segments), [delim] + next, 1, next);
        Chain([delim] + t, 1, t, SegmentsSize(segments) + 1, next);
    }
  }

  lemma {:induction false} SegmentsPrefixed(g: Segments, next: string)
    ensures Prefixed(ShowSegments(g, next), SegmentsSize(g), next)
    decreases g
  {
    hide Prefixed;
    match g {
      case Done => Many("", next); assert "" + next == next;
      case Segs(part, rest) =>
        SegmentPrefixed(part, ShowSegments(rest, next));
        SegmentsPrefixed(rest, next);
        Chain(ShowSegments(g, next), SegmentSize(part), ShowSegments(rest, next), SegmentsSize(rest), next);
    }
  }

  lemma {:induction false} SegmentPrefixed(p: Segment, next: string)
    ensures Prefixed(ShowSegment(p, next), SegmentSize(p), next)
    decreases p
  {
    hide Prefixed;
    match p {
      case Ch(c) => One(c, next);
      case Esc(c) =>
        One('\\', [c] + next);
        One(c, next);
        Chain(ShowSegment(p, next), 1, [c] + next, 1, next);
      case LiteralHole(go) =>
        HolePrefixed(go, next);
        One('@', ['{'] + ShowGo(go, ['}'] + next));
        Chain(ShowSegment(p, next), 1, ['{'] + ShowGo(go, ['}'] + next), 2 + GoSize(go), next);
    }
  }

  /** What follows a printed text stands behind it. */
  lemma {:induction false} AtRest(s: Source, i: nat, t: string, n: nat, next: string)
    requires At(s, i, t) && Prefixed(t, n, next)
    ensures i + n <= |s.text| && At(s, i + n, next)
  {
    assert s.text[i..][n..] == s.text[i + n..];
  }

  // ----- tags -----

  lemma {:induction false} QuoteEnds(s: Source, i: nat, mark: char, content: string, next: string)
    requires mark !in content && At(s, i, content + ([mark] + next))
    ensures i + |content| + 1 <= |s.text| && AttrEnd(s, i, mark) == i + |content| + 1 && At(s, i + |content| + 1, next)
    decreases |content|
  {
    if content == "" {
      assert content + ([mark] + next) == [mark] + next;
      AtCons(s, i, mark, next);
    } else {
      assert content + ([mark] + next) == [content[0]] + (content[1..] + ([mark] + next));
      AtCons(s, i, content[0], content[1..] + ([mark] + next));
      QuoteEnds(s, i + 1, mark, content[1..], next);
    }
  }

  /** Every tag ends at its own '>', whatever its quoted values and holes contain. */
  lemma {:induction false} TagCloses(s: Source, i: nat, t: Inside, next: string)
    requires s.TokenizerOk() && InsideOk(t) && InsideReads(s, i, t) && At(s, i, ShowInside(t, ['>'] + next))
    ensures TagClose(s, i) == Some(i + InsideSize(t)) && At(s, i + InsideSize(t), ['>'] + next)
    decreases t, 0
  {
    hide TagClose, GoEnd, AttrEnd, HoleReads, HoleOk, ByteLoop.At, ShowGo, GoSize;
    match t {
      case NoParts =>
        AtCons(s, i, '>', next);
        OneChar(s, i);
      case Parts(part, more) =>
        PartPassed(s, i, part, ShowInside(more, ['>'] + next));
        TagCloses(s, i + PartSize(part), more, next);
    }
  }

  lemma {:induction false} OneChar(s: Source, j: nat)
    requires j < |s.text| && s.TokenizerOk()
    ensures TagClose(s, j) ==
      if s.text[j] == '"' || s.text[j] == '\'' then TagClose(s, AttrEnd(s, j + 1, s.text[j]))
      else if s.text[j] == '{' then match GoEnd(s, j + 1) case None => None case Some(close) => TagClose(s, close + 1)
      else if s.text[j] == '>' then Some(j) else TagClose(s, j + 1)
  {
    hide GoEnd;
  }

  lemma {:induction false} PartPassed(s: Source, i: nat, p: Part, next: string)
    requires s.TokenizerOk() && PartOk(p) && (p.AttrHole? ==> HoleReads(s, i + 1, p.go)) && At(s, i, ShowPart(p, next))
    ensures i + PartSize(p) <= |s.text| && TagClose(s, i) == TagClose(s, i + PartSize(p)) && At(s, i + PartSize(p), next)
    decreases p
  {
    hide TagClose, GoEnd, AttrEnd, HoleReads, HoleOk, ByteLoop.At, ShowGo, GoSize;
    match p {
      case Plain(c) =>
        AtCons(s, i, c, next);
        OneChar(s, i);
      case Quoted(mark, content) =>
        AtCons(s, i, mark, content + ([mark] + next));
        QuoteEnds(s, i + 1, mark, content, next);
        OneChar(s, i);
      case AttrHole(go) =>
        AtCons(s, i, '{', ShowGo(go, ['}'] + next));
        HoleCloses(s, i + 1, go, next);
        OneChar(s, i);
    }
  }

  /** Whether a tag ends in a slash. */
  lemma {:induction false} LastOfTag(s: Source, i: nat, t: Inside, next: string)
    requires i > 0 && At(s, i, ShowInside(t, next)) && InsideOk(t) && i + InsideSize(t) <= |s.text|
    ensures s.text[i + InsideSize(t) - 1] == '/' <==> if t.NoParts? then s.text[i - 1] == '/' else EndsInSlash(t)
    decreases t
  {
    hide ByteLoop.At;
    if t.Parts? {
      PartAt(s, i, t.part, ShowInside(t.more, next));
      LastOfTag(s, i + PartSize(t.part), t.more, next);
    }
  }

  lemma {:induction false} PartAt(s: Source, i: nat, p: Part, next: string)
    requires At(s, i, ShowPart(p, next)) && PartOk(p)
    ensures i + PartSize(p) <= |s.text| && At(s, i + PartSize(p), next)
    ensures s.text[i + PartSize(p) - 1] == '/' <==> p == Plain('/')
  {
    hide ByteLoop.At, ShowGo, GoSize;
    match p {
      case Plain(c) => AtCons(s, i, c, next);
      case Quoted(mark, content) =>
        AtCons(s, i, mark, content + ([mark] + next));
        ByteLoop.AtConcat(s, i + 1, content, [mark] + next);
        AtCons(s, i + 1 + |content|, mark, next);
      case AttrHole(go) =>
        AtCons(s, i, '{', ShowGo(go, ['}'] + next));
        GoPrefixed(go, ['}'] + next);
        AtRest(s, i + 1, ShowGo(go, ['}'] + next), GoSize(go), ['}'] + next);
        AtCons(s, i + 1 + GoSize(go), '}', next);
    }
  }

  // ----- the bracket depth in a hole -----

  /** No brace among the tokens brings the depth to 0. */
  ghost predicate NoClose(toks: seq<Token>, depth: int) {
    forall j :: 0 <= j < |toks| ==> !(toks[j].kind == RightBrace && DepthOf(toks, j, depth) == 1)
  }

  /** The code of a hole does not close it, and ends at the depth of its brace. */
  ghost predicate DepthsOk(g: Go, depth: int) {
    && NoClose(g.code.toks, depth)
    && match g
       case Tail(code) => DepthOf(code.toks, |code.toks|, depth) == 1
       case Embed(code, _, rest) => DepthsOk(rest, DepthOf(code.toks, |code.toks|, depth))
  }

  lemma {:induction false} DepthConcat(x: seq<Token>, y: seq<Token>, k: nat, depth: int)
    requires k <= |y|
    ensures DepthOf(x + y, |x| + k, depth) == DepthOf(y, k, DepthOf(x, |x|, depth))
  {
    if k == 0 {
      DepthPrefix(x, y, |x|, depth);
    } else {
      DepthConcat(x, y, k - 1, depth);
      assert (x + y)[|x| + k - 1] == y[k - 1];
    }
  }

  lemma {:induction false} DepthPrefix(x: seq<Token>, y: seq<Token>, k: nat, depth: int)
    requires k <= |x|
    ensures DepthOf(x + y, k, depth) == DepthOf(x, k, depth)
  {
    if k > 0 {
      DepthPrefix(x, y, k - 1, depth);
      assert (x + y)[k - 1] == x[k - 1];
    }
  }

  lemma {:induction false} DepthCons(tok: Token, y: seq<Token>, k: nat, depth: int)
    requires k <= |y|
    ensures DepthOf([tok] + y, k + 1, depth) == DepthOf(y, k, depth + Turn(tok.kind))
  {
    DepthConcat([tok], y, k, depth);
    assert DepthOf([tok], 1, depth) == DepthOf([tok], 0, depth) + Turn(tok.kind);
  }

  /** Matching brackets never take the depth below where it was, and leave it there. */
  lemma {:induction false} NestDepth(n: Nest, k: nat, depth: int)
    requires NestOk(n) && k <= |Flat(n)|
    ensures DepthOf(Flat(n), k, depth) >= depth && (k == |Flat(n)| ==> DepthOf(Flat(n), k, depth) == depth)
    decreases n
  {
    hide DepthOf;
    NoDepth(Flat(n), depth);
    match n {
      case Empty =>
      case Leaf(tok, rest) =>
        if k > 0 {
          DepthCons(tok, Flat(rest), k - 1, depth);
          NestDepth(rest, k - 1, depth);
        }
      case Group(open, inner, close, rest) =>
        var a, b := Flat(inner), Flat(rest);
        if k > 0 {
          DepthCons(open, a + ([close] + b), k - 1, depth);
          GroupDepth(a, close, b, k - 1, depth + 1);
          if k - 1 <= |a| {
            NestDepth(inner, k - 1, depth + 1);
          } else {
            NestDepth(inner, |a|, depth + 1);
            NestDepth(rest, k - 2 - |a|, depth);
          }
        }
    }
  }

  lemma {:induction false} NoDepth(toks: seq<Token>, depth: int)
    ensures DepthOf(toks, 0, depth) == depth
  {}

  lemma {:induction false} GroupDepth(a: seq<Token>, close: Token, b: seq<Token>, k: nat, depth: int)
    requires k <= |a| + 1 + |b| && IsCloser(close.kind)
    ensures DepthOf(a + ([close] + b), k, depth)
      == if k <= |a| then DepthOf(a, k, depth) else DepthOf(b, k - 1 - |a|, DepthOf(a, |a|, depth) - 1)
  {
    hide DepthOf;
    if k <= |a| {
      DepthPrefix(a, [close] + b, k, depth);
    } else {
      DepthConcat(a, [close] + b, k - |a|, depth);
      DepthCons(close, b, k - |a| - 1, DepthOf(a, |a|, depth));
    }
  }

  lemma {:induction false} HoleDepths(g: Go)
    requires HoleOk(g)
    ensures GoOk(g, true) && DepthsOk(g, 1)
  {
    hide GoOk, DepthOf;
    var n :| NestOk(n) && Flat(n) == AllToks(g);
    forall k: nat | k <= |AllToks(g)|
      ensures DepthOf(AllToks(g), k, 1) >= 1
    {
      NestDepth(n, k, 1);
    }
    NestDepth(n, |AllToks(g)|, 1);
    NoDepth(AllToks(g), 1);
    assert [] + AllToks(g) == AllToks(g);
    RestDepths(g, [], AllToks(g));
  }

  lemma {:induction false} RestDepths(g: Go, before: seq<Token>, all: seq<Token>)
    requires all == before + AllToks(g) && DepthOf(all, |all|, 1) == 1
    requires forall k: nat :: k <= |all| ==> DepthOf(all, k, 1) >= 1
    ensures DepthsOk(g, DepthOf(all, |before|, 1))
    decreases g
  {
    hide DepthOf, AllToks;
    var toks, depth := g.code.toks, DepthOf(all, |before|, 1);
    FirstToks(g);
    assert all[|before|..] == AllToks(g) && all[|before|..|before| + |toks|] == toks;
    forall k: nat | k <= |toks|
      ensures DepthOf(toks, k, depth) == DepthOf(all, |before| + k, 1)
    {
      SliceDepth(all, |before|, toks, k);
    }
    forall j: nat | j < |toks|
      ensures !(toks[j].kind == RightBrace && DepthOf(toks, j, depth) == 1)
    {
      OneDepth(toks, j, depth);
      assert DepthOf(toks, j + 1, depth) == DepthOf(all, |before| + (j + 1), 1) >= 1;
    }
    if g.Embed? {
      assert all == (before + toks) + AllToks(g.rest);
      RestDepths(g.rest, before + toks, all);
    } else {
      assert |all| == |before| + |toks|;
    }
  }

  lemma {:induction false} FirstToks(g: Go)
    ensures AllToks(g) == g.code.toks + (if g.Embed? then AllToks(g.rest) else [])
  {
    assert g.code.toks + [] == g.code.toks;
  }

  lemma {:induction false} OneDepth(toks: seq<Token>, j: nat, depth: int)
    requires j < |toks|
    ensures DepthOf(toks, j + 1, depth) == DepthOf(toks, j, depth) + Turn(toks[j].kind)
  {}

  lemma {:induction false} SliceDepth(all: seq<Token>, n: nat, toks: seq<Token>, k: nat)
    requires k <= |toks| && n + |toks| <= |all| && all[n..n + |toks|] == toks
    ensures DepthOf(toks, k, DepthOf(all, n, 1)) == DepthOf(all, n + k, 1)
  {
    if k > 0 {
      SliceDepth(all, n, toks, k - 1);
      assert all[n + (k - 1)] == all[n..n + |toks|][k - 1];
    }
  }

  // ----- holes -----

  /** A hole is closed by its own brace. */
  lemma {:induction false} HoleCloses(s: Source, i: nat, g: Go, next: string)
    requires s.TokenizerOk() && HoleOk(g) && HoleReads(s, i, g) && At(s, i, ShowGo(g, ['}'] + next)) && Fresh(s, i)
    ensures GoEnd(s, i) == Some(i + GoSize(g)) && At(s, i + GoSize(g) + 1, next)
    decreases g, 1
  {
    hide CloseAt, Source.CloseFrom, GoReads, GoOk, ShowGo, GoSize, ByteLoop.At, ByteLoop.BodyAt;
    GoPrefixed(g, ['}'] + next);
    AtRest(s, i, ShowGo(g, ['}'] + next), GoSize(g), ['}'] + next);
    AtCons(s, i + GoSize(g), '}', next);
    if s.Fast(i) {
      var b :| ByteLoop.BodyAt(s, i, b) && ByteLoop.Length(b) == GoSize(g);
      ByteLoop.BodyScanned(s, i, b, 1);
      ByteLoop.CloseStep(s, i + GoSize(g), 1);
    } else {
      HoleDepths(g);
      GoCloses(s, i, g, 1, true, next);
    }
  }

  /** Tokens that neither start a span nor close the hole are passed. */
  lemma {:induction false} CodePassed(s: Source, i: nat, code: Code, next: Token, k: nat, depth: int, expects: bool)
    requires s.TokenizerOk() && TokensAt(s, i, code, next) && Quiet(s, i, code.toks, expects) && NoClose(code.toks, depth) && k <= |code.toks|
    requires i < |s.text|
    ensures k <= |s.tokens(i)|
    ensures CloseAt(s, i, 0, depth, expects) == CloseAt(s, i, k, DepthOf(code.toks, k, depth), ExpectsOf(code.toks, k, expects))
  {
    hide CloseAt, StartsSpan, Quiet, NoClose, TokensAt;
    if k > 0 {
      CodePassed(s, i, code, next, k - 1, depth, expects);
      QuietToken(s, i, code, next, k - 1, depth, expects);
      OneStep(s, i, k - 1, DepthOf(code.toks, k - 1, depth), ExpectsOf(code.toks, k - 1, expects));
    }
  }

  lemma {:induction false} QuietToken(s: Source, i: nat, code: Code, next: Token, k: nat, depth: int, expects: bool)
    requires TokensAt(s, i, code, next) && Quiet(s, i, code.toks, expects) && NoClose(code.toks, depth) && k < |code.toks|
    ensures i < |s.text| && k < |s.tokens(i)| && s.tokens(i)[k].kind == code.toks[k].kind
    ensures !StartsSpan(s, s.tokens(i)[k], ExpectsOf(code.toks, k, expects))
    ensures !(code.toks[k].kind == RightBrace && DepthOf(code.toks, k, depth) == 1)
  {
    hide StartsSpan;
    assert s.tokens(i)[k] == Shifted(code.toks[k], i);
  }

  lemma {:induction false} GoCloses(s: Source, i: nat, g: Go, depth: int, expects: bool, next: string)
    requires s.TokenizerOk() && GoOk(g, expects) && GoReads(s, i, g) && DepthsOk(g, depth) && At(s, i, ShowGo(g, ['}'] + next))
    requires Fresh(s, i)
    ensures CloseAt(s, i, 0, depth, expects) == Some(i + GoSize(g))
    decreases g, 0
  {
    hide CloseAt, StartsSpan, ByteLoop.At, Quiet, NoClose, SpanReads, SpanOk, TokensAt, SpanEnd, CodeOk, Opens, Fresh, ExpectsOf, Awaits;
    var toks, n, off := g.code.toks, |g.code.toks|, i + |g.code.text|;
    NextIs(s, i, g);
    CodeIsQuiet(s, i, g, expects, ['}'] + next);
    CodePassed(s, i, g.code, s.tokens(i)[n], n, depth, expects);
    OneStep(s, i, n, DepthOf(toks, n, depth), ExpectsOf(toks, n, expects));
    match g {
      case Tail(_) =>
        BraceStartsNothing(s, off, ExpectsOf(toks, n, expects));
      case Embed(code, span, rest) =>
        var more := ShowGo(rest, ['}'] + next);
        Many(code.text, ShowSpan(span, more));
        AtRest(s, i, ShowGo(g, ['}'] + next), |code.text|, ShowSpan(span, more));
        SpanStarts(s, i, code, span, expects, more);
        SpanPassed(s, off, span, more);
        GoPrefixed(rest, ['}'] + next);
        NotAtEnd(s, off + SpanSize(span), more);
        AfterSpan(s, off, span, more);
        GoCloses(s, off + SpanSize(span), rest, DepthOf(toks, n, depth), false, next);
    }
  }

  /** No language prefix ends right before i. */
  predicate Fresh(s: Source, i: nat) { 0 < i <= |s.text| ==> s.text[i - 1] != 'f' && s.text[i - 1] != 's' }

  /** No token of the code of a stretch starts a span. */
  lemma {:induction false} CodeIsQuiet(s: Source, i: nat, g: Go, first: bool, next: string)
    requires GoOk(g, first) && Fresh(s, i) && At(s, i, ShowGo(g, next))
    ensures Quiet(s, i, g.code.toks, first)
  {
    hide ByteLoop.At, SpanOk, ShowSpan, IsCloser;
    var code, rest := g.code, if g.Tail? then next else ShowSpan(g.span, ShowGo(g.rest, next));
    assert At(s, i, code.text + rest);
    forall j | 0 <= j < |code.toks|
      ensures !StartsSpan(s, Shifted(code.toks[j], i), ExpectsOf(code.toks, j, first))
    {
      ExpectsIs(code.toks, j, first);
      var tok := code.toks[j];
      if tok.kind.String? {
        if tok.off > 0 {
          CharAt(s, i, code.text, rest, tok.off - 1);
        }
        NotPrefixed(s, i + tok.off);
      }
    }
  }

  lemma {:induction false} ExpectsIs(toks: seq<Token>, k: nat, first: bool)
    requires k <= |toks|
    ensures ExpectsOf(toks, k, first) == Awaits(toks, k, first)
  {}

  lemma {:induction false} CharAt(s: Source, i: nat, x: string, next: string, k: nat)
    requires At(s, i, x + next) && k < |x|
    ensures i + k < |s.text| && s.text[i + k] == x[k]
  {
    assert (x + next)[k] == x[k];
  }

  lemma {:induction false} NotPrefixed(s: Source, off: nat)
    requires Fresh(s, off)
    ensures off < |s.text| ==> LangPrefixStart(s, off).None?
  {}

  /** An embedded element or literal starts a span. */
  lemma {:induction false} SpanStarts(s: Source, i: nat, code: Code, x: Span, first: bool, next: string)
    requires At(s, i, code.text + ShowSpan(x, next)) && SpanOk(x) && Opens(s, i, code, x)
    requires x.Markup? ==> Awaits(code.toks, |code.toks|, first)
    ensures StartsSpan(s, SpanToken(x, i + |code.text|), ExpectsOf(code.toks, |code.toks|, first))
  {
    hide ByteLoop.At, Awaits, ExpectsOf;
    var off := i + |code.text|;
    ExpectsIs(code.toks, |code.toks|, first);
    AtRest(s, i, code.text + ShowSpan(x, next), |code.text|, ShowSpan(x, next));
    match x {
      case Markup(element) =>
        ElementBegins(s, off, element, next);
      case Literal(delim, segments) =>
        AtCons(s, off, delim, ShowSegments(segments, [delim] + next));
        forall k | 0 <= k < |code.text|
          ensures s.text[i + k] == code.text[k]
        {
          CharAt(s, i, code.text, ShowSpan(x, next), k);
        }
        PrefixStarts(s, i, code, "f");
        PrefixStarts(s, i, code, "js");
        PrefixStarts(s, i, code, "css");
    }
  }

  lemma {:induction false} PrefixStarts(s: Source, i: nat, code: Code, prefix: string)
    requires i + |code.text| < |s.text| && (forall k :: 0 <= k < |code.text| ==> s.text[i + k] == code.text[k])
    requires prefix == "f" || prefix == "js" || prefix == "css"
    ensures EndsIn(s, i, code, prefix) ==> LangPrefixStart(s, i + |code.text|).Some?
  {
    hide LangPrefixStart, Source.Boundary;
    if EndsIn(s, i, code, prefix) {
      var delim, m := i + |code.text|, |prefix|;
      forall k | 0 <= k < m
        ensures s.text[delim - m + k] == prefix[k]
      {
        assert code.text[|code.text| - m..][k] == prefix[k];
        assert s.text[i + (|code.text| - m + k)] == code.text[|code.text| - m + k];
      }
      PrefixFound(s, delim, prefix);
    }
  }

  lemma {:induction false} PrefixFound(s: Source, delim: nat, prefix: string)
    requires prefix == "f" || prefix == "js" || prefix == "css"
    requires |prefix| <= delim < |s.text| && s.Boundary(delim - |prefix|)
    requires forall k :: 0 <= k < |prefix| ==> s.text[delim - |prefix| + k] == prefix[k]
    ensures LangPrefixStart(s, delim).Some?
  {
    hide Source.Boundary;
    var m := |prefix|;
    assert s.text[delim - m + 0] == prefix[0] && s.text[delim - m + (m - 1)] == prefix[m - 1];
    if m == 3 {
      assert s.text[delim - m + 1] == prefix[1];
    }
  }

  lemma {:induction false} ElementBegins(s: Source, i: nat, e: Element, next: string)
    requires At(s, i, Show(e, next)) && Opens(s, i, Code([], []), Markup(e))
    ensures BeginsTag(s, i + 1)
  {
    hide ByteLoop.At, ShowNodes;
    match e {
      case Void(tag) =>
        TagBegins(s, i, tag, next);
      case Pair(open, kids, close) =>
        TagBegins(s, i, open, ShowNodes(kids, ['<'] + ShowInside(close, ['>'] + next)));
    }
  }

  lemma {:induction false} TagBegins(s: Source, i: nat, tag: Inside, next: string)
    requires At(s, i, ['<'] + ShowInside(tag, ['>'] + next)) && (tag.NoParts? || HasName(s, tag))
    ensures BeginsTag(s, i + 1)
  {
    hide ByteLoop.At;
    AtCons(s, i, '<', ShowInside(tag, ['>'] + next));
    if tag.Parts? {
      AtCons(s, i + 1, tag.part.c, ShowInside(tag.more, ['>'] + next));
    } else {
      AtCons(s, i + 1, '>', next);
    }
  }

  lemma {:induction false} NotAtEnd(s: Source, i: nat, t: string)
    requires At(s, i, t) && t != []
    ensures i < |s.text|
  {
    assert t == [t[0]] + t[1..];
    AtCons(s, i, t[0], t[1..]);
  }

  /** What comes after a span does not come after a prefix. */
  lemma {:induction false} AfterSpan(s: Source, off: nat, x: Span, next: string)
    requires s.TokenizerOk() && SpanOk(x) && off < |s.text| && (x.Markup? ==> s.text[off] == '<') && At(s, off, ShowSpan(x, next))
    requires SpanEnd(s, SpanToken(x, off)) == off + SpanSize(x) < |s.text|
    ensures Fresh(s, off + SpanSize(x))
  {
    hide ByteLoop.At, SpanEnd;
    if x.Literal? {
      AtCons(s, off, x.delim, ShowSegments(x.segments, [x.delim] + next));
    }
  }

  lemma {:induction false} NextIs(s: Source, i: nat, g: Go)
    requires if g.Tail? then TokensAt(s, i, g.code, Token(RightBrace, i + |g.code.text|))
             else TokensAt(s, i, g.code, SpanToken(g.span, i + |g.code.text|))
    ensures i < |s.text| && |g.code.toks| < |s.tokens(i)|
    ensures s.tokens(i)[|g.code.toks|]
      == if g.Tail? then Token(RightBrace, i + |g.code.text|) else SpanToken(g.span, i + |g.code.text|)
    ensures TokensAt(s, i, g.code, s.tokens(i)[|g.code.toks|])
  {}

  lemma {:induction false} BraceStartsNothing(s: Source, off: nat, expects: bool)
    ensures !StartsSpan(s, Token(RightBrace, off), expects)
  {}

  // ----- embedded elements and literals -----

  lemma {:induction false} SpanPassed(s: Source, off: nat, x: Span, next: string)
    requires s.TokenizerOk() && SpanOk(x) && SpanReads(s, off, x) && At(s, off, ShowSpan(x, next))
    ensures off < |s.text| && (x.Markup? ==> s.text[off] == '<')
    ensures SpanEnd(s, SpanToken(x, off)) == off + SpanSize(x) && At(s, off + SpanSize(x), next)
    decreases x
  {
    hide ByteLoop.At, EndFrom, LiteralEndAt, ElementReads, ElementOk, SegmentsReads;
    match x {
      case Markup(element) =>
        ElementStarts(s, off, element, next);
        ElementPassed(s, off, element, 0, next);
      case Literal(delim, segments) =>
        AtCons(s, off, delim, ShowSegments(segments, [delim] + next));
        NotEscaped(s, off);
        LiteralEnds(s, off + 1, segments, delim, next);
    }
  }

  lemma {:induction false} NotEscaped(s: Source, i: nat)
    requires i < |s.text| && s.text[i] != '\\'
    ensures !s.Escaped(i + 1)
  {}

  lemma {:induction false} ElementStarts(s: Source, i: nat, e: Element, next: string)
    requires At(s, i, Show(e, next))
    ensures i < |s.text| && s.text[i] == '<'
  {
    var t := Show(e, next)[1..];
    assert Show(e, next) == ['<'] + t;
    AtCons(s, i, '<', t);
  }

  /** A literal ends at its own delimiter: none that is escaped or in a hole is taken for it. */
  lemma {:induction false} LiteralEnds(s: Source, i: nat, g: Segments, delim: char, next: string)
    requires s.TokenizerOk() && (delim == '"' || delim == '`') && SegmentsOk(g, delim) && SegmentsReads(s, i, g)
    requires i <= |s.text| && !s.Escaped(i) && At(s, i, ShowSegments(g, [delim] + next))
    ensures LiteralEndAt(s, i, delim) == i + SegmentsSize(g) + 1 && At(s, i + SegmentsSize(g) + 1, next)
    decreases g, 1
  {
    hide LiteralEndAt, Source.Escaped, ByteLoop.At, HoleReads, SegmentOk, ShowSegment, SegmentSize;
    match g {
      case Done =>
        AtCons(s, i, delim, next);
        OneInLiteral(s, i, delim);
      case Segs(part, rest) =>
        SegmentPassed(s, i, g, delim, next);
        LiteralEnds(s, i + SegmentSize(part), rest, delim, next);
    }
  }

  lemma {:induction false} OneInLiteral(s: Source, i: nat, delim: char)
    requires i < |s.text| && s.TokenizerOk()
    ensures LiteralEndAt(s, i, delim) ==
      if s.text[i] == delim && !s.Escaped(i) then i + 1
      else if s.HoleAt(i) then match GoEnd(s, i + 2) case None => |s.text| case Some(close) => LiteralEndAt(s, close + 1, delim)
      else LiteralEndAt(s, i + 1, delim)
  {
    hide GoEnd, Source.Escaped;
  }

  lemma {:induction false} SegmentPassed(s: Source, i: nat, g: Segments, delim: char, next: string)
    requires s.TokenizerOk() && (delim == '"' || delim == '`') && g.Segs?
    requires SegmentOk(g.part, ShowSegments(g.rest, [delim]), delim) && (g.part.LiteralHole? ==> HoleReads(s, i + 2, g.part.go))
    requires i <= |s.text| && !s.Escaped(i) && At(s, i, ShowSegments(g, [delim] + next))
    ensures var j := i + SegmentSize(g.part);
      && j <= |s.text| && !s.Escaped(j) && LiteralEndAt(s, i, delim) == LiteralEndAt(s, j, delim)
      && At(s, j, ShowSegments(g.rest, [delim] + next))
    decreases g, 0
  {
    hide LiteralEndAt, ByteLoop.At, HoleReads, GoEnd, HoleOk, ShowGo, GoSize;
    var more := ShowSegments(g.rest, [delim] + next);
    match g.part {
      case Ch(c) =>
        AtCons(s, i, c, more);
        OneInLiteral(s, i, delim);
        NotEscaped(s, i);
        FirstIs(s, i + 1, g.rest, delim, next);
      case Esc(c) =>
        AtCons(s, i, '\\', [c] + more);
        AtCons(s, i + 1, c, more);
        OneInLiteral(s, i, delim);
        OneInLiteral(s, i + 1, delim);
        BackslashEscapes(s, i);
      case LiteralHole(go) =>
        AtCons(s, i, '@', ['{'] + ShowGo(go, ['}'] + more));
        AtCons(s, i + 1, '{', ShowGo(go, ['}'] + more));
        OneInLiteral(s, i, delim);
        HoleCloses(s, i + 2, go, more);
        NotEscaped(s, i + 2 + GoSize(go));
    }
  }

  lemma {:induction false} BackslashEscapes(s: Source, i: nat)
    requires i + 1 < |s.text| && s.text[i] == '\\' && !s.Escaped(i)
    ensures s.Escaped(i + 1) && !s.Escaped(i + 2)
  {
    assert s.Backslashes(i + 1) == s.Backslashes(i) + 1;
  }

  /** What the rest of a literal begins with does not depend on what follows the literal. */
  lemma {:induction false} FirstIs(s: Source, i: nat, g: Segments, delim: char, next: string)
    requires At(s, i, ShowSegments(g, [delim] + next)) && delim != '{'
    ensures i < |s.text| && (s.text[i] == '{' ==> ['{'] <= ShowSegments(g, [delim]))
  {
    hide ByteLoop.At, ShowGo;
    match g {
      case Done => AtCons(s, i, delim, next);
      case Segs(part, rest) =>
        var more := ShowSegments(rest, [delim] + next);
        assert ShowSegments(g, [delim] + next) == ShowSegment(part, more);
        match part {
          case Ch(c) => AtCons(s, i, c, more);
          case Esc(c) => AtCons(s, i, '\\', [c] + more);
          case LiteralHole(go) => AtCons(s, i, '@', ['{'] + ShowGo(go, ['}'] + more));
        }
    }
  }

  // ----- elements -----

  /** The walk from the text at i. */
  ghost function AfterText(s: Source, i: nat, depth: int): nat
    requires i <= |s.text| && s.TokenizerOk()
  {
    EndFrom(s, NextTag(s, i), depth)
  }

  /** The walk passes an element at the depth it had, and ends behind an outermost one. */
  lemma {:induction false} ElementPassed(s: Source, i: nat, e: Element, depth: nat, next: string)
    requires s.TokenizerOk() && ElementOk(e) && ElementReads(s, i, e) && At(s, i, Show(e, next))
    ensures i < |s.text| && s.text[i] == '<' && i + Size(e) <= |s.text| && At(s, i + Size(e), next)
    ensures EndFrom(s, i, depth) == if depth == 0 then i + Size(e) else AfterText(s, i + Size(e), depth)
    decreases e
  {
    hide EndFrom, NextTag, TagClose, ByteLoop.At, InsideOk, InsideReads, NodesOk, NodesReads, ShowInside, ShowNodes, EndsInSlash;
    match e {
      case Void(tag) =>
        AtCons(s, i, '<', ShowInside(tag, ['>'] + next));
        TagCloses(s, i + 1, tag, next);
        AtCons(s, i + 1 + InsideSize(tag), '>', next);
        LastOfTag(s, i + 1, tag, ['>'] + next);
        FirstOfTag(s, i, tag, next);
        NoPartsNoSize(tag);
        OneTag(s, i, depth);
      case Pair(open, kids, close) =>
        var shut := ['<'] + ShowInside(close, ['>'] + next);
        var k := i + 2 + InsideSize(open);
        OpenPassed(s, i, open, ShowNodes(kids, shut), depth);
        NodesPassed(s, k, kids, depth + 1, shut);
        ClosePassed(s, k + NodesSize(kids), close, depth, next);
    }
  }

  lemma {:induction false} FirstOfTag(s: Source, i: nat, t: Inside, next: string)
    requires i < |s.text| && At(s, i + 1, ShowInside(t, ['>'] + next)) && InsideOk(t)
    ensures Closing(s, i) <==> StartsWithSlash(t)
  {
    hide ByteLoop.At, ShowGo;
    match t {
      case NoParts => AtCons(s, i + 1, '>', next);
      case Parts(part, more) =>
        var u := ShowInside(more, ['>'] + next);
        match part {
          case Plain(c) => AtCons(s, i + 1, c, u);
          case Quoted(mark, content) => AtCons(s, i + 1, mark, content + ([mark] + u));
          case AttrHole(go) => AtCons(s, i + 1, '{', ShowGo(go, ['}'] + u));
        }
    }
  }

  lemma {:induction false} OpenPassed(s: Source, i: nat, open: Inside, next: string, depth: nat)
    requires s.TokenizerOk() && InsideOk(open) && !StartsWithSlash(open) && !EndsInSlash(open)
    requires InsideReads(s, i + 1, open) && At(s, i, ['<'] + ShowInside(open, ['>'] + next))
    ensures var j := i + 2 + InsideSize(open);
      && i < |s.text| && s.text[i] == '<' && j <= |s.text| && At(s, j, next) && EndFrom(s, i, depth) == AfterText(s, j, depth + 1)
    decreases open, 1
  {
    hide EndFrom, NextTag, TagClose, ByteLoop.At, InsideOk, InsideReads, ShowInside, EndsInSlash;
    AtCons(s, i, '<', ShowInside(open, ['>'] + next));
    TagCloses(s, i + 1, open, next);
    AtCons(s, i + 1 + InsideSize(open), '>', next);
    LastOfTag(s, i + 1, open, ['>'] + next);
    FirstOfTag(s, i, open, next);
    OneTag(s, i, depth);
    NoPartsNoSize(open);
  }

  lemma {:induction false} NoPartsNoSize(t: Inside)
    ensures t.NoParts? ==> InsideSize(t) == 0 && !EndsInSlash(t)
  {}

  lemma {:induction false} ClosePassed(s: Source, i: nat, close: Inside, depth: nat, next: string)
    requires s.TokenizerOk() && InsideOk(close) && StartsWithSlash(close)
    requires InsideReads(s, i + 1, close) && At(s, i, ['<'] + ShowInside(close, ['>'] + next))
    ensures var j := i + 2 + InsideSize(close);
      && i < |s.text| && s.text[i] == '<' && j <= |s.text| && At(s, j, next)
      && AfterText(s, i, depth + 1) == if depth == 0 then j else AfterText(s, j, depth)
    decreases close, 1
  {
    hide EndFrom, NextTag, TagClose, ByteLoop.At, InsideOk, InsideReads, ShowInside;
    AtCons(s, i, '<', ShowInside(close, ['>'] + next));
    TagCloses(s, i + 1, close, next);
    AtCons(s, i + 1 + InsideSize(close), '>', next);
    FirstOfTag(s, i, close, next);
    OneText(s, i);
    OneTag(s, i, depth + 1);
  }

  /** The walk passes what stands between two tags. */
  lemma {:induction false} NodesPassed(s: Source, i: nat, n: Nodes, depth: nat, next: string)
    requires s.TokenizerOk() && NodesOk(n) && NodesReads(s, i, n) && depth > 0 && i <= |s.text| && At(s, i, ShowNodes(n, next))
    ensures i + NodesSize(n) <= |s.text| && At(s, i + NodesSize(n), next)
    ensures AfterText(s, i, depth) == AfterText(s, i + NodesSize(n), depth)
    decreases n
  {
    hide AfterText, ByteLoop.At, NodeOk, NodeReads, ShowNode, NodeSize;
    if n.Nodes? {
      NodePassed(s, i, n.node, depth, ShowNodes(n.rest, next));
      NodesPassed(s, i + NodeSize(n.node), n.rest, depth, next);
    }
  }

  lemma {:induction false} NodePassed(s: Source, i: nat, n: Node, depth: nat, next: string)
    requires s.TokenizerOk() && NodeOk(n) && NodeReads(s, i, n) && depth > 0 && i <= |s.text| && At(s, i, ShowNode(n, next))
    ensures i + NodeSize(n) <= |s.text| && At(s, i + NodeSize(n), next)
    ensures AfterText(s, i, depth) == AfterText(s, i + NodeSize(n), depth)
    decreases n
  {
    hide EndFrom, NextTag, GoEnd, ByteLoop.At, HoleReads, HoleOk, ShowGo, GoSize, ElementOk, ElementReads, Show;
    match n {
      case Prose(c) =>
        AtCons(s, i, c, next);
        OneText(s, i);
      case ProseHole(go) =>
        AtCons(s, i, '{', ShowGo(go, ['}'] + next));
        HoleCloses(s, i + 1, go, next);
        OneText(s, i);
      case Child(element) =>
        ElementPassed(s, i, element, depth, next);
        OneText(s, i);
    }
  }

  /** Every well-formed element, printed after any text and before any text, is skipped as a whole: elementSpanEnd
      finds its own end. */
  lemma {:induction false} ElementIsDelimited(s: Source, before: string, e: Element, after: string)
    requires s.TokenizerOk() && s.text == before + Show(e, after)
    requires ElementOk(e) && ElementReads(s, |before|, e)
    ensures |before| < |s.text| && s.text[|before|] == '<' && ElementEnd(s, |before|) == |before| + Size(e)
    ensures s.text[|before| + Size(e)..] == after
  {
    hide EndFrom, NextTag, ElementOk, ElementReads, Show, Size;
    assert s.text[|before|..] == Show(e, after);
    ElementPassed(s, |before|, e, 0, after);
  }

  /** And every hole with embedded elements and literals is closed by its own brace. */
  lemma {:induction false} HoleIsDelimited(s: Source, before: string, g: Go, after: string)
    requires s.TokenizerOk() && s.text == before + (['{'] + ShowGo(g, ['}'] + after))
    requires HoleOk(g) && HoleReads(s, |before| + 1, g)
    ensures GoEnd(s, |before| + 1) == Some(|before| + 1 + GoSize(g))
  {
    hide GoEnd, HoleOk, HoleReads, ShowGo, GoSize;
    assert s.text[|before| + 1..] == ShowGo(g, ['}'] + after);
    HoleCloses(s, |before| + 1, g, after);
  }

  /** An element of one letter, with what is in it. */
  function Letter(c: char, kids: Nodes): Element {
    Pair(Parts(Plain(c), NoParts), kids, Parts(Plain('/'), Parts(Plain(c), NoParts)))
  }

  lemma {:induction false} OnePlain(s: Source, i: nat, c: char, more: Inside, next: string)
    ensures var t := Parts(Plain(c), more);
      && ShowInside(t, next) == [c] + ShowInside(more, next) && InsideSize(t) == 1 + InsideSize(more)
      && (c != '"' && c != '\'' && c != '{' && c != '>' ==> InsideOk(t) == InsideOk(more))
      && InsideReads(s, i, t) == InsideReads(s, i + 1, more)
    ensures ShowInside(NoParts, next) == next && InsideSize(NoParts) == 0 && InsideOk(NoParts) && InsideReads(s, i, NoParts)
  {}

  lemma {:induction false} LetterIsFine(s: Source, i: nat, c: char, kids: Nodes, next: string)
    requires 'a' <= c <= 'z' && NodesOk(kids) && NodesReads(s, i + 3, kids)
    ensures ElementOk(Letter(c, kids)) && ElementReads(s, i, Letter(c, kids)) && Size(Letter(c, kids)) == 7 + NodesSize(kids)
    ensures Show(Letter(c, kids), next) == ['<', c, '>'] + ShowNodes(kids, ['<', '/', c, '>'] + next)
  {
    hide ShowNodes, NodesSize, NodesOk, NodesReads, ShowInside, InsideSize, InsideOk, InsideReads;
    var name := Parts(Plain(c), NoParts);
    var j, inner := i + 4 + NodesSize(kids), ShowNodes(kids, ['<', '/', c, '>'] + next);
    OnePlain(s, i + 1, c, NoParts, ['>'] + inner);
    OnePlain(s, i + 2, c, NoParts, ['>'] + inner);
    OnePlain(s, j, '/', name, ['>'] + next);
    OnePlain(s, j + 1, c, NoParts, ['>'] + next);
    OnePlain(s, j + 2, c, NoParts, ['>'] + next);
    assert ['<'] + (['/'] + ([c] + (['>'] + next))) == ['<', '/', c, '>'] + next;
    assert ['<'] + ([c] + (['>'] + inner)) == ['<', c, '>'] + inner;
  }

  /** An element ends at its own closing tag, not at that of its first child. */
  lemma {:induction false} ChildDoesNotClose(s: Source)
    requires s.TokenizerOk() && s.text == "<a><b></b>x</a>"
    ensures ElementEnd(s, 0) == 15
  {
    hide ElementEnd, Show, Size, ElementOk, ElementReads, Letter, Source.TokenizerOk;
    var x := Nodes.Nodes(Prose('x'), NoNodes);
    var child := Letter('b', NoNodes);
    var kids := Nodes.Nodes(Child(child), x);
    LetterIsFine(s, 3, 'b', NoNodes, "x</a>");
    XIsFine(s, 10, x);
    LetterIsFine(s, 0, 'a', kids, "");
    assert ['<', '/', 'a', '>'] + "" == "</a>" && ShowNodes(kids, "</a>") == Show(child, "x</a>");
    assert ShowNodes(NoNodes, ['<', '/', 'b', '>'] + "x</a>") == "</b>x</a>";
    assert Show(Letter('a', kids), "") == s.text;
    assert [] + s.text == s.text;
    ElementIsDelimited(s, "", Letter('a', kids), "");
  }

  lemma {:induction false} XIsFine(s: Source, i: nat, x: Nodes)
    requires x == Nodes.Nodes(Prose('x'), NoNodes)
    ensures NodesOk(x) && NodesReads(s, i, x) && NodesSize(x) == 1 && ShowNodes(x, "</a>") == "x</a>"
  {}
}

/** The bodies of interpolation holes that goExprEnd is meant to delimit, as a grammar of their
    own: print any of them between braces and the scanner finds exactly the closing brace. */
module HoleGrammar {
  import opened SourceText
  import opened Options

  /** A hole body is a list of pieces. */
  datatype Body = End | Piece(first: Item, rest: Body)

  datatype Item =
    | Plain(c: char)
    | Group(open: char, inner: Body, close: char)
    | Quoted(mark: char, content: string)
    | LineComment(comment: string)
    | BlockComment(comment: string)
    | Literal(prefix: Prefix, segments: Segments)

  datatype Prefix = F | Js | Css

  /** The inside of a prefixed literal f"…", js"…" or css"…". */
  datatype Segments = Done | Part(part: Segment, more: Segments)

  datatype Segment = Ch(c: char) | Esc(c: char) | Hole(inner: Body)

  // ----- the text of a body -----

  function PrefixText(p: Prefix): string {
    match p case F => ['f'] case Js => ['j', 's'] case Css => ['c', 's', 's']
  }

  function Text(b: Body): string {
    match b case End => [] case Piece(first, rest) => ItemText(first) + Text(rest)
  }

  function ItemText(t: Item): string {
    match t
    case Plain(c) => [c]
    case Group(open, inner, close) => [open] + (Text(inner) + [close])
    case Quoted(mark, content) => [mark] + (content + [mark])
    case LineComment(comment) => ['/'] + (['/'] + (comment + ['\n']))
    case BlockComment(comment) => ['/'] + (['*'] + (comment + ['*', '/']))
    case Literal(prefix, segments) => PrefixText(prefix) + (['"'] + (SegmentsText(segments) + ['"']))
  }

  function SegmentsText(g: Segments): string {
    match g case Done => [] case Part(part, more) => SegmentText(part) + SegmentsText(more)
  }

  function SegmentText(p: Segment): string {
    match p
    case Ch(c) => [c]
    case Esc(c) => ['\\'] + [c]
    case Hole(inner) => ['@'] + (['{'] + (Text(inner) + ['}']))
  }

  // ----- which bodies are well formed -----

  predicate IsOpen(c: char) { c == '{' || c == '(' || c == '[' }

  predicate IsClose(c: char) { c == '}' || c == ')' || c == ']' }

  predicate IsQuote(c: char) { c == '"' || c == '\'' || c == '`' }

  /** The content of a Go string or rune: escapes, and no bare mark. */
  predicate ContentOk(content: string, mark: char) {
    content == ""
    || (content[0] == '\\' && |content| >= 2 && ContentOk(content[2..], mark))
    || (content[0] != '\\' && content[0] != mark && ContentOk(content[1..], mark))
  }

  predicate NoNewline(t: string) { forall k :: 0 <= k < |t| ==> t[k] != '\n' }

  predicate NoBlockEnd(t: string) { forall k :: 0 <= k < |t| - 1 ==> !(t[k] == '*' && t[k + 1] == '/') }

  function LastChar(t: Item): char {
    match t
    case Plain(c) => c
    case Group(_, _, close) => close
    case Quoted(mark, _) => mark
    case LineComment(_) => '\n'
    case BlockComment(_) => '/'
    case Literal(_, _) => '"'
  }

  /** The body is well formed after character prev and before the text next. */
  predicate BodyOk(b: Body, prev: char, next: string, s: Source) {
    match b
    case End => true
    case Piece(first, rest) => ItemOk(first, prev, Text(rest) + next, s) && BodyOk(rest, LastChar(first), next, s)
  }

  /** The piece is what it says: no plain character is mistaken for the start of a comment or of
      a literal, and a literal stands at an identifier boundary. */
  predicate ItemOk(t: Item, prev: char, next: string, s: Source) {
    match t
    case Plain(c) =>
      && !IsOpen(c) && !IsClose(c) && !IsQuote(c)
      && (c == '/' ==> !(['/'] <= next) && !(['*'] <= next))
      && (s.IdentContinue(prev) || PrefixBefore([c] + next, 0, '"') == 0)
    case Group(open, inner, close) => IsOpen(open) && IsClose(close) && BodyOk(inner, open, [close] + next, s)
    case Quoted(mark, content) => (mark == '"' || mark == '\'') && ContentOk(content, mark)
    case LineComment(comment) => NoNewline(comment)
    case BlockComment(comment) => NoBlockEnd(comment)
    case Literal(_, segments) => !s.IdentContinue(prev) && SegmentsOk(segments, ['"'] + next, s)
  }

  predicate SegmentsOk(g: Segments, next: string, s: Source) {
    match g
    case Done => true
    case Part(part, more) => SegmentOk(part, SegmentsText(more) + next, s) && SegmentsOk(more, next, s)
  }

  predicate SegmentOk(p: Segment, next: string, s: Source) {
    match p
    case Ch(c) => c != '\\' && c != '"' && (c == '@' ==> !(['{'] <= next))
    case Esc(_) => true
    case Hole(inner) => BodyOk(inner, '{', ['}'] + next, s)
  }

  // ----- texts at a position -----

  /** The text t stands at position i. */
  predicate At(s: Source, i: nat, t: string) { i <= |s.text| && s.text[i..] == t }

  lemma {:induction false} AtCons(s: Source, i: nat, c: char, t: string)
    requires At(s, i, [c] + t)
    ensures i < |s.text| && s.text[i] == c && At(s, i + 1, t)
  {
    assert s.text[i..][0] == c && s.text[i..][1..] == t;
  }

  lemma {:induction false} AtConcat(s: Source, i: nat, t: string, u: string)
    requires At(s, i, t + u)
    ensures At(s, i + |t|, u)
  {
    assert s.text[i..][|t|..] == u;
  }

  lemma {:induction false} AtConcatAt(s: Source, i: nat, t: string, u: string, k: nat)
    requires At(s, i, t + u) && k < |t|
    ensures i + k < |s.text| && s.text[i + k] == t[k]
  {
    assert s.text[i..][k] == t[k];
  }

  // ----- quoted strings and comments -----

  lemma {:induction false} StringCloses(s: Source, i: nat, content: string, mark: char, next: string)
    requires mark != '\\' && ContentOk(content, mark) && At(s, i, content + ([mark] + next))
    ensures s.StringEnd(i, mark) == i + |content| + 1
    decreases |content|
  {
    if |content| == 0 {
      assert content + ([mark] + next) == [mark] + next;
      AtCons(s, i, mark, next);
    } else {
      var t := content[1..] + ([mark] + next);
      assert content + ([mark] + next) == [content[0]] + t;
      AtCons(s, i, content[0], t);
      if content[0] == '\\' {
        var u := content[2..] + ([mark] + next);
        assert t == [content[1]] + u;
        AtCons(s, i + 1, content[1], u);
        StringCloses(s, i + 2, content[2..], mark, next);
      } else {
        StringCloses(s, i + 1, content[1..], mark, next);
      }
    }
  }

  lemma {:induction false} LineCloses(s: Source, i: nat, comment: string, next: string)
    requires NoNewline(comment) && At(s, i, comment + (['\n'] + next))
    ensures s.LineEnd(i) == i + |comment|
    decreases |comment|
  {
    if |comment| == 0 {
      assert comment + (['\n'] + next) == ['\n'] + next;
      AtCons(s, i, '\n', next);
    } else {
      var t := comment[1..] + (['\n'] + next);
      assert comment + (['\n'] + next) == [comment[0]] + t;
      AtCons(s, i, comment[0], t);
      LineCloses(s, i + 1, comment[1..], next);
    }
  }

  lemma {:induction false} BlockCloses(s: Source, i: nat, comment: string, next: string)
    requires NoBlockEnd(comment) && At(s, i, comment + (['*', '/'] + next))
    ensures s.BlockEnd(i) == i + |comment| + 2
    decreases |comment|
  {
    if |comment| == 0 {
      assert comment + (['*', '/'] + next) == ['*'] + (['/'] + next);
      AtCons(s, i, '*', ['/'] + next);
      AtCons(s, i + 1, '/', next);
    } else {
      var t := comment[1..] + (['*', '/'] + next);
      assert comment + (['*', '/'] + next) == [comment[0]] + t;
      AtCons(s, i, comment[0], t);
      var d := if |comment| > 1 then comment[1] else '*';
      assert t == [d] + t[1..];
      AtCons(s, i + 1, d, t[1..]);
      NoBlockEndTail(comment);
      BlockCloses(s, i + 1, comment[1..], next);
    }
  }

  lemma {:induction false} NoBlockEndTail(comment: string)
    requires |comment| > 0 && NoBlockEnd(comment)
    ensures NoBlockEnd(comment[1..])
    ensures |comment| > 1 ==> !(comment[0] == '*' && comment[1] == '/')
  {}

  // ----- where a printed body stands -----

  function Length(b: Body): nat {
    match b case End => 0 case Piece(first, rest) => ItemLength(first) + Length(rest)
  }

  function ItemLength(t: Item): nat {
    match t
    case Plain(_) => 1
    case Group(_, inner, _) => 2 + Length(inner)
    case Quoted(_, content) => 2 + |content|
    case LineComment(comment) => 3 + |comment|
    case BlockComment(comment) => 4 + |comment|
    case Literal(prefix, segments) => 2 + |PrefixText(prefix)| + SegmentsLength(segments)
  }

  function SegmentsLength(g: Segments): nat {
    match g case Done => 0 case Part(part, more) => SegmentLength(part) + SegmentsLength(more)
  }

  function SegmentLength(p: Segment): nat {
    match p case Ch(_) => 1 case Esc(_) => 2 case Hole(inner) => 3 + Length(inner)
  }

  /** The body b stands at position i of the source, each of its pieces where it belongs. */
  ghost predicate BodyAt(s: Source, i: nat, b: Body)
    decreases b
  {
    match b
    case End => i <= |s.text|
    case Piece(first, rest) => ItemAt(s, i, first) && BodyAt(s, i + ItemLength(first), rest)
  }

  ghost predicate ItemAt(s: Source, i: nat, t: Item)
    decreases t
  {
    && i + ItemLength(t) <= |s.text|
    && match t {
         case Plain(c) =>
           && s.text[i] == c && !IsOpen(c) && !IsClose(c) && !IsQuote(c)
           && (c == '/' && i + 1 < |s.text| ==> s.text[i + 1] != '/' && s.text[i + 1] != '*')
           && s.OpeningAt(i) == 0
         case Group(open, inner, close) =>
           && IsOpen(open) && IsClose(close)
           && s.text[i] == open && s.text[i + 1 + Length(inner)] == close && BodyAt(s, i + 1, inner)
         case Quoted(mark, content) =>
           (mark == '"' || mark == '\'') && s.text[i] == mark && s.StringEnd(i + 1, mark) == i + 2 + |content|
         case LineComment(comment) =>
           && s.text[i] == '/' && s.text[i + 1] == '/' && s.text[i + 2 + |comment|] == '\n'
           && s.LineEnd(i + 2) == i + 2 + |comment|
         case BlockComment(comment) =>
           s.text[i] == '/' && s.text[i + 1] == '*' && s.BlockEnd(i + 2) == i + 4 + |comment|
         case Literal(prefix, segments) =>
           var j := i + 1 + |PrefixText(prefix)|;
           && s.OpeningAt(i) == j - i && s.text[j - 1] == '"'
           && SegmentsAt(s, j, segments) && s.text[j + SegmentsLength(segments)] == '"'
       }
  }

  ghost predicate SegmentsAt(s: Source, i: nat, g: Segments)
    decreases g
  {
    match g
    case Done => i <= |s.text|
    case Part(part, more) => SegmentAt(s, i, part) && SegmentsAt(s, i + SegmentLength(part), more)
  }

  ghost predicate SegmentAt(s: Source, i: nat, p: Segment)
    decreases p
  {
    && i + SegmentLength(p) <= |s.text|
    && match p {
         case Ch(c) =>
           s.text[i] == c && c != '\\' && c != '"' && (c == '@' && i + 1 < |s.text| ==> s.text[i + 1] != '{')
         case Esc(c) => s.text[i] == '\\' && s.text[i + 1] == c
         case Hole(inner) =>
           && s.text[i] == '@' && s.text[i + 1] == '{' && s.text[i + 2 + Length(inner)] == '}'
           && BodyAt(s, i + 2, inner)
       }
  }

  // ----- scanning a body where it stands -----

  /** Scanning a well-formed body takes the scanner past it at the depth it started with. */
  lemma {:induction false} BodyScanned(s: Source, i: nat, b: Body, depth: int)
    requires BodyAt(s, i, b) && depth >= 1
    ensures i + Length(b) <= |s.text| && s.CloseFrom(i, depth) == s.CloseFrom(i + Length(b), depth)
    decreases b
  {
    hide Source.CloseFrom;
    if b.Piece? {
      ItemScanned(s, i, b.first, depth);
      BodyScanned(s, i + ItemLength(b.first), b.rest, depth);
    }
  }

  lemma {:induction false} ItemScanned(s: Source, i: nat, t: Item, depth: int)
    requires ItemAt(s, i, t) && depth >= 1
    ensures s.CloseFrom(i, depth) == s.CloseFrom(i + ItemLength(t), depth)
    decreases t
  {
    hide Source.CloseFrom;
    match t {
      case Plain(c) =>
        PlainStep(s, i, depth);
      case Group(_, _, _) =>
        GroupScanned(s, i, t, depth);
      case Quoted(_, content) =>
        QuotedJump(s, i, i + 2 + |content|, depth);
      case LineComment(comment) =>
        QuotedJump(s, i, i + 2 + |comment|, depth);
        PlainStep(s, i + 2 + |comment|, depth);
      case BlockComment(comment) =>
        QuotedJump(s, i, i + 4 + |comment|, depth);
      case Literal(_, _) =>
        LiteralScanned(s, i, t, depth);
    }
  }

  lemma {:induction false} GroupScanned(s: Source, i: nat, t: Item, depth: int)
    requires t.Group? && ItemAt(s, i, t) && depth >= 1
    ensures s.CloseFrom(i, depth) == s.CloseFrom(i + ItemLength(t), depth)
    decreases t, 0
  {
    hide Source.CloseFrom, Source.OpeningAt, BodyAt, Length;
    OpenStep(s, i, depth);
    BodyScanned(s, i + 1, t.inner, depth + 1);
    CloseStep(s, i + 1 + Length(t.inner), depth + 1);
  }

  lemma {:induction false} LiteralScanned(s: Source, i: nat, t: Item, depth: int)
    requires t.Literal? && ItemAt(s, i, t)
    ensures s.CloseFrom(i, depth) == s.CloseFrom(i + ItemLength(t), depth)
    decreases t, 0
  {
    hide Source.CloseFrom, Source.BodyEnd, SegmentsAt, ItemAt;
    var j := i + 1 + |PrefixText(t.prefix)|;
    LiteralStarts(s, i, t);
    SegmentsScanned(s, j, t.segments);
    LiteralJump(s, i, j + 1 + SegmentsLength(t.segments), depth);
  }

  lemma {:induction false} LiteralStarts(s: Source, i: nat, t: Item)
    requires t.Literal? && ItemAt(s, i, t)
    ensures var j := i + 1 + |PrefixText(t.prefix)|;
      && j + SegmentsLength(t.segments) + 1 == i + ItemLength(t) <= |s.text|
      && s.text[j + SegmentsLength(t.segments)] == '"' && SegmentsAt(s, j, t.segments) && !s.Escaped(j)
      && s.LiteralEnd(i) == Some(s.BodyEnd(j, '"'))
  {
    hide Source.CloseFrom, Source.BodyEnd, Source.OpeningAt, SegmentsAt, SegmentsLength, PrefixText;
    assert s.Backslashes(i + 1 + |PrefixText(t.prefix)|) == 0;
  }

  lemma {:induction false} PlainStep(s: Source, i: nat, depth: int)
    requires i < |s.text| && s.OpeningAt(i) == 0 && s.QuotedEnd(i) == None
    requires !IsOpen(s.text[i]) && !IsClose(s.text[i])
    ensures s.CloseFrom(i, depth) == s.CloseFrom(i + 1, depth)
  {}

  lemma {:induction false} OpenStep(s: Source, i: nat, depth: int)
    requires i < |s.text| && IsOpen(s.text[i])
    ensures s.CloseFrom(i, depth) == s.CloseFrom(i + 1, depth + 1)
  {}

  lemma {:induction false} CloseStep(s: Source, i: nat, depth: int)
    requires i < |s.text| && IsClose(s.text[i])
    ensures s.CloseFrom(i, depth) == if depth == 1 && s.text[i] == '}' then Some(i) else s.CloseFrom(i + 1, depth - 1)
  {}

  /** A quote or a comment opener starts no literal: the scan jumps to its end. */
  lemma {:induction false} QuotedJump(s: Source, i: nat, end: nat, depth: int)
    requires i < |s.text| && s.QuotedEnd(i) == Some(end)
    ensures s.CloseFrom(i, depth) == s.CloseFrom(end, depth)
  {
    assert s.OpeningAt(i) == 0;
  }

  lemma {:induction false} LiteralJump(s: Source, i: nat, end: nat, depth: int)
    requires i < |s.text| && s.LiteralEnd(i) == Some(end)
    ensures s.CloseFrom(i, depth) == s.CloseFrom(end, depth)
  {}

  /** Scanning the inside of a well-formed literal ends just past its own closing quote: no
      delimiter behind a backslash or inside a hole is taken for it. */
  lemma {:induction false} SegmentsScanned(s: Source, i: nat, g: Segments)
    requires SegmentsAt(s, i, g) && i <= |s.text| && !s.Escaped(i)
    requires i + SegmentsLength(g) < |s.text| && s.text[i + SegmentsLength(g)] == '"'
    ensures s.BodyEnd(i, '"') == i + SegmentsLength(g) + 1
    decreases g
  {
    hide Source.CloseFrom, Source.BodyEnd, SegmentAt, BodyAt;
    match g {
      case Done =>
        QuoteStep(s, i);
      case Part(part, more) =>
        SegmentAtFits(s, i, part);
        SegmentScanned(s, i, part);
        SegmentsScanned(s, i + SegmentLength(part), more);
    }
  }

  lemma {:induction false} QuoteStep(s: Source, i: nat)
    requires i < |s.text| && s.text[i] == '"' && !s.Escaped(i)
    ensures s.BodyEnd(i, '"') == i + 1
  {}

  lemma {:induction false} SegmentAtFits(s: Source, i: nat, p: Segment)
    requires SegmentAt(s, i, p)
    ensures i + SegmentLength(p) <= |s.text|
  {}

  lemma {:induction false} SegmentScanned(s: Source, i: nat, p: Segment)
    requires SegmentAt(s, i, p) && !s.Escaped(i)
    ensures s.BodyEnd(i, '"') == s.BodyEnd(i + SegmentLength(p), '"') && !s.Escaped(i + SegmentLength(p))
    decreases p
  {
    hide Source.CloseFrom, Source.BodyEnd, BodyAt;
    match p {
      case Ch(_) =>
        ChStep(s, i);
      case Esc(_) =>
        EscStep(s, i);
      case Hole(inner) =>
        BodyScanned(s, i + 2, inner, 1);
        CloseStep(s, i + 2 + Length(inner), 1);
        HoleStep(s, i, i + 2 + Length(inner));
    }
  }

  lemma {:induction false} ChStep(s: Source, i: nat)
    requires i < |s.text| && s.text[i] != '\\' && s.text[i] != '"' && !s.HoleAt(i)
    ensures s.BodyEnd(i, '"') == s.BodyEnd(i + 1, '"') && !s.Escaped(i + 1)
  {}

  lemma {:induction false} EscStep(s: Source, i: nat)
    requires i + 1 < |s.text| && s.text[i] == '\\' && !s.Escaped(i)
    ensures s.BodyEnd(i, '"') == s.BodyEnd(i + 2, '"') && !s.Escaped(i + 2)
  {
    assert s.Backslashes(i + 1) == s.Backslashes(i) + 1;
    assert s.BodyEnd(i, '"') == s.BodyEnd(i + 1, '"');
  }

  lemma {:induction false} HoleStep(s: Source, i: nat, k: nat)
    requires i + 2 <= k < |s.text| && s.HoleAt(i) && s.CloseFrom(i + 2, 1) == Some(k)
    ensures s.BodyEnd(i, '"') == s.BodyEnd(k + 1, '"') && !s.Escaped(k + 1)
  {}

  // ----- a printed body stands where it was printed -----

  lemma {:induction false} TextLength(b: Body)
    ensures |Text(b)| == Length(b)
    decreases b
  {
    if b.Piece? {
      ItemTextLength(b.first);
      TextLength(b.rest);
    }
  }

  lemma {:induction false} ItemTextLength(t: Item)
    ensures |ItemText(t)| == ItemLength(t)
    decreases t
  {
    if t.Group? {
      TextLength(t.inner);
    } else if t.Literal? {
      SegmentsTextLength(t.segments);
    }
  }

  lemma {:induction false} SegmentsTextLength(g: Segments)
    ensures |SegmentsText(g)| == SegmentsLength(g)
    decreases g
  {
    if g.Part? {
      if g.part.Hole? {
        TextLength(g.part.inner);
      }
      SegmentsTextLength(g.more);
    }
  }

  /** A well-formed body that was printed at i stands there. */
  lemma {:induction false} BodyPlaced(s: Source, i: nat, b: Body, next: string)
    requires i > 0 && At(s, i, Text(b) + next) && s.Fast(i) && BodyOk(b, s.text[i - 1], next, s)
    ensures BodyAt(s, i, b) && At(s, i + Length(b), next)
    decreases b
  {
    hide ItemAt, ItemOk, ItemText, ItemLength;
    match b {
      case End =>
        assert Text(b) + next == next;
      case Piece(first, rest) =>
        assert Text(b) + next == ItemText(first) + (Text(rest) + next);
        ItemPlaced(s, i, first, Text(rest) + next);
        BodyPlaced(s, i + ItemLength(first), rest, next);
    }
  }

  lemma {:induction false} ItemPlaced(s: Source, i: nat, t: Item, next: string)
    requires i > 0 && At(s, i, ItemText(t) + next) && s.Fast(i) && ItemOk(t, s.text[i - 1], next, s)
    ensures ItemAt(s, i, t) && At(s, i + ItemLength(t), next) && s.text[i + ItemLength(t) - 1] == LastChar(t)
    decreases t
  {
    hide BodyAt, BodyOk, SegmentsAt, SegmentsLength, SegmentsText, PrefixText, Length, Source.Fast, Source.OpeningAt, At;
    match t {
      case Plain(c) =>
        PlainPlaced(s, i, c, next);
      case Group(_, _, _) =>
        GroupPlaced(s, i, t, next);
      case Quoted(mark, content) =>
        QuotedPlaced(s, i, mark, content, next);
      case LineComment(comment) =>
        LinePlaced(s, i, comment, next);
      case BlockComment(comment) =>
        BlockPlaced(s, i, comment, next);
      case Literal(_, _) =>
        LiteralPlaced(s, i, t, next);
    }
  }

  lemma {:induction false} GroupPlaced(s: Source, i: nat, t: Item, next: string)
    requires t.Group? && i > 0 && At(s, i, ItemText(t) + next) && s.Fast(i) && ItemOk(t, s.text[i - 1], next, s)
    ensures ItemAt(s, i, t) && At(s, i + ItemLength(t), next) && s.text[i + ItemLength(t) - 1] == LastChar(t)
    decreases t, 0
  {
    assert ItemText(t) + next == [t.open] + (Text(t.inner) + ([t.close] + next));
    AtCons(s, i, t.open, Text(t.inner) + ([t.close] + next));
    BodyPlaced(s, i + 1, t.inner, [t.close] + next);
    AtCons(s, i + 1 + Length(t.inner), t.close, next);
  }

  lemma {:induction false} LiteralPlaced(s: Source, i: nat, t: Item, next: string)
    requires t.Literal? && i > 0 && At(s, i, ItemText(t) + next) && s.Fast(i) && ItemOk(t, s.text[i - 1], next, s)
    ensures ItemAt(s, i, t) && At(s, i + ItemLength(t), next) && s.text[i + ItemLength(t) - 1] == LastChar(t)
    decreases t, 0
  {
    var j := i + 1 + |PrefixText(t.prefix)|;
    LiteralTextSplits(t, next);
    hide PrefixText, ItemText, ItemAt, At, Source.OpeningAt, Source.Fast, SegmentsOk, SegmentsText, SegmentsAt, SegmentsLength;
    LiteralOpens(s, i, t.prefix, SegmentsText(t.segments) + (['"'] + next));
    SegmentsPlaced(s, j, t.segments, ['"'] + next);
    AtCons(s, j + SegmentsLength(t.segments), '"', next);
    LiteralIs(s, i, t);
  }

  lemma {:induction false} LiteralIs(s: Source, i: nat, t: Item)
    requires t.Literal? && i <= |s.text|
    requires var j := i + 1 + |PrefixText(t.prefix)|;
      && j + SegmentsLength(t.segments) < |s.text| && s.OpeningAt(i) == j - i && s.text[j - 1] == '"'
      && SegmentsAt(s, j, t.segments) && s.text[j + SegmentsLength(t.segments)] == '"'
    ensures ItemAt(s, i, t)
  {
    hide PrefixText, SegmentsAt, SegmentsLength, Source.OpeningAt;
  }

  lemma {:induction false} LiteralTextSplits(t: Item, next: string)
    requires t.Literal?
    ensures ItemText(t) + next == PrefixText(t.prefix) + (['"'] + (SegmentsText(t.segments) + (['"'] + next)))
  {}

  lemma {:induction false} QuotedPlaced(s: Source, i: nat, mark: char, content: string, next: string)
    requires At(s, i, ItemText(Quoted(mark, content)) + next)
    requires (mark == '"' || mark == '\'') && ContentOk(content, mark)
    ensures ItemAt(s, i, Quoted(mark, content)) && At(s, i + 2 + |content|, next) && s.text[i + 1 + |content|] == mark
  {
    hide Source.StringEnd;
    assert ItemText(Quoted(mark, content)) + next == [mark] + (content + ([mark] + next));
    AtCons(s, i, mark, content + ([mark] + next));
    StringCloses(s, i + 1, content, mark, next);
    AtConcat(s, i + 1, content, [mark] + next);
    AtCons(s, i + 1 + |content|, mark, next);
  }

  lemma {:induction false} PlainPlaced(s: Source, i: nat, c: char, t: string)
    requires i > 0 && At(s, i, [c] + t) && s.Fast(i)
    requires s.IdentContinue(s.text[i - 1]) || PrefixBefore([c] + t, 0, '"') == 0
    requires c == '/' ==> !(['/'] <= t) && !(['*'] <= t)
    ensures At(s, i + 1, t) && s.text[i] == c && s.OpeningAt(i) == 0
    ensures c == '/' && i + 1 < |s.text| ==> s.text[i + 1] != '/' && s.text[i + 1] != '*'
  {
    AtCons(s, i, c, t);
    var u := [c] + t;
    assert forall k :: 0 <= k < |u| ==> s.text[i..][k] == s.text[i + k] == u[k];
    assert t != "" ==> u[1] == t[0];
  }

  lemma {:induction false} LinePlaced(s: Source, i: nat, comment: string, next: string)
    requires At(s, i, ItemText(LineComment(comment)) + next) && NoNewline(comment)
    ensures ItemAt(s, i, LineComment(comment)) && At(s, i + 3 + |comment|, next)
  {
    hide Source.LineEnd;
    assert ItemText(LineComment(comment)) + next == ['/'] + (['/'] + (comment + (['\n'] + next)));
    AtCons(s, i, '/', ['/'] + (comment + (['\n'] + next)));
    AtCons(s, i + 1, '/', comment + (['\n'] + next));
    LineCloses(s, i + 2, comment, next);
    AtConcat(s, i + 2, comment, ['\n'] + next);
    AtCons(s, i + 2 + |comment|, '\n', next);
  }

  lemma {:induction false} BlockPlaced(s: Source, i: nat, comment: string, next: string)
    requires At(s, i, ItemText(BlockComment(comment)) + next) && NoBlockEnd(comment)
    ensures ItemAt(s, i, BlockComment(comment)) && At(s, i + 4 + |comment|, next)
    ensures s.text[i + 3 + |comment|] == '/'
  {
    hide Source.BlockEnd;
    assert ItemText(BlockComment(comment)) + next == ['/'] + (['*'] + (comment + (['*', '/'] + next)));
    AtCons(s, i, '/', ['*'] + (comment + (['*', '/'] + next)));
    AtCons(s, i + 1, '*', comment + (['*', '/'] + next));
    BlockCloses(s, i + 2, comment, next);
    AtConcat(s, i + 2, comment, ['*', '/'] + next);
    AtConcatAt(s, i + 2 + |comment|, ['*', '/'], next, 1);
    AtConcat(s, i + 2 + |comment|, ['*', '/'], next);
  }

  /** A prefix at an identifier boundary opens a literal. */
  lemma {:induction false} LiteralOpens(s: Source, i: nat, prefix: Prefix, t: string)
    requires At(s, i, PrefixText(prefix) + (['"'] + t)) && s.Boundary(i) && s.Fast(i)
    ensures var j := i + |PrefixText(prefix)|; s.OpeningAt(i) == j + 1 - i && At(s, j + 1, t) && s.text[j] == '"'
  {
    var p := PrefixText(prefix);
    AtConcat(s, i, p, ['"'] + t);
    AtCons(s, i + |p|, '"', t);
    AtConcatAt(s, i, p, ['"'] + t, 0);
    if |p| > 1 {
      AtConcatAt(s, i, p, ['"'] + t, 1);
      AtConcatAt(s, i, p, ['"'] + t, |p| - 1);
    }
  }

  /** The inside of a well-formed literal that was printed at i stands there. */
  lemma {:induction false} SegmentsPlaced(s: Source, i: nat, g: Segments, next: string)
    requires i > 0 && At(s, i, SegmentsText(g) + next) && s.Fast(i)
    requires SegmentsOk(g, next, s) && next != ""
    ensures SegmentsAt(s, i, g) && At(s, i + SegmentsLength(g), next)
    decreases g
  {
    match g {
      case Done =>
        assert SegmentsText(g) + next == next;
      case Part(part, more) =>
        assert SegmentsText(g) + next == SegmentText(part) + (SegmentsText(more) + next);
        SegmentPlaced(s, i, part, SegmentsText(more) + next);
        SegmentsPlaced(s, i + SegmentLength(part), more, next);
    }
  }

  lemma {:induction false} SegmentPlaced(s: Source, i: nat, p: Segment, next: string)
    requires i > 0 && At(s, i, SegmentText(p) + next) && s.Fast(i)
    requires SegmentOk(p, next, s) && next != ""
    ensures SegmentAt(s, i, p) && At(s, i + SegmentLength(p), next)
    decreases p
  {
    hide At, BodyAt, BodyOk, Text;
    match p {
      case Ch(c) =>
        AtCons(s, i, c, next);
        AtFirst(s, i + 1, next);
      case Esc(c) =>
        assert SegmentText(p) + next == ['\\'] + ([c] + next);
        AtCons(s, i, '\\', [c] + next);
        AtCons(s, i + 1, c, next);
      case Hole(inner) =>
        HoleText(inner, next);
        AtCons(s, i, '@', ['{'] + (Text(inner) + (['}'] + next)));
        AtCons(s, i + 1, '{', Text(inner) + (['}'] + next));
        BodyPlaced(s, i + 2, inner, ['}'] + next);
        AtCons(s, i + 2 + Length(inner), '}', next);
    }
  }

  lemma {:induction false} AtFirst(s: Source, i: nat, t: string)
    requires At(s, i, t) && t != ""
    ensures i < |s.text| && s.text[i] == t[0] && (s.text[i] == '{' ==> ['{'] <= t)
  {}

  lemma {:induction false} HoleText(inner: Body, next: string)
    ensures SegmentText(Hole(inner)) + next == ['@'] + (['{'] + (Text(inner) + (['}'] + next)))
  {
    hide Text;
  }

  /** Every well-formed hole body, printed between braces after any text and before any text
      that is free of '<' and backticks, is delimited exactly: goExprEnd finds its own brace. */
  lemma {:induction false} HoleIsDelimited(s: Source, before: string, b: Body, after: string)
    requires s.text == before + (['{'] + (Text(b) + (['}'] + after)))
    requires s.Fast(|before| + 1) && BodyOk(b, '{', ['}'] + after, s)
    ensures s.CloseFrom(|before| + 1, 1) == Some(|before| + 1 + |Text(b)|)
  {
    hide Source.CloseFrom, BodyAt, BodyOk;
    HolePrinted(s, before, b, after);
    TextLength(b);
    BodyScanned(s, |before| + 1, b, 1);
    CloseStep(s, |before| + 1 + Length(b), 1);
  }

  lemma {:induction false} HolePrinted(s: Source, before: string, b: Body, after: string)
    requires s.text == before + (['{'] + (Text(b) + (['}'] + after)))
    requires s.Fast(|before| + 1) && BodyOk(b, '{', ['}'] + after, s)
    ensures BodyAt(s, |before| + 1, b)
    ensures |before| + 1 + Length(b) < |s.text| && s.text[|before| + 1 + Length(b)] == '}'
  {
    var open := |before|;
    assert s.text[0..] == s.text;
    AtConcat(s, 0, before, ['{'] + (Text(b) + (['}'] + after)));
    AtCons(s, open, '{', Text(b) + (['}'] + after));
    BodyPlaced(s, open + 1, b, ['}'] + after);
    AtCons(s, open + 1 + Length(b), '}', after);
  }
}

/** What a quote and a parenthesis protect in a declaration list: the scans of style_merge.go against a
    grammar of strings and groups, nested without limit. */
module DeclarationGrammar {
  import opened Declarations
  import opened StyleMerge
  import opened Text

  /** A text as a list of characters, quoted strings and groups in parentheses. */
  datatype Parts =
    | End
    | Char(c: char, rest: Parts)
    | String(mark: char, content: string, rest: Parts)
    | Group(inside: Parts, rest: Parts)

  predicate IsMark(c: char) { c == '\'' || c == '"' }

  /** Quotes and parentheses only where they open and close something; anything but its own mark in a string. */
  predicate WellFormed(t: Parts) {
    match t
    case End => true
    case Char(c, rest) => !IsMark(c) && c != '(' && c != ')' && WellFormed(rest)
    case String(mark, content, rest) => IsMark(mark) && mark !in content && WellFormed(rest)
    case Group(inside, rest) => WellFormed(inside) && WellFormed(rest)
  }

  function Quoting(mark: char, content: string): string { [mark] + content + [mark] }

  function Grouping(inside: string): string { "(" + inside + ")" }

  function Print(t: Parts): string {
    match t
    case End => ""
    case Char(c, rest) => [c] + Print(rest)
    case String(mark, content, rest) => Quoting(mark, content) + Print(rest)
    case Group(inside, rest) => Grouping(Print(inside)) + Print(rest)
  }

  /** A separator among the characters of the text itself, not in a string or group. */
  predicate HasOutside(t: Parts, sep: char) {
    match t
    case End => false
    case Char(c, rest) => c == sep || HasOutside(rest, sep)
    case String(_, _, rest) => HasOutside(rest, sep)
    case Group(_, rest) => HasOutside(rest, sep)
  }

  /** Puts a text before the first piece. */
  function Before(s: string, ps: seq<string>): seq<string>
    requires ps != []
  {
    [s + ps[0]] + ps[1..]
  }

  /** The text cut at the semicolons outside strings and groups. */
  function CutOutside(t: Parts): (ps: seq<string>)
    ensures ps != []
  {
    match t
    case End => [""]
    case Char(c, rest) => if c == ';' then [""] + CutOutside(rest) else Before([c], CutOutside(rest))
    case String(mark, content, rest) => Before(Quoting(mark, content), CutOutside(rest))
    case Group(inside, rest) => Before(Grouping(Print(inside)), CutOutside(rest))
  }

  // ----- the scan of one string or group -----

  /** No sep of s is met at the top level. */
  predicate NoneAtTop(s: string, st: Lex, sep: char)
    decreases s
  {
    s == [] || (!(s[0] == sep && st == TOP) && NoneAtTop(s[1..], Step(st, s[0]), sep))
  }

  lemma {:induction false} NoBreakIs(s: string, st: Lex)
    ensures NoBreak(s, st) <==> NoneAtTop(s, st, ';')
    decreases s
  {
    if s != [] {
      NoBreakIs(s[1..], Step(st, s[0]));
    }
  }

  lemma {:induction false} NoneConcat(s: string, t: string, st: Lex, sep: char)
    ensures NoneAtTop(s + t, st, sep) <==> NoneAtTop(s, st, sep) && NoneAtTop(t, Run(st, s), sep)
    decreases s
  {
    if s == [] {
      assert s + t == t;
    } else {
      assert (s + t)[1..] == s[1..] + t;
      NoneConcat(s[1..], t, Step(st, s[0]), sep);
    }
  }

  /** The scan comes back to where it was, and has met no separator at the top level. */
  predicate Passed(s: string, st: Lex, sep: char) { Run(st, s) == st && NoneAtTop(s, st, sep) }

  lemma {:induction false} PassedConcat(s: string, t: string, st: Lex, sep: char)
    requires Passed(s, st, sep) && Passed(t, st, sep)
    ensures Passed(s + t, st, sep)
  {
    RunConcat(st, s, t);
    NoneConcat(s, t, st, sep);
  }

  lemma {:induction false} OneChar(c: char, st: Lex, sep: char)
    ensures Run(st, [c]) == Step(st, c) && (NoneAtTop([c], st, sep) <==> !(c == sep && st == TOP))
  {
    assert [c][1..] == [];
  }

  /** Inside a string nothing happens. */
  lemma {:induction false} ContentPassed(content: string, st: Lex, sep: char)
    requires st.quote.Quoted? && st.quote.mark !in content
    ensures Passed(content, st, sep)
    decreases content
  {
    if content != [] {
      assert content[0] in content && content[0] != st.quote.mark;
      ContentPassed(content[1..], st, sep);
    }
  }

  /** A string is passed as a whole, whatever is in it. */
  lemma {:induction false} StringPassed(mark: char, content: string, st: Lex, sep: char)
    requires IsMark(mark) && mark !in content && st.quote == Unquoted && (sep == ';' || sep == ':')
    ensures Passed(Quoting(mark, content), st, sep)
  {
    hide Run, NoneAtTop;
    var within := st.(quote := Quoted(mark));
    OneChar(mark, st, sep);
    ContentPassed(content, within, sep);
    OneChar(mark, within, sep);
    RunConcat(st, [mark], content);
    NoneConcat([mark], content, st, sep);
    RunConcat(st, [mark] + content, [mark]);
    NoneConcat([mark] + content, [mark], st, sep);
  }

  /** A text is passed where it is below the top level, or has no separator outside strings and groups. */
  lemma {:induction false} PartsPassed(t: Parts, st: Lex, sep: char)
    requires WellFormed(t) && st.quote == Unquoted && (sep == ';' || sep == ':')
    requires st.depth > 0 || !HasOutside(t, sep)
    ensures Passed(Print(t), st, sep)
  {
    hide Passed, Quoting, Grouping;
    match t
    case End =>
      NothingPassed(st, sep);
    case Char(c, rest) =>
      PartsPassed(rest, st, sep);
      CharPassed(c, st, sep);
      PassedConcat([c], Print(rest), st, sep);
    case String(mark, content, rest) =>
      PartsPassed(rest, st, sep);
      StringPassed(mark, content, st, sep);
      PassedConcat(Quoting(mark, content), Print(rest), st, sep);
    case Group(inside, rest) =>
      PartsPassed(rest, st, sep);
      PartsPassed(inside, st.(depth := st.depth + 1), sep);
      GroupPassed(Print(inside), st, sep);
      PassedConcat(Grouping(Print(inside)), Print(rest), st, sep);
  }

  lemma {:induction false} NothingPassed(st: Lex, sep: char)
    ensures Passed("", st, sep)
  {}

  lemma {:induction false} CharPassed(c: char, st: Lex, sep: char)
    requires !IsMark(c) && c != '(' && c != ')' && st.quote == Unquoted && (st.depth > 0 || c != sep)
    ensures Passed([c], st, sep)
  {
    OneChar(c, st, sep);
  }

  lemma {:induction false} GroupPassed(inside: string, st: Lex, sep: char)
    requires st.quote == Unquoted && Passed(inside, st.(depth := st.depth + 1), sep) && (sep == ';' || sep == ':')
    ensures Passed(Grouping(inside), st, sep)
  {
    hide Run, NoneAtTop;
    var within := st.(depth := st.depth + 1);
    OneChar('(', st, sep);
    OneChar(')', within, sep);
    assert Grouping(inside) == ['('] + inside + [')'];
    RunConcat(st, ['('], inside);
    NoneConcat(['('], inside, st, sep);
    RunConcat(st, ['('] + inside, [')']);
    NoneConcat(['('] + inside, [')'], st, sep);
  }

  // ----- splitting -----

  /** What is passed goes to the first piece. */
  lemma {:induction false} PiecesAfter(s: string, t: string, st: Lex)
    requires NoBreak(s, st)
    ensures Pieces(s + t, st) == Before(s, Pieces(t, Run(st, s)))
    decreases s
  {
    var ps := Pieces(t, Run(st, s));
    if s == [] {
      assert s + t == t && s + ps[0] == ps[0];
    } else {
      assert s + t == [s[0]] + (s[1..] + t);
      PiecesCons(s[0], s[1..] + t, st);
      PiecesAfter(s[1..], t, Step(st, s[0]));
      assert [s[0]] + (s[1..] + ps[0]) == s + ps[0];
    }
  }

  /** Declarations are separated at exactly the semicolons outside strings and groups. */
  lemma {:induction false} SplitsOutside(t: Parts)
    requires WellFormed(t)
    ensures Pieces(Print(t), TOP) == CutOutside(t)
  {
    hide Quoting, Grouping, Pieces, Before, Run, NoneAtTop;
    match t
    case End =>
      NoPieces();
    case Char(c, rest) =>
      SplitsOutside(rest);
      if c == ';' {
        PiecesCons(c, Print(rest), TOP);
      } else {
        CharPassed(c, TOP, ';');
        PassedFirst([c], Print(rest));
      }
    case String(mark, content, rest) =>
      SplitsOutside(rest);
      StringPassed(mark, content, TOP, ';');
      PassedFirst(Quoting(mark, content), Print(rest));
    case Group(inside, rest) =>
      SplitsOutside(rest);
      PartsPassed(inside, Lex(1, Unquoted), ';');
      GroupPassed(Print(inside), TOP, ';');
      PassedFirst(Grouping(Print(inside)), Print(rest));
  }

  lemma {:induction false} NoPieces()
    ensures Pieces("", TOP) == [""]
  {}

  lemma {:induction false} PassedFirst(s: string, t: string)
    requires Passed(s, TOP, ';')
    ensures Pieces(s + t, TOP) == Before(s, Pieces(t, TOP))
  {
    NoBreakIs(s, TOP);
    PiecesAfter(s, t, TOP);
  }

  // ----- the property -----

  lemma {:induction false} PropAfter(s: string, t: string, st: Lex, cur: string)
    requires NoneAtTop(s, st, ':')
    ensures PropFrom(s + t, st, cur) == PropFrom(t, Run(st, s), cur + s)
    decreases s
  {
    if s == [] {
      assert s + t == t && cur + s == cur;
    } else {
      assert (s + t)[1..] == s[1..] + t;
      PropAfter(s[1..], t, Step(st, s[0]), cur + [s[0]]);
      assert cur + [s[0]] + s[1..] == cur + s;
    }
  }

  /** The property is what comes before the first colon outside strings and groups; without such a colon
      there is none. */
  lemma {:induction false} PropIsBeforeColon(name: Parts, value: string)
    requires WellFormed(name) && !HasOutside(name, ':')
    ensures DeclProp(Print(name) + ":" + value) == PropName(Print(name)) && DeclProp(Print(name)) == ""
  {
    hide PropName, Print, NoneAtTop;
    var s := Print(name);
    PartsPassed(name, TOP, ':');
    assert s + ":" + value == s + (":" + value);
    assert [] + s == s && s + "" == s;
    PropAfter(s, ":" + value, TOP, []);
    PropAfter(s, "", TOP, []);
  }

  /** Two names are the same property when they differ in white space around them or in the case of ASCII
      letters; in the case of letters only if neither is a custom property, which starts with two hyphens. */
  lemma {:induction false} SameProperty(p: string, q: string)
    ensures PropName(p) == PropName(q) <==>
      Trim(p) == Trim(q) || (Lower(Trim(p)) == Lower(Trim(q)) && !("--" <= Trim(p)))
  {
    hide Trim;
    FoldKeepsHyphens(Trim(p));
    FoldKeepsHyphens(Trim(q));
  }

  lemma {:induction false} FoldKeepsHyphens(p: string)
    ensures "--" <= Lower(p) <==> "--" <= p
  {
    if |p| >= 2 {
      assert Lower(p)[..2] == [LowerChar(p[0]), LowerChar(p[1])] && p[..2] == [p[0], p[1]];
    }
  }
}

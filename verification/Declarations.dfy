/** style_merge.go: splitting a CSS declaration list and naming a declaration's property. */
module Declarations {
  import opened Text

  predicate Blank(s: string) { forall i :: 0 <= i < |s| ==> IsSpace(s[i]) }

  /** What the scanners of style_merge.go track: the open quote and the parenthesis depth. */
  datatype Lex = Lex(depth: nat, quote: Quote)

  datatype Quote = Unquoted | Quoted(mark: char)

  const TOP := Lex(0, Unquoted)

  /** One character of the scan; ';' and ':' never change the state. */
  function Step(st: Lex, c: char): Lex {
    if st.quote.Quoted? then (if c == st.quote.mark then st.(quote := Unquoted) else st)
    else if c == '\'' || c == '"' then st.(quote := Quoted(c))
    else if c == '(' then st.(depth := st.depth + 1)
    else if c == ')' && st.depth > 0 then st.(depth := st.depth - 1)
    else st
  }

  function Run(st: Lex, s: string): Lex
    decreases s
  {
    if s == [] then st else Run(Step(st, s[0]), s[1..])
  }

  /** The text closes its quotes and parentheses. */
  predicate Closed(s: string) { Run(TOP, s) == TOP }

  /** Puts a character before the first piece. */
  function Prepend(c: char, ps: seq<string>): (r: seq<string>)
    requires ps != []
    ensures r != []
  {
    [[c] + ps[0]] + ps[1..]
  }

  /** The raw pieces of s between top-level separators, when the scan starts in state st. */
  function Pieces(s: string, st: Lex): (ps: seq<string>)
    ensures ps != []
    decreases s
  {
    if s == [] then [[]]
    else if s[0] == ';' && st == TOP then [[]] + Pieces(s[1..], TOP)
    else Prepend(s[0], Pieces(s[1..], Step(st, s[0])))
  }

  /** The pieces trimmed, without the empty ones. */
  function Trimmed(ps: seq<string>): seq<string> {
    if ps == [] then []
    else (if Trim(ps[0]) == "" then [] else [Trim(ps[0])]) + Trimmed(ps[1..])
  }

  /** splitDecls */
  function Split(s: string): seq<string> { Trimmed(Pieces(s, TOP)) }

  /** No ';' of s, scanned from state st, separates declarations. */
  predicate NoBreak(s: string, st: Lex)
    decreases s
  {
    s == [] || (!(s[0] == ';' && st == TOP) && NoBreak(s[1..], Step(st, s[0])))
  }

  /** A declaration as Split yields it: trimmed, not empty, in one piece. */
  predicate IsDecl(d: string) { d != [] && Trim(d) == d && NoBreak(d, TOP) }

  // ----- trimming -----

  lemma {:induction false} TrimLeftSplits(s: string) returns (blank: string)
    ensures s == blank + TrimLeft(s) && Blank(blank)
    ensures TrimLeft(s) == [] || !IsSpace(TrimLeft(s)[0])
  {
    if s != [] && IsSpace(s[0]) {
      var b := TrimLeftSplits(s[1..]);
      blank := [s[0]] + b;
      assert s == [s[0]] + s[1..];
    } else {
      blank := [];
    }
  }

  lemma {:induction false} TrimRightSplits(s: string) returns (blank: string)
    ensures s == TrimRight(s) + blank && Blank(blank)
    ensures TrimRight(s) == [] || (!IsSpace(TrimRight(s)[|TrimRight(s)| - 1]) && s[0] == TrimRight(s)[0])
  {
    if s != [] && IsSpace(s[|s| - 1]) {
      var b := TrimRightSplits(s[..|s| - 1]);
      blank := b + [s[|s| - 1]];
      assert s == s[..|s| - 1] + [s[|s| - 1]];
    } else {
      blank := [];
    }
  }

  /** Trim cuts white space off both ends and nothing else. */
  lemma {:induction false} TrimSplits(s: string) returns (before: string, after: string)
    ensures s == before + Trim(s) + after && Blank(before) && Blank(after)
    ensures Trim(s) == [] || (!IsSpace(Trim(s)[0]) && !IsSpace(Trim(s)[|Trim(s)| - 1]))
  {
    before := TrimLeftSplits(s);
    after := TrimRightSplits(TrimLeft(s));
  }

  lemma {:induction false} TrimIdempotent(s: string)
    ensures Trim(Trim(s)) == Trim(s)
  {
    var _, _ := TrimSplits(s);
  }

  lemma {:induction false} TrimLeftSpace(c: char, s: string)
    requires IsSpace(c)
    ensures Trim([c] + s) == Trim(s)
  {
    assert ([c] + s)[1..] == s;
  }

  // ----- the scan -----

  lemma {:induction false} RunConcat(st: Lex, s: string, t: string)
    ensures Run(st, s + t) == Run(Run(st, s), t)
    decreases s
  {
    if s == [] {
      assert s + t == t;
    } else {
      assert (s + t)[1..] == s[1..] + t;
      RunConcat(Step(st, s[0]), s[1..], t);
    }
  }

  lemma {:induction false} NoBreakConcat(st: Lex, s: string, t: string)
    ensures NoBreak(s + t, st) <==> NoBreak(s, st) && NoBreak(t, Run(st, s))
    decreases s
  {
    if s == [] {
      assert s + t == t;
    } else {
      assert (s + t)[1..] == s[1..] + t;
      NoBreakConcat(Step(st, s[0]), s[1..], t);
    }
  }

  lemma {:induction false} RunBlank(st: Lex, s: string)
    requires Blank(s) && Reachable(st)
    ensures Run(st, s) == st && NoBreak(s, st)
  {
    if s != [] {
      assert IsSpace(s[0]);
      RunBlank(st, s[1..]);
    }
  }

  /** The states a scan can reach. */
  predicate Reachable(st: Lex) { st.quote.Quoted? ==> st.quote.mark == '\'' || st.quote.mark == '"' }

  lemma {:induction false} RunReachable(st: Lex, s: string)
    requires Reachable(st)
    ensures Reachable(Run(st, s))
    decreases s
  {
    if s != [] {
      RunReachable(Step(st, s[0]), s[1..]);
    }
  }

  /** Trimming a piece changes neither where its scan ends nor whether it is in one piece. */
  lemma {:induction false} TrimScan(s: string)
    ensures Run(TOP, Trim(s)) == Run(TOP, s)
    ensures NoBreak(s, TOP) ==> NoBreak(Trim(s), TOP)
  {
    var before, after := TrimSplits(s);
    var t := Trim(s);
    RunBlank(TOP, before);
    RunConcat(TOP, before, t);
    NoBreakConcat(TOP, before, t);
    RunConcat(TOP, before + t, after);
    NoBreakConcat(TOP, before + t, after);
    RunReachable(TOP, before + t);
    RunBlank(Run(TOP, before + t), after);
  }

  // ----- splitting -----

  /** Joining the raw pieces with ';' gives back the text: nothing is lost or moved. */
  lemma {:induction false} PiecesLossless(s: string, st: Lex)
    ensures JoinWith(Pieces(s, st), ";") == s
    decreases s
  {
    if s != [] {
      if s[0] == ';' && st == TOP {
        PiecesLossless(s[1..], TOP);
        assert Pieces(s, st)[1..] == Pieces(s[1..], TOP);
      } else {
        var ps := Pieces(s[1..], Step(st, s[0]));
        PiecesLossless(s[1..], Step(st, s[0]));
        assert Pieces(s, st)[1..] == ps[1..];
      }
    }
  }

  /** strings.Join */
  function JoinWith(ds: seq<string>, sep: string): string {
    if ds == [] then "" else if |ds| == 1 then ds[0] else ds[0] + sep + JoinWith(ds[1..], sep)
  }

  function Join(ds: seq<string>): string { JoinWith(ds, "; ") }

  lemma {:induction false} PiecesCons(c: char, s: string, st: Lex)
    ensures Pieces([c] + s, st) ==
      if c == ';' && st == TOP then [[]] + Pieces(s, TOP)
      else Prepend(c, Pieces(s, Step(st, c)))
  {
    assert ([c] + s)[1..] == s;
  }

  /** A separator at the top level ends a list: what follows is split on its own. */
  lemma {:induction false} PiecesAtSeparator(s: string, t: string, st: Lex)
    requires Run(st, s) == TOP
    ensures Pieces(s + ";" + t, st) == Pieces(s, st) + Pieces(t, TOP)
    decreases s
  {
    if s == [] {
      assert s + ";" + t == [';'] + t;
      PiecesCons(';', t, st);
    } else {
      var rest := s[1..] + ";" + t;
      assert s + ";" + t == [s[0]] + rest;
      PiecesCons(s[0], rest, st);
      var breaks := s[0] == ';' && st == TOP;
      PiecesAtSeparator(s[1..], t, if breaks then TOP else Step(st, s[0]));
      if !breaks {
        PrependToFirst(s[0], Pieces(s[1..], Step(st, s[0])), Pieces(t, TOP));
      }
    }
  }

  /** A text that is not closed swallows the separator and what comes next. */
  lemma {:induction false} PiecesSwallow(s: string, t: string, st: Lex)
    returns (init: seq<string>, last: string, more: string, tail: seq<string>)
    requires Run(st, s) != TOP
    ensures Pieces(s, st) == init + [last]
    ensures Pieces(s + ";" + t, st) == init + ([last + (";" + more)] + tail)
    decreases s
  {
    if s == [] {
      assert s + ";" + t == [';'] + t;
      PiecesCons(';', t, st);
      var ps := Pieces(t, Step(st, ';'));
      init, last, more, tail := [], [], ps[0], ps[1..];
      assert last + (";" + more) == [';'] + ps[0];
    } else {
      var rest := s[1..] + ";" + t;
      assert s + ";" + t == [s[0]] + rest;
      PiecesCons(s[0], rest, st);
      var breaks := s[0] == ';' && st == TOP;
      var st' := if breaks then TOP else Step(st, s[0]);
      init, last, more, tail := PiecesSwallow(s[1..], t, st');
      if breaks {
        init := [[]] + init;
      } else {
        PrependToFirst(s[0], init, [last]);
        PrependToFirst(s[0], init, [last + (";" + more)] + tail);
        if init == [] {
          PrependSwallowed(s[0], last, more, tail);
          last := [s[0]] + last;
        } else {
          init := Prepend(s[0], init);
        }
      }
    }
  }

  lemma {:induction false} PrependToFirst(c: char, init: seq<string>, tail: seq<string>)
    requires tail != []
    ensures Prepend(c, init + tail) == if init == [] then Prepend(c, tail) else Prepend(c, init) + tail
  {
    assert init == [] ==> init + tail == tail;
  }

  lemma {:induction false} PrependSwallowed(c: char, last: string, more: string, tail: seq<string>)
    ensures Prepend(c, [last]) == [[c] + last]
    ensures Prepend(c, [last + (";" + more)] + tail) == [([c] + last) + (";" + more)] + tail
  {
    assert [c] + (last + (";" + more)) == ([c] + last) + (";" + more);
  }

  lemma {:induction false} TrimmedConcat(ps: seq<string>, qs: seq<string>)
    ensures Trimmed(ps + qs) == Trimmed(ps) + Trimmed(qs)
  {
    if ps == [] {
      assert ps + qs == qs;
    } else {
      assert (ps + qs)[1..] == ps[1..] + qs;
      TrimmedConcat(ps[1..], qs);
    }
  }

  lemma {:induction false} TrimmedCons(p: string, ps: seq<string>)
    ensures Trimmed([p] + ps) == (if Trim(p) == "" then [] else [Trim(p)]) + Trimmed(ps)
    ensures Trimmed([p]) == if Trim(p) == "" then [] else [Trim(p)]
  {
    assert ([p] + ps)[1..] == ps && [p][1..] == [];
  }

  /** White space before a list does not matter. */
  lemma {:induction false} SplitLeadingSpace(s: string)
    ensures Split(" " + s) == Split(s)
  {
    assert (" " + s)[1..] == s;
    var ps := Pieces(s, TOP);
    TrimLeftSpace(' ', ps[0]);
    assert Pieces(" " + s, TOP) == Prepend(' ', ps);
    assert Prepend(' ', ps)[1..] == ps[1..];
  }

  /** Two lists joined with "; " split as one after the other, if the first one is closed. */
  lemma {:induction false} SplitJoined(s: string, t: string)
    requires Closed(s)
    ensures Split(s + "; " + t) == Split(s) + Split(t)
  {
    assert s + "; " + t == s + ";" + (" " + t);
    PiecesAtSeparator(s, " " + t, TOP);
    TrimmedConcat(Pieces(s, TOP), Pieces(" " + t, TOP));
    SplitLeadingSpace(t);
  }

  lemma {:induction false} OnePiece(s: string, st: Lex)
    requires NoBreak(s, st)
    ensures Pieces(s, st) == [s]
    decreases s
  {
    if s != [] {
      OnePiece(s[1..], Step(st, s[0]));
      assert s == [s[0]] + s[1..];
    }
  }

  lemma {:induction false} SplitDecl(d: string)
    requires IsDecl(d)
    ensures Split(d) == [d]
  {
    OnePiece(d, TOP);
    TrimmedCons(d, []);
  }

  /** The first piece is in one piece from state st, the others from the top level,
      and all but the last one end at the top level. */
  ghost predicate PiecesOk(ps: seq<string>, st: Lex, end: Lex) {
    ps != [] && NoBreak(ps[0], st)
    && if |ps| == 1 then Run(st, ps[0]) == end else Run(st, ps[0]) == TOP && PiecesOk(ps[1..], TOP, end)
  }

  lemma {:induction false} PiecesAreOk(s: string, st: Lex)
    ensures PiecesOk(Pieces(s, st), st, Run(st, s))
    decreases s
  {
    if s != [] {
      var st' := if s[0] == ';' && st == TOP then TOP else Step(st, s[0]);
      PiecesAreOk(s[1..], st');
      var ps := Pieces(s[1..], st');
      if s[0] == ';' && st == TOP {
        assert Pieces(s, st)[1..] == ps;
      } else {
        assert ([s[0]] + ps[0])[1..] == ps[0];
        assert Pieces(s, st)[1..] == ps[1..];
      }
    }
  }

  /** Every declaration of a list is one, and all but the last one are closed. */
  predicate Separable(ds: seq<string>) {
    ds == [] || (IsDecl(ds[0]) && (|ds| > 1 ==> Closed(ds[0])) && Separable(ds[1..]))
  }

  predicate AllClosed(ds: seq<string>) { forall k :: 0 <= k < |ds| ==> Closed(ds[k]) }

  lemma {:induction false} SeparableCons(d: string, ds: seq<string>)
    requires IsDecl(d) && Separable(ds) && (ds != [] ==> Closed(d))
    ensures Separable([d] + ds)
  {
    assert ([d] + ds)[1..] == ds;
  }

  /** The last declaration of a list that ends in state end. */
  predicate LastOpen(ds: seq<string>) { ds != [] && !Closed(ds[|ds| - 1]) }

  lemma {:induction false} TrimmedSeparable(ps: seq<string>, end: Lex)
    requires PiecesOk(ps, TOP, end)
    ensures Separable(Trimmed(ps))
    ensures if end == TOP then AllClosed(Trimmed(ps)) else LastOpen(Trimmed(ps))
  {
    TrimIdempotent(ps[0]);
    TrimScan(ps[0]);
    var d, rest := Trim(ps[0]), Trimmed(ps[1..]);
    if |ps| > 1 {
      TrimmedSeparable(ps[1..], end);
    }
    if d != "" {
      SeparableCons(d, rest);
    } else {
      assert [] + rest == rest;
    }
  }

  /** splitDecls yields separable declarations; the last one is closed exactly when the text is. */
  lemma {:induction false} SplitIsSeparable(s: string)
    ensures Separable(Split(s))
    ensures Closed(s) ==> AllClosed(Split(s))
    ensures !Closed(s) ==> LastOpen(Split(s))
  {
    PiecesAreOk(s, TOP);
    TrimmedSeparable(Pieces(s, TOP), Run(TOP, s));
  }

  /** Joining separable declarations and splitting the text again gives them back. */
  lemma {:induction false} SplitOfJoin(ds: seq<string>)
    requires Separable(ds)
    ensures Split(Join(ds)) == ds
  {
    if ds != [] {
      SplitDecl(ds[0]);
      assert ds == [ds[0]] + ds[1..];
      if |ds| > 1 {
        SplitJoined(ds[0], Join(ds[1..]));
        SplitOfJoin(ds[1..]);
      }
    } else {
      TrimmedCons([], []);
    }
  }

  /** Re-joining a split list changes nothing, for every text. */
  lemma {:induction false} SplitJoinSplit(s: string)
    ensures Split(Join(Split(s))) == Split(s)
  {
    SplitIsSeparable(s);
    SplitOfJoin(Split(s));
  }

  /** A list that is not closed does not split as before once another declaration follows it. */
  lemma {:induction false} SplitSwallowed(s: string, t: string, rest: seq<string>)
    requires !Closed(s)
    ensures Split(s + "; " + t) != Split(s) + rest
  {
    var u := " " + t;
    assert s + "; " + t == s + ";" + u;
    var init, last, more, tail := PiecesSwallow(s, u, TOP);
    PiecesAreOk(s, TOP);
    LastPieceOpen(Pieces(s, TOP), TOP, Run(TOP, s));
    TrimLonger(last, more);
    TrimmedAt(init, last, []);
    assert last + ";" + more == last + (";" + more);
    TrimmedAt(init, last + (";" + more), tail);
    assert (Split(s) + rest)[|Trimmed(init)|] == Trim(last);
  }

  /** Where a piece that is not blank ends up among the declarations. */
  lemma {:induction false} TrimmedAt(init: seq<string>, p: string, tail: seq<string>)
    requires Trim(p) != ""
    ensures var ds := Trimmed(init + ([p] + tail)); |Trimmed(init)| < |ds| && ds[|Trimmed(init)|] == Trim(p)
    ensures var ds := Trimmed(init + [p]); |Trimmed(init)| < |ds| && ds[|Trimmed(init)|] == Trim(p)
  {
    TrimmedConcat(init, [p] + tail);
    TrimmedConcat(init, [p]);
    TrimmedCons(p, tail);
  }

  /** The last piece of a text that is not closed is not blank. */
  lemma {:induction false} LastPieceOpen(ps: seq<string>, st: Lex, end: Lex)
    requires PiecesOk(ps, st, end) && st == TOP && end != TOP
    ensures Trim(ps[|ps| - 1]) != ""
  {
    if |ps| == 1 {
      TrimScan(ps[0]);
    } else {
      LastPieceOpen(ps[1..], TOP, end);
    }
  }

  lemma {:induction false} TrimLonger(p: string, more: string)
    requires Trim(p) != ""
    ensures |Trim(p + ";" + more)| > |Trim(p)|
  {
    var rest := ";" + more;
    assert p + ";" + more == p + rest;
    assert TrimRight("") == "";
    TrimLeftConcat(p, rest);
    TrimRightKeeps(TrimLeft(p), rest);
    var _ := TrimRightSplits(TrimLeft(p));
  }

  lemma {:induction false} TrimLeftConcat(p: string, q: string)
    requires TrimLeft(p) != ""
    ensures TrimLeft(p + q) == TrimLeft(p) + q
  {
    if IsSpace(p[0]) {
      assert (p + q)[1..] == p[1..] + q;
      TrimLeftConcat(p[1..], q);
    }
  }

  /** Trimming on the right stops at a character that is not white space. */
  lemma {:induction false} TrimRightKeeps(p: string, q: string)
    requires q != [] && !IsSpace(q[0])
    ensures |TrimRight(p + q)| > |p|
  {
    if IsSpace(q[|q| - 1]) {
      assert (p + q)[..|p + q| - 1] == p + q[..|q| - 1];
      TrimRightKeeps(p, q[..|q| - 1]);
    }
  }
}

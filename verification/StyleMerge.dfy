/** style_merge.go: merging the style of a component's root with the caller's style. */
module StyleMerge {
  import opened Declarations
  import opened Options
  import opened Text

  /** A property name as declProp returns it: custom properties keep their case. */
  function PropName(text: string): string {
    var p := Trim(text);
    if "--" <= p then p else Lower(p)
  }

  /** The property of the rest s of a declaration, of which cur was read without meeting a top-level ':'. */
  function PropFrom(s: string, st: Lex, cur: string): string
    decreases s
  {
    if s == [] then ""
    else if s[0] == ':' && st == TOP then PropName(cur)
    else PropFrom(s[1..], Step(st, s[0]), cur + [s[0]])
  }

  /** The property name of a declaration, "" for a fragment without one. */
  function DeclProp(d: string): string { PropFrom(d, TOP, []) }

  predicate HasProp(ds: seq<string>, p: string) {
    exists k :: 0 <= k < |ds| && DeclProp(ds[k]) == p
  }

  /** A declaration loses against a later one of the same property; a fragment never loses. */
  predicate Overridden(d: string, later: seq<string>) {
    DeclProp(d) != "" && HasProp(later, DeclProp(d))
  }

  /** Last-wins by property: the declarations that no later one overrides, in order. */
  function LastWins(ds: seq<string>): seq<string> {
    if ds == [] then []
    else (if Overridden(ds[0], ds[1..]) then [] else [ds[0]]) + LastWins(ds[1..])
  }

  /** No property repeats. */
  predicate Unique(ds: seq<string>) {
    forall i, j :: 0 <= i < j < |ds| && DeclProp(ds[j]) != "" ==> DeclProp(ds[i]) != DeclProp(ds[j])
  }

  /** The declaration that decides property p when all of ds apply. */
  function Winner(ds: seq<string>, p: string): Option<string> {
    if ds == [] then None
    else if DeclProp(ds[|ds| - 1]) == p then Some(ds[|ds| - 1])
    else Winner(ds[..|ds| - 1], p)
  }

  // ----- the scanners -----

  /** One turn of either byte loop: the new depth and quote. */
  method NextLex(depth: nat, quote: Quote, c: char) returns (depth': nat, quote': Quote)
    ensures Lex(depth', quote') == Step(Lex(depth, quote), c)
  {
    depth', quote' := depth, quote;
    if quote != Unquoted {
      if Quoted(c) == quote {
        quote' := Unquoted;
      }
    } else if c == '\'' || c == '"' {
      quote' := Quoted(c);
    } else if c == '(' {
      depth' := depth + 1;
    } else if c == ')' {
      if depth > 0 {
        depth' := depth - 1;
      }
    }
  }

  /** decls are the declarations found before start, and the piece from start is read up to i. */
  ghost predicate Found(s: string, decls: seq<string>, start: nat, i: nat, st: Lex) {
    start <= i <= |s| && Split(s) == decls + SplitRest(s[i..], st, s[start..i])
  }

  /** splitDecls */
  method SplitDecls(s: string) returns (decls: seq<string>)
    ensures decls == Split(s)
  {
    hide IsSpace, Trim, Step, Pieces;
    decls := [];
    var depth, quote, start, i := 0, Unquoted, 0, 0;
    SplitRestStart(s);
    assert s[0..] == s;
    while i < |s|
      invariant Found(s, decls, start, i, Lex(depth, quote))
    {
      FoundStep(s, decls, start, i, Lex(depth, quote));
      if s[i] == ';' && depth == 0 && quote == Unquoted {
        var d := Trim(s[start..i]);
        if d != "" {
          decls := decls + [d];
        }
        start := i + 1;
      } else {
        depth, quote := NextLex(depth, quote, s[i]);
      }
      i := i + 1;
    }
    FoundEnd(s, decls, start, Lex(depth, quote));
    var d := Trim(s[start..]);
    if d != "" {
      decls := decls + [d];
    }
  }

  lemma {:induction false} FoundStep(s: string, decls: seq<string>, start: nat, i: nat, st: Lex)
    requires i < |s| && Found(s, decls, start, i, st)
    ensures var d := Trim(s[start..i]);
      if s[i] == ';' && st == TOP then Found(s, if d == "" then decls else decls + [d], i + 1, i + 1, st)
      else Found(s, decls, start, i + 1, Step(st, s[i]))
  {
    hide SplitRest, Split, Trim, Step;
    SplitRestAt(s, start, i, st);
    if s[i] == ';' && st == TOP {
      var d := Trim(s[start..i]);
      var rest := SplitRest(s[i + 1..], TOP, s[i + 1..i + 1]);
      assert decls + ([d] + rest) == decls + [d] + rest && [] + rest == rest;
    }
  }

  lemma {:induction false} FoundEnd(s: string, decls: seq<string>, start: nat, st: Lex)
    requires Found(s, decls, start, |s|, st)
    ensures var d := Trim(s[start..]); Split(s) == if d == "" then decls else decls + [d]
  {
    SplitRestEnd(s[start..], st);
    assert s[|s|..] == [] && s[start..|s|] == s[start..];
  }

  /** The declarations still to come after cur was read since the last separator. */
  function SplitRest(s: string, st: Lex, cur: string): seq<string> {
    var ps := Pieces(s, st);
    Trimmed([cur + ps[0]] + ps[1..])
  }

  lemma {:induction false} SplitRestStart(s: string)
    ensures SplitRest(s, TOP, []) == Split(s)
  {
    var ps := Pieces(s, TOP);
    assert [] + ps[0] == ps[0];
    assert [ps[0]] + ps[1..] == ps;
  }

  /** One turn of the loop of splitDecls. */
  lemma {:induction false} SplitRestAt(s: string, start: nat, i: nat, st: Lex)
    requires start <= i < |s|
    ensures SplitRest(s[i..], st, s[start..i]) ==
      if s[i] == ';' && st == TOP
      then (if Trim(s[start..i]) == "" then [] else [Trim(s[start..i])]) + SplitRest(s[i + 1..], TOP, s[i + 1..i + 1])
      else SplitRest(s[i + 1..], Step(st, s[i]), s[start..i + 1])
  {
    assert s[i..] == [s[i]] + s[i + 1..];
    assert s[start..i + 1] == s[start..i] + [s[i]] && s[i + 1..i + 1] == [];
    SplitRestCons(s[i], s[i + 1..], st, s[start..i]);
  }

  lemma {:induction false} SplitRestEnd(cur: string, st: Lex)
    ensures SplitRest([], st, cur) == if Trim(cur) == "" then [] else [Trim(cur)]
  {
    assert cur + [] == cur;
    TrimmedCons(cur, []);
  }

  lemma {:induction false} SplitRestCons(c: char, s: string, st: Lex, cur: string)
    ensures SplitRest([c] + s, st, cur) ==
      if c == ';' && st == TOP then (if Trim(cur) == "" then [] else [Trim(cur)]) + SplitRest(s, TOP, [])
      else SplitRest(s, Step(st, c), cur + [c])
  {
    hide Pieces, Trim, Trimmed, Step;
    PiecesCons(c, s, st);
    if c == ';' && st == TOP {
      var ps := Pieces(s, TOP);
      SplitRestStart(s);
      assert ([[]] + ps)[1..] == ps && cur + [] == cur;
      TrimmedCons(cur, ps);
    } else {
      var ps := Pieces(s, Step(st, c));
      assert Prepend(c, ps)[1..] == ps[1..] && cur + ([c] + ps[0]) == cur + [c] + ps[0];
    }
  }

  /** declProp */
  method ScanProp(decl: string) returns (p: string)
    ensures p == DeclProp(decl)
  {
    var depth, quote := 0, Unquoted;
    for i := 0 to |decl|
      invariant DeclProp(decl) == PropFrom(decl[i..], Lex(depth, quote), decl[..i])
    {
      var c := decl[i];
      assert decl[i..][1..] == decl[i + 1..] && decl[..i] + [c] == decl[..i + 1];
      if c == ':' && depth == 0 && quote == Unquoted {
        return PropName(decl[..i]);
      }
      depth, quote := NextLex(depth, quote, c);
    }
    return "";
  }

  // ----- StyleMerged -----

  /** joinAttrStrings for a style */
  function JoinStyles(a: string, b: string): string {
    if a == "" then b else if b == "" then a else a + "; " + b
  }

  /** The declarations that both contributors bring, the caller's last. */
  function AllDecls(root: string, bag: string): seq<string> { Split(root) + Split(bag) }

  /** What StyleMerged writes as the attribute value; None when it writes nothing. */
  function Merged(root: string, bag: string): Option<string> {
    var all := AllDecls(root, bag);
    if all == [] then None
    else if Unique(all) then
      Some(JoinStyles(if Split(root) == [] then "" else root, if Split(bag) == [] then "" else bag))
    else Some(Join(LastWins(all)))
  }

  /** The nested loops that look for a repeated property. */
  method FindRepeat(decls: seq<string>) returns (unique: bool)
    ensures unique == Unique(decls)
  {
    for i := 0 to |decls|
      invariant Unique(decls[..i])
    {
      var p := ScanProp(decls[i]);
      if p != "" {
        for j := 0 to i
          invariant forall k :: 0 <= k < j ==> DeclProp(decls[k]) != p
        {
          var q := ScanProp(decls[j]);
          if q == p {
            return false;
          }
        }
      }
    }
    assert decls[..|decls|] == decls;
    return true;
  }

  /** kept are the survivors of ds[..i]. */
  ghost predicate Compacted(ds: seq<string>, kept: seq<string>, i: nat) {
    i <= |ds| && LastWins(ds) == kept + LastWins(ds[i..])
  }

  lemma {:induction false} CompactStep(ds: seq<string>, kept: seq<string>, i: nat)
    requires i < |ds| && Compacted(ds, kept, i)
    ensures Compacted(ds, if Overridden(ds[i], ds[i + 1..]) then kept else kept + [ds[i]], i + 1)
  {
    assert ds[i..][1..] == ds[i + 1..];
    var rest := LastWins(ds[i + 1..]);
    assert kept + ([ds[i]] + rest) == kept + [ds[i]] + rest && [] + rest == rest;
  }

  /** The in-place compaction: reads decls from i on while it writes the kept ones to the front. */
  method Compact(decls: array<string>) returns (n: nat)
    modifies decls
    ensures n <= decls.Length && decls[..n] == LastWins(old(decls[..]))
  {
    n := 0;
    ghost var ds := decls[..];
    assert ds[0..] == ds && Compacted(ds, [], 0);
    for i := 0 to decls.Length
      invariant n <= i && decls[i..] == ds[i..]
      invariant Compacted(ds, decls[..n], i)
    {
      var d := decls[i];
      assert d == decls[i..][0] && decls[i + 1..] == decls[i..][1..] == ds[i + 1..];
      CompactStep(ds, decls[..n], i);
      var dup := false;
      var p := ScanProp(d);
      if p != "" {
        dup := FindLater(decls, i + 1, p);
      }
      if !dup {
        n := Keep(decls, n, d, i + 1);
      }
    }
  }

  /** append(out, d), where out shares the array of decls. */
  method Keep(decls: array<string>, n: nat, d: string, next: nat) returns (n': nat)
    requires n < next <= decls.Length
    modifies decls
    ensures n' == n + 1 && decls[..n'] == old(decls[..n]) + [d] && decls[next..] == old(decls[next..])
  {
    decls[n] := d;
    n' := n + 1;
  }

  /** The inner loop: whether property p recurs from index j on. */
  method FindLater(decls: array<string>, from: nat, p: string) returns (dup: bool)
    requires from <= decls.Length
    ensures dup == HasProp(decls[from..], p)
  {
    for j := from to decls.Length
      invariant forall k :: from <= k < j ==> DeclProp(decls[k]) != p
    {
      var q := ScanProp(decls[j]);
      if q == p {
        assert decls[from..][j - from] == decls[j];
        return true;
      }
    }
    return false;
  }

  /** StyleMerged: the value of the style attribute, None when nothing is written. */
  method StyleMerged(rootStyle: string, bagStyle: string) returns (value: Option<string>)
    ensures value == Merged(rootStyle, bagStyle)
  {
    if rootStyle == "" && bagStyle == "" {
      TrimmedCons("", []);
      return None;
    }
    var rootDecls := SplitDecls(rootStyle);
    var bagDecls := SplitDecls(bagStyle);
    var all := rootDecls + bagDecls;
    var unique := false;
    if |all| > 0 {
      unique := FindRepeat(all);
    }
    if unique {
      var joined := JoinStyles(if |rootDecls| == 0 then "" else rootStyle, if |bagDecls| == 0 then "" else bagStyle);
      return Some(joined);
    }
    var decls := new string[|all|](i requires 0 <= i < |all| => all[i]);
    assert decls[..] == all;
    var n := Compact(decls);
    if n == 0 {
      LastWinsNonempty(all);
      return None;
    }
    return Some(Join(decls[..n]));
  }

  // ----- last wins -----

  lemma {:induction false} LastWinsNonempty(ds: seq<string>)
    ensures LastWins(ds) == [] <==> ds == []
  {
    if |ds| > 1 {
      LastWinsNonempty(ds[1..]);
    }
  }

  /** What is left of x when y follows. */
  function Survivors(x: seq<string>, y: seq<string>): seq<string> {
    if x == [] then []
    else (if Overridden(x[0], x[1..] + y) then [] else [x[0]]) + Survivors(x[1..], y)
  }

  lemma {:induction false} LastWinsConcat(x: seq<string>, y: seq<string>)
    ensures LastWins(x + y) == Survivors(x, y) + LastWins(y)
  {
    if x == [] {
      assert x + y == y;
    } else {
      assert (x + y)[1..] == x[1..] + y;
      LastWinsConcat(x[1..], y);
    }
  }

  lemma {:induction false} UniqueAllWin(ds: seq<string>)
    requires Unique(ds)
    ensures LastWins(ds) == ds
  {
    if ds != [] {
      assert Unique(ds[1..]) by {
        assert forall i :: 0 <= i < |ds| - 1 ==> ds[1..][i] == ds[i + 1];
      }
      UniqueAllWin(ds[1..]);
      assert !Overridden(ds[0], ds[1..]) by {
        assert forall i :: 0 <= i < |ds| - 1 ==> ds[1..][i] == ds[i + 1];
      }
    }
  }

  lemma {:induction false} WinnerCons(d: string, ds: seq<string>, p: string)
    ensures Winner([d] + ds, p) ==
      if HasProp(ds, p) then Winner(ds, p) else if DeclProp(d) == p then Some(d) else None
    ensures !HasProp(ds, p) ==> Winner(ds, p) == None
  {
    if ds != [] {
      var n := |ds| - 1;
      assert ([d] + ds)[..n + 1] == [d] + ds[..n];
      WinnerCons(d, ds[..n], p);
      assert HasProp(ds, p) <==> HasProp(ds[..n], p) || DeclProp(ds[n]) == p by {
        assert forall k :: 0 <= k < n ==> ds[..n][k] == ds[k];
      }
    } else {
      assert [d][..0] == [];
    }
  }

  lemma {:induction false} LastWinsProps(ds: seq<string>, p: string)
    requires p != ""
    ensures HasProp(LastWins(ds), p) <==> HasProp(ds, p)
  {
    if ds != [] {
      LastWinsProps(ds[1..], p);
      HasPropCons(ds[0], ds[1..], p);
      HasPropCons(ds[0], LastWins(ds[1..]), p);
      assert ds == [ds[0]] + ds[1..];
      assert [] + LastWins(ds[1..]) == LastWins(ds[1..]);
    }
  }

  lemma {:induction false} HasPropCons(d: string, ds: seq<string>, p: string)
    ensures HasProp([d] + ds, p) <==> DeclProp(d) == p || HasProp(ds, p)
  {
    if HasProp(ds, p) {
      var k :| 0 <= k < |ds| && DeclProp(ds[k]) == p;
      assert ([d] + ds)[k + 1] == ds[k];
    }
    assert ([d] + ds)[0] == d;
  }

  /** Deduplication does not change the declaration that decides a property. */
  lemma {:induction false} LastWinsKeepsWinner(ds: seq<string>, p: string)
    requires p != ""
    ensures Winner(LastWins(ds), p) == Winner(ds, p)
  {
    if ds != [] {
      var d, later := ds[0], ds[1..];
      LastWinsKeepsWinner(later, p);
      LastWinsProps(later, p);
      assert ds == [d] + later;
      WinnerCons(d, later, p);
      if Overridden(d, later) {
        assert LastWins(ds) == LastWins(later);
      } else {
        assert LastWins(ds) == [d] + LastWins(later);
        WinnerCons(d, LastWins(later), p);
      }
    }
  }

  lemma {:induction false} UniqueCons(d: string, ds: seq<string>)
    requires Unique(ds) && (DeclProp(d) == "" || !HasProp(ds, DeclProp(d)))
    ensures Unique([d] + ds)
  {
    var all := [d] + ds;
    forall i, j | 0 <= i < j < |all| && DeclProp(all[j]) != ""
      ensures DeclProp(all[i]) != DeclProp(all[j])
    {
      assert all[j] == ds[j - 1] && (i > 0 ==> all[i] == ds[i - 1]);
    }
  }

  /** Deduplication leaves no property twice. */
  lemma {:induction false} LastWinsUnique(ds: seq<string>)
    ensures Unique(LastWins(ds))
  {
    if ds != [] {
      var d, rest := ds[0], LastWins(ds[1..]);
      LastWinsUnique(ds[1..]);
      if DeclProp(d) != "" {
        LastWinsProps(ds[1..], DeclProp(d));
      }
      if Overridden(d, ds[1..]) {
        assert [] + rest == rest;
      } else {
        UniqueCons(d, rest);
      }
    }
  }

  /** The fragments without a property, in order. */
  function Fragments(ds: seq<string>): seq<string> {
    if ds == [] then [] else (if DeclProp(ds[0]) == "" then [ds[0]] else []) + Fragments(ds[1..])
  }

  /** A fragment without a property is kept in place, never dropped. */
  lemma {:induction false} LastWinsKeepsFragments(ds: seq<string>)
    ensures Fragments(LastWins(ds)) == Fragments(ds)
  {
    if ds != [] {
      LastWinsKeepsFragments(ds[1..]);
      var rest := LastWins(ds[1..]);
      assert ([ds[0]] + rest)[1..] == rest && [] + rest == rest;
    }
  }

  // ----- reading the merged value back -----

  /** The text of the root does not run into the caller's declarations: it is closed, or nothing
      comes after it, or its open last declaration is overridden by the caller and so dropped. */
  predicate RootSafe(root: string, bag: string) {
    Closed(root) || Split(bag) == []
    || (Split(root) != [] && Overridden(Split(root)[|Split(root)| - 1], Split(bag)))
  }

  /** Splitting the written value gives the deduplicated declarations of both contributors. */
  predicate ReadsBack(root: string, bag: string) {
    match Merged(root, bag)
    case None => LastWins(AllDecls(root, bag)) == []
    case Some(v) => Split(v) == LastWins(AllDecls(root, bag))
  }

  lemma {:induction false} SeparableConcat(x: seq<string>, y: seq<string>)
    requires Separable(x) && AllClosed(x) && Separable(y)
    ensures Separable(x + y)
  {
    if x == [] {
      assert x + y == y;
    } else {
      assert (x + y)[1..] == x[1..] + y && AllClosed(x[1..]);
      SeparableConcat(x[1..], y);
    }
  }

  lemma {:induction false} LastWinsSeparable(ds: seq<string>)
    requires Separable(ds)
    ensures Separable(LastWins(ds))
  {
    if ds != [] {
      LastWinsSeparable(ds[1..]);
      LastWinsNonempty(ds[1..]);
      var rest := LastWins(ds[1..]);
      assert ([ds[0]] + rest)[1..] == rest && [] + rest == rest;
    }
  }

  /** The survivors of a separable list are closed, up to its last declaration. */
  lemma {:induction false} SurvivorsClosed(x: seq<string>, y: seq<string>)
    requires Separable(x) && x != []
    ensures Separable(Survivors(x, y))
    ensures Overridden(x[|x| - 1], y) ==> AllClosed(Survivors(x, y))
    ensures !Overridden(x[|x| - 1], y) ==>
      Survivors(x, y) != [] && Survivors(x, y)[|Survivors(x, y)| - 1] == x[|x| - 1]
  {
    hide Overridden, Closed, IsDecl, Separable, AllClosed, Survivors;
    SeparableHead(x);
    SurvivorsCons(x, y);
    var rest := Survivors(x[1..], y);
    if |x| == 1 {
      NoneSurvive(x[1..], y);
      assert x[1..] + y == y;
      NoneSeparable();
      if !Overridden(x[0], y) {
        SeparableCons(x[0], []);
        assert [x[0]] + [] == [x[0]];
      }
    } else {
      SurvivorsClosed(x[1..], y);
      assert x[1..][|x[1..]| - 1] == x[|x| - 1];
      if Overridden(x[0], x[1..] + y) {
        assert [] + rest == rest;
      } else {
        SeparableCons(x[0], rest);
        AllClosedCons(x[0], rest);
      }
    }
  }

  lemma {:induction false} SurvivorsCons(x: seq<string>, y: seq<string>)
    requires x != []
    ensures Survivors(x, y) == (if Overridden(x[0], x[1..] + y) then [] else [x[0]]) + Survivors(x[1..], y)
  {}

  lemma {:induction false} NoneSurvive(x: seq<string>, y: seq<string>)
    requires x == []
    ensures Survivors(x, y) == []
  {}

  lemma {:induction false} SeparableHead(x: seq<string>)
    requires Separable(x) && x != []
    ensures IsDecl(x[0]) && Separable(x[1..]) && (|x| > 1 ==> Closed(x[0]))
  {}

  lemma {:induction false} NoneSeparable()
    ensures Separable([]) && AllClosed([])
  {}

  lemma {:induction false} AllClosedCons(d: string, ds: seq<string>)
    ensures Closed(d) && AllClosed(ds) ==> AllClosed([d] + ds)
  {
    hide Closed;
  }

  lemma {:induction false} JoinConcat(x: seq<string>, y: seq<string>)
    requires x != [] && y != []
    ensures Join(x + y) == Join(x) + "; " + Join(y)
  {
    if |x| == 1 {
      assert (x + y)[1..] == y;
    } else {
      assert (x + y)[1..] == x[1..] + y;
      JoinConcat(x[1..], y);
      assert x[0] + "; " + (Join(x[1..]) + "; " + Join(y)) == x[0] + "; " + Join(x[1..]) + "; " + Join(y);
    }
  }

  /** A list whose last declaration is open does not read back once others follow it. */
  lemma {:induction false} OpenJoinFails(x: seq<string>, y: seq<string>)
    requires Separable(x) && x != [] && !Closed(x[|x| - 1]) && y != []
    ensures Split(Join(x + y)) != x + y
  {
    JoinConcat(x, y);
    SplitOfJoin(x);
    SplitIsSeparable(Join(x));
    SplitSwallowed(Join(x), Join(y), y);
  }

  /** When the root is closed or nothing follows it, all declarations together are separable. */
  lemma {:induction false} ReadsBackClosed(root: string, bag: string)
    requires Closed(root) || Split(bag) == []
    ensures ReadsBack(root, bag)
  {
    hide IsSpace, DeclProp;
    var all := AllDecls(root, bag);
    SplitIsSeparable(root);
    SplitIsSeparable(bag);
    assert all == Split(root) || all == Split(bag) || Closed(root);
    if Closed(root) {
      SeparableConcat(Split(root), Split(bag));
      SplitJoined(root, bag);
    }
    LastWinsSeparable(all);
    SplitOfJoin(LastWins(all));
    LastWinsNonempty(all);
    if Unique(all) {
      UniqueAllWin(all);
    }
    TrimmedCons("", []);
  }

  lemma {:induction false} OverriddenNotUnique(x: seq<string>, y: seq<string>)
    requires x != [] && Overridden(x[|x| - 1], y)
    ensures !Unique(x + y)
  {
    var k :| 0 <= k < |y| && DeclProp(y[k]) == DeclProp(x[|x| - 1]);
    var all := x + y;
    assert all[|x| - 1] == x[|x| - 1] && all[|x| + k] == y[k];
  }

  /** StyleMerged's value reads back as the last-wins merge exactly when the root is safe;
      in particular always when the root closes its quotes and parentheses. */
  lemma {:induction false} MergedReadsBack(root: string, bag: string)
    ensures ReadsBack(root, bag) <==> RootSafe(root, bag)
  {
    if Closed(root) || Split(bag) == [] {
      ReadsBackClosed(root, bag);
    } else {
      var x, y := Split(root), Split(bag);
      SplitIsSeparable(root);
      SplitIsSeparable(bag);
      LastWinsConcat(x, y);
      LastWinsNonempty(y);
      SurvivorsClosed(x, y);
      if Overridden(x[|x| - 1], y) {
        OverriddenNotUnique(x, y);
        LastWinsSeparable(y);
        SeparableConcat(Survivors(x, y), LastWins(y));
        SplitOfJoin(LastWins(x + y));
      } else if Unique(x + y) {
        UniqueAllWin(x + y);
        TrimmedCons("", []);
        SplitSwallowed(root, bag, y);
      } else {
        OpenJoinFails(Survivors(x, y), LastWins(y));
      }
    }
  }

  /** An open root that the caller's text follows: the caller's declaration is swallowed. */
  lemma {:induction false} OpenRootExample()
    ensures !ReadsBack("(", "b")
  {
    assert "("[1..] == "" && "b"[1..] == "";
    SplitDecl("b");
    SplitDecl("(");
    MergedReadsBack("(", "b");
  }
}

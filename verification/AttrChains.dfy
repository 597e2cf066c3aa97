/** attrs.go: whole chains of Merge against ConcatAttrs, down to the text that is written. */
module AttrChains {
  import opened AttrNames
  import opened Attrs
  import opened AttrMerge
  import opened Text

  // ----- chains -----

  /** a.Merge(b).Merge(c) and so on. */
  function MergedAll<V>(bags: seq<seq<Attr<V>>>, r: Rendering<V>): seq<Attr<V>>
    requires bags != []
  {
    if |bags| == 1 then bags[0] else Merged(MergedAll(bags[..|bags| - 1], r), bags[|bags| - 1], r)
  }

  lemma {:induction false} MergedConcat<V>(a: seq<Attr<V>>, b: seq<Attr<V>>, c: seq<Attr<V>>, r: Rendering<V>)
    ensures Merged(Merged(a, b, r), c, r) == Merged(a, b + c, r)
  {
    hide PairMerged;
    if c == [] {
      assert b + c == b;
    } else {
      assert (b + c)[..|b + c| - 1] == b + c[..|c| - 1];
      MergedConcat(a, b, c[..|c| - 1], r);
    }
  }

  /** A chain of merges is one merge of all that comes after the first bag. */
  lemma {:induction false} ChainIsOne<V>(bags: seq<seq<Attr<V>>>, r: Rendering<V>)
    requires bags != []
    ensures MergedAll(bags, r) == Merged(bags[0], Flat(bags[1..]), r) && Flat(bags) == bags[0] + Flat(bags[1..])
  {
    hide PairMerged;
    var init := bags[..|bags| - 1];
    if |bags| == 1 {
      assert init == [] && bags[1..] == [];
      assert bags[0] + [] == [] + bags[0];
    } else {
      ChainIsOne(init, r);
      assert bags[1..][..|bags| - 2] == init[1..];
      MergedConcat(bags[0], Flat(init[1..]), Last(bags), r);
      assert (bags[0] + Flat(init[1..])) + Last(bags) == bags[0] + (Flat(init[1..]) + Last(bags));
    }
  }

  /** A chain of merges resolves at the leaf to the same attributes, spellings and values (a class to the same
      tokens) as the concatenation of the bags, except exactly when the last pair of a class or style is a
      Toggle that does not come from the first bag and is not the only pair. */
  lemma {:induction false} MergeResolvesAsConcat<V>(bags: seq<seq<Attr<V>>>, excluded: seq<string>, r: Rendering<V>)
    requires bags != []
    ensures SameLeaves(Leaves(MergedAll(bags, r), excluded, r), Leaves(Flat(bags), excluded, r), r)
      <==> forall g :: !Excluded(NameOf(g), excluded) ==>
        !SwallowsToggle(NameOf(g), Named(bags[0], NameOf(g)), Named(Flat(bags[1..]), NameOf(g)))
  {
    hide SameLeaves, Leaves, Merged, MergedAll, SwallowsToggle, Named, Excluded, NameOf, Flat;
    ChainIsOne(bags, r);
    PairResolves(bags[0], Flat(bags[1..]), excluded, r);
  }

  // ----- trimming a join and joining what is trimmed -----

  predicate Blank(s: string) { forall k :: 0 <= k < |s| ==> IsSpace(s[k]) }

  predicate AllBlank(pieces: seq<string>) { forall k :: 0 <= k < |pieces| ==> Blank(pieces[k]) }

  predicate EndsInSpace(s: string) { s != "" && IsSpace(s[|s| - 1]) }

  /** Between two pieces that show something there is no other white space than the space that joins them. */
  predicate Tidy(pieces: seq<string>) {
    if pieces == [] then true
    else
      var p, before := Last(pieces), pieces[..|pieces| - 1];
      if Blank(p) then Tidy(before)
      else AllBlank(before) || (Tidy(before) && !IsSpace(p[0]) && !EndsInSpace(JoinAll(Class, before)))
  }

  lemma {:induction false} TrimRightAppend(x: string, v: string)
    ensures Blank(v) ==> TrimRight(x + v) == TrimRight(x)
    ensures !Blank(v) ==> TrimRight(x + v) == x + TrimRight(v) && TrimRight(v) != ""
    decreases |v|
  {
    hide IsSpace;
    if v == "" {
      assert x + v == x;
    } else {
      var w := v[..|v| - 1];
      assert (x + v)[..|x + v| - 1] == x + w && (x + v)[|x + v| - 1] == v[|v| - 1];
      assert v == w + [v[|v| - 1]];
      TrimRightAppend(x, w);
    }
  }

  lemma {:induction false} TrimLeftAppend(u: string, x: string)
    ensures Blank(u) ==> TrimLeft(u + x) == TrimLeft(x)
    ensures !Blank(u) ==> TrimLeft(u + x) == TrimLeft(u) + x
  {
    hide IsSpace;
    if u == "" {
      assert u + x == x;
    } else {
      assert (u + x)[1..] == u[1..] + x && u == [u[0]] + u[1..];
      TrimLeftAppend(u[1..], x);
    }
  }

  lemma {:induction false} TrimLeftIs(s: string)
    ensures |TrimLeft(s)| <= |s| && TrimLeft(s) == s[|s| - |TrimLeft(s)|..] && Blank(s[..|s| - |TrimLeft(s)|])
    ensures Blank(s) <==> TrimLeft(s) == ""
    ensures TrimLeft(s) != "" ==> !IsSpace(TrimLeft(s)[0])
  {
    hide IsSpace;
    if s != "" && IsSpace(s[0]) {
      TrimLeftIs(s[1..]);
      var n := |s| - |TrimLeft(s)|;
      assert s[..n] == [s[0]] + s[1..][..n - 1] && s[n..] == s[1..][n - 1..];
      assert s == [s[0]] + s[1..];
    }
  }

  lemma {:induction false} TrimRightIs(s: string)
    ensures TrimRight(s) <= s && (TrimRight(s) == s <==> !EndsInSpace(s))
  {
    hide IsSpace;
    if EndsInSpace(s) {
      TrimRightIs(s[..|s| - 1]);
    }
  }

  lemma {:induction false} TrimBlank(s: string)
    ensures Blank(s) <==> Trim(s) == ""
  {
    hide IsSpace, TrimLeft, TrimRight;
    TrimLeftIs(s);
    var u := TrimLeft(s);
    TrimRightAppend("", u);
    assert "" + u == u;
    NoTrim();
    if u != "" {
      assert !Blank(u);
    }
  }

  lemma {:induction false} NoTrim()
    ensures TrimRight("") == "" && TrimLeft("") == ""
  {}

  /** Trimming only the end of a piece trims it, when it shows something, exactly if it does not begin with white space. */
  lemma {:induction false} TrimsOnlyEnd(p: string)
    requires !Blank(p)
    ensures |Trim(p)| <= |TrimRight(p)| && (Trim(p) == TrimRight(p) <==> !IsSpace(p[0]))
  {
    hide IsSpace, TrimLeft, TrimRight;
    TrimLeftIs(p);
    var u := TrimLeft(p);
    var n := |p| - |u|;
    assert p == p[..n] + u;
    assert u != "" && !Blank(u) by {
      assert !IsSpace(u[0]);
    }
    TrimRightAppend(p[..n], u);
    if n == 0 {
      assert p[..n] + TrimRight(u) == TrimRight(u);
      assert u == p;
    } else {
      assert p[..n][0] == p[0];
      assert |TrimRight(p)| == n + |TrimRight(u)|;
    }
  }

  /** Trimming what begins and ends with something to show. */
  lemma {:induction false} TrimBetween(u: string, v: string)
    requires !Blank(u) && !Blank(v)
    ensures Trim(u + " " + v) == TrimLeft(u) + " " + TrimRight(v)
  {
    hide IsSpace, TrimLeft, TrimRight, Blank;
    assert u + " " + v == u + (" " + v);
    TrimLeftAppend(u, " " + v);
    assert TrimLeft(u) + (" " + v) == (TrimLeft(u) + " ") + v;
    TrimRightAppend(TrimLeft(u) + " ", v);
  }

  lemma {:induction false} TrimWithBlank(u: string, v: string)
    ensures Blank(v) ==> Trim(u + v) == Trim(u)
    ensures Blank(u) ==> Trim(u + v) == Trim(v)
  {
    hide IsSpace, TrimLeft, TrimRight;
    TrimLeftAppend(u, v);
    TrimRightAppend(TrimLeft(u), v);
    if Blank(u) && Blank(v) {
      TrimBlank(u);
      TrimBlank(v);
      TrimBlank(u + v);
    }
  }

  lemma {:induction false} JoinIsBlank(pieces: seq<string>)
    ensures Blank(JoinAll(Class, pieces)) <==> AllBlank(pieces)
  {
    hide IsSpace, Blank;
    NothingBlank();
    if pieces != [] {
      var before, p := pieces[..|pieces| - 1], Last(pieces);
      JoinIsBlank(before);
      BlankJoin(JoinAll(Class, before), p);
      assert pieces == before + [p];
    }
  }

  lemma {:induction false} NothingBlank()
    ensures Blank("") && AllBlank([])
  {}

  lemma {:induction false} BlankJoin(a: string, b: string)
    ensures Blank(Join(Class, a, b)) <==> Blank(a) && Blank(b)
  {
    var j := Join(Class, a, b);
    if a != "" && b != "" {
      assert forall k :: 0 <= k < |a| ==> j[k] == a[k];
      assert forall k :: 0 <= k < |b| ==> j[|a| + 1 + k] == b[k];
      assert j[|a|] == ' ';
    }
  }

  lemma {:induction false} TrimmedIsEmpty(pieces: seq<string>)
    ensures JoinAll(Class, TrimAll(pieces)) == "" <==> AllBlank(pieces)
  {
    hide IsSpace, Blank, Trim;
    NothingBlank();
    if pieces != [] {
      var before, p := pieces[..|pieces| - 1], Last(pieces);
      TrimmedIsEmpty(before);
      TrimBlank(p);
      assert TrimAll(pieces)[..|before|] == TrimAll(before);
      assert pieces == before + [p];
    }
  }

  /** Joining trimmed pieces gives no more text than trimming their join, and the same text exactly
      when the pieces are tidy. */
  lemma {:induction false} TrimOfJoin(pieces: seq<string>)
    ensures |JoinAll(Class, TrimAll(pieces))| <= |Trim(JoinAll(Class, pieces))|
    ensures JoinAll(Class, TrimAll(pieces)) == Trim(JoinAll(Class, pieces)) <==> Tidy(pieces)
  {
    hide IsSpace, Blank, AllBlank, Trim, Join;
    if pieces == [] {
      NoTrimmed();
    } else {
      var before, p := pieces[..|pieces| - 1], Last(pieces);
      TrimOfJoin(before);
      assert TrimAll(pieces)[..|before|] == TrimAll(before);
      TrimmedIsEmpty(before);
      JoinIsBlank(before);
      StepOfJoin(JoinAll(Class, before), JoinAll(Class, TrimAll(before)), p);
    }
  }

  lemma {:induction false} NoTrimmed()
    ensures JoinAll(Class, TrimAll([])) == "" && Trim("") == "" && JoinAll(Class, []) == ""
  {}

  /** One more piece p: joined is the join so far, and kept the join of what was trimmed. */
  lemma {:induction false} StepOfJoin(joined: string, kept: string, p: string)
    requires |kept| <= |Trim(joined)| && (kept == "" <==> Blank(joined))
    ensures |Join(Class, kept, Trim(p))| <= |Trim(Join(Class, joined, p))|
    ensures Join(Class, kept, Trim(p)) == Trim(Join(Class, joined, p))
      <==> if Blank(p) then kept == Trim(joined)
           else Blank(joined) || (kept == Trim(joined) && !IsSpace(p[0]) && !EndsInSpace(joined))
  {
    hide IsSpace, Blank, Trim;
    TrimBlank(p);
    TrimBlank(joined);
    NothingBlank();
    if Blank(p) {
      BlankTail(p);
      TrimWithBlank(joined, " " + p);
      assert joined + (" " + p) == joined + " " + p;
    } else if Blank(joined) {
      BlankTail(joined);
      TrimWithBlank(joined + " ", p);
    } else {
      TrimBetween(joined, p);
      TrimsOnlyEnd(p);
      TrimsOnlyStart(joined);
      SumOfLengths(kept, Trim(p), TrimLeft(joined), TrimRight(p));
    }
  }

  lemma {:induction false} BlankTail(s: string)
    requires Blank(s)
    ensures Blank(" " + s) && Blank(s + " ")
  {}

  lemma {:induction false} TrimsOnlyStart(s: string)
    requires !Blank(s)
    ensures Trim(s) <= TrimLeft(s) && (Trim(s) == TrimLeft(s) <==> !EndsInSpace(s))
  {
    hide IsSpace, TrimLeft, TrimRight;
    TrimLeftIs(s);
    TrimRightIs(TrimLeft(s));
    assert TrimLeft(s)[|TrimLeft(s)| - 1] == s[|s| - 1];
  }

  lemma {:induction false} SumOfLengths(a: string, b: string, c: string, d: string)
    requires |a| <= |c| && |b| <= |d|
    ensures a + " " + b == c + " " + d <==> a == c && b == d
    ensures |a + " " + b| <= |c + " " + d|
  {
    if a + " " + b == c + " " + d {
      assert |a| + 1 + |b| == |c| + 1 + |d|;
      assert (a + " " + b)[..|a|] == a && (c + " " + d)[..|c|] == c;
      assert (a + " " + b)[|a| + 1..] == b && (c + " " + d)[|c| + 1..] == d;
    }
  }

  // ----- the text of a class -----

  /** The merged class keeps its text: the incoming bag names no class, or all values together are tidy. */
  predicate TextKept<V>(pa: seq<Attr<V>>, pb: seq<Attr<V>>, r: Rendering<V>) {
    pb == [] || Tidy(Pieces(Class, pa + pb, r))
  }

  lemma {:induction false} TidyOne(pieces: seq<string>)
    requires |pieces| == 1
    ensures Tidy(pieces)
  {
    assert pieces[..0] == [];
    NothingBlank();
  }

  /** Merging leaves the text of a class as the leaf writes it without merging, exactly when the values are tidy. */
  lemma {:induction false} ClassTextAgrees<V>(pa: seq<Attr<V>>, pb: seq<Attr<V>>, r: Rendering<V>)
    ensures Collapsed(Class, MergedOf(NameOf(Class), pa, pb, r), r) == Collapsed(Class, pa + pb, r) <==> TextKept(pa, pb, r)
  {
    hide Pieces, JoinAll, TrimAll, Tidy, NameOf, Collapses, Trim;
    FoldOfName(Class);
    if pb == [] {
      assert pa + pb == pa;
    } else if |pa + pb| == 1 {
      assert pa + pb == pb;
      TidyOne(Pieces(Class, pa + pb, r));
    } else {
      var joined := JoinAll(Class, Pieces(Class, pa + pb, r));
      JoinedText(Last(pb).key, joined, r);
      TrimOfJoin(Pieces(Class, pa + pb, r));
    }
  }

  lemma {:induction false} JoinedText<V>(key: string, joined: string, r: Rendering<V>)
    ensures Collapsed(Class, [JoinedPair<V>(Class, key, joined)], r) == Trim(joined)
  {
    hide Trim;
    var pairs: seq<Attr<V>> := [JoinedPair(Class, key, joined)];
    JoinOne(Class, TrimAll(Pieces(Class, pairs, r)));
  }

  /** Merging early does not show: it swallows no Toggle, and keeps the text of a class. */
  predicate Unseen<V>(name: string, pa: seq<Attr<V>>, pb: seq<Attr<V>>, r: Rendering<V>) {
    !SwallowsToggle(name, pa, pb) && (name == NameOf(Class) ==> TextKept(pa, pb, r))
  }

  lemma {:induction false} LeafIsSame<V>(name: string, pa: seq<Attr<V>>, pb: seq<Attr<V>>, r: Rendering<V>)
    requires pa + pb != []
    ensures MergedOf(name, pa, pb, r) != []
    ensures LeafOf(name, MergedOf(name, pa, pb, r), r) == LeafOf(name, pa + pb, r) <==> Unseen(name, pa, pb, r)
  {
    hide Fields, Collapsed, MergedOf, Tidy, Pieces;
    LeafAgrees(name, pa, pb, r);
    FoldOfName(Class);
    if name == NameOf(Class) {
      ClassTextAgrees(pa, pb, r);
      if |pa + pb| == 1 {
        TidyOne(Pieces(Class, pa + pb, r));
      }
    } else if Collapses(name).Some? {
      CollapsesTo(name, Collapses(name).value);
    }
  }

  /** A chain of merges writes the same attributes, spellings and values as the concatenation of the bags, to
      the character, if and only if no Toggle of a class or style is swallowed and the class is tidy. */
  lemma {:induction false} MergeRendersAsConcat<V>(bags: seq<seq<Attr<V>>>, excluded: seq<string>, r: Rendering<V>)
    requires bags != []
    ensures Leaves(MergedAll(bags, r), excluded, r) == Leaves(Flat(bags), excluded, r)
      <==> forall g :: !Excluded(NameOf(g), excluded) ==>
        Unseen(NameOf(g), Named(bags[0], NameOf(g)), Named(Flat(bags[1..]), NameOf(g)), r)
  {
    hide LeafOf, Leaves, Merged, MergedAll, Unseen, Named, ValidName, Excluded, NameOf, Flat;
    ChainIsOne(bags, r);
    var a, b := bags[0], Flat(bags[1..]);
    var x, y := Leaves(Merged(a, b, r), excluded, r), Leaves(a + b, excluded, r);
    forall name
      ensures name in x <==> name in y
      ensures name in y ==> (x[name] == y[name] <==> Unseen(name, Named(a, name), Named(b, name), r))
    {
      NameIsSame(a, b, name, excluded, r);
    }
    forall name | name in y && !Unseen(name, Named(a, name), Named(b, name), r)
      ensures exists g :: name == NameOf(g) && !Excluded(name, excluded)
    {
      SeenName(name, Named(a, name), Named(b, name), r);
      InLeaves(a + b, name, excluded, r);
    }
    forall g | !Excluded(NameOf(g), excluded) && !Unseen(NameOf(g), Named(a, NameOf(g)), Named(b, NameOf(g)), r)
      ensures NameOf(g) in y
    {
      SeenIsWritten(g, a, b, excluded, r);
      WrittenInNames(a + b, NameOf(g), excluded);
      InLeaves(a + b, NameOf(g), excluded, r);
    }
    assert x == y <==> x.Keys == y.Keys && forall name :: name in y ==> x[name] == y[name];
  }

  lemma {:induction false} NameIsSame<V>(a: seq<Attr<V>>, b: seq<Attr<V>>, name: string, excluded: seq<string>, r: Rendering<V>)
    ensures var m := Merged(a, b, r);
      && (name in Leaves(m, excluded, r) <==> name in Leaves(a + b, excluded, r))
      && (name in Leaves(a + b, excluded, r) ==>
          (Leaves(m, excluded, r)[name] == Leaves(a + b, excluded, r)[name]
           <==> Unseen(name, Named(a, name), Named(b, name), r)))
  {
    hide LeafOf, Merged, Unseen, Named, ValidName, Excluded, MergedOf;
    var m := Merged(a, b, r);
    MergedNamed(a, b, name, r);
    NamedConcat(a, b, name);
    if Named(a, name) + Named(b, name) == [] {
      NoPairs(name, [], r);
    } else {
      LeafIsSame(name, Named(a, name), Named(b, name), r);
    }
    InLeaves(m, name, excluded, r);
    InLeaves(a + b, name, excluded, r);
  }

  lemma {:induction false} InLeaves<V>(a: seq<Attr<V>>, name: string, excluded: seq<string>, r: Rendering<V>)
    ensures name in Leaves(a, excluded, r) <==> Written(a, name, excluded)
  {
    hide LeafOf, Named, ValidName, Excluded, Names;
    if Written(a, name, excluded) {
      WrittenInNames(a, name, excluded);
    }
  }

  lemma {:induction false} SeenName<V>(name: string, pa: seq<Attr<V>>, pb: seq<Attr<V>>, r: Rendering<V>)
    requires !Unseen(name, pa, pb, r)
    ensures exists g :: name == NameOf(g)
  {
    hide SwallowsToggle, TextKept, NameOf;
    if SwallowsToggle(name, pa, pb) {
      SwallowedName(name, pa, pb);
    }
  }

  lemma {:induction false} SeenIsWritten<V>(g: Aggregate, a: seq<Attr<V>>, b: seq<Attr<V>>, excluded: seq<string>, r: Rendering<V>)
    requires !Excluded(NameOf(g), excluded) && !Unseen(NameOf(g), Named(a, NameOf(g)), Named(b, NameOf(g)), r)
    ensures Written(a + b, NameOf(g), excluded)
  {
    hide Named, NameOf, Collapses, SwallowsToggle, ValidName, Tidy;
    if SwallowsToggle(NameOf(g), Named(a, NameOf(g)), Named(b, NameOf(g))) {
      SwallowedIsWritten(g, a, b, excluded);
    } else {
      FoldOfName(g);
      NamedConcat(a, b, NameOf(g));
    }
  }

  /** A class is only the same up to white space: Merge joins the values as they are, the leaf trims each. */
  lemma {:induction false} ClassTextMayDiffer<V>(r: Rendering<V>)
    ensures var a, b := [Attr("class", Text("x "))], [Attr("class", Text("y"))];
      Collapsed(Class, MergedOf("class", a, b, r), r) == "x  y" && Collapsed(Class, a + b, r) == "x y"
  {
    hide Collapsed;
    var a: seq<Attr<V>>, b: seq<Attr<V>> := [Attr("class", Text("x "))], [Attr("class", Text("y"))];
    CollapsedOne("x ", r);
    CollapsedStep(Class, a, b[0], r);
    assert a + b == a + [b[0]];
    PiecesOne(Class, a[0], r);
    PiecesStep(Class, a, b[0], r);
    CollapsedOne("x  y", r);
    FoldOfName(Class);
    assert "x " + " " + "y" == "x  y";
    assert |a + b| == 2 && Last(b).key == "class";
    assert MergedOf("class", a, b, r) == [JoinedPair(Class, "class", JoinAll(Class, Pieces(Class, a + b, r)))];
    assert MergedOf("class", a, b, r) == [Attr("class", Text("x  y"))];
    assert Trim("x  y") == "x  y" && Trim("y") == "y";
    assert TrimRight("x ") == TrimRight("x ");
    assert "x "[..1] == "x";
    assert Trim("x ") == "x";
  }

}

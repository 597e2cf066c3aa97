/** attrs.go: which pairs of a bag Spread writes. */
module AttrSpread {
  import opened AttrNames
  import opened Attrs
  import opened AttrMerge

  /** A loop variable k has seen the first k pairs: last holds, for each valid name among them,
      its last pair. */
  ghost predicate LastOf<V>(last: map<string, nat>, a: seq<Attr<V>>) {
    && (forall name :: name in last <==> ValidName(name) && Named(a, name) != [])
    && (forall name :: name in last ==> last[name] == LastNamed(a, name))
  }

  method LastValidAttrIndexes<V>(a: seq<Attr<V>>) returns (last: map<string, nat>)
    ensures LastOf(last, a)
  {
    last := map[];
    for i := 0 to |a|
      invariant LastOf(last, a[..i])
    {
      var valid := ValidName(a[i].key);
      LastOfStep(last, a, i);
      if valid {
        last := last[Fold(a[i].key) := i];
      }
    }
    assert a[..|a|] == a;
  }

  lemma {:induction false} LastOfStep<V>(last: map<string, nat>, a: seq<Attr<V>>, i: nat)
    requires i < |a| && LastOf(last, a[..i])
    ensures LastOf(if ValidName(a[i].key) then last[Fold(a[i].key) := i] else last, a[..i + 1])
  {
    hide ValidName, Fold, Named, LastNamed;
    var own := Fold(a[i].key);
    FoldIsStable(a[i].key);
    ValidByFold(a[i].key, own);
    forall name
      ensures Named(a[..i + 1], name) == if own == name then Named(a[..i], name) + [a[i]] else Named(a[..i], name)
      ensures LastNamed(a[..i + 1], name) == if own == name then i else LastNamed(a[..i], name)
    {
      NamedStep(a, i, name);
      LastNamedStep(a, i, name);
    }
  }

  lemma {:induction false} LastNamedStep<V>(a: seq<Attr<V>>, i: nat, name: string)
    requires i < |a|
    ensures LastNamed(a[..i + 1], name) == if Fold(a[i].key) == name then i else LastNamed(a[..i], name)
  {
    hide Fold;
    assert a[..i + 1][..i] == a[..i];
  }

  /** attrNameExcluded */
  method AttrNameExcluded(key: string, excluded: seq<string>) returns (hit: bool)
    ensures hit == Excluded(Fold(key), excluded)
    ensures hit <==> exists e :: e in excluded && Fold(e) == Fold(key)
  {
    for k := 0 to |excluded|
      invariant forall j :: 0 <= j < k ==> Fold(excluded[j]) != Fold(key)
    {
      var same := SameName(key, excluded[k]);
      if same {
        return true;
      }
    }
    return false;
  }

  /** The pair at i decides on its attribute, and the spread writes that attribute. */
  predicate Chosen<V>(a: seq<Attr<V>>, i: nat, excluded: seq<string>)
    requires i < |a|
  {
    Written(a, Fold(a[i].key), excluded) && LastNamed(a, Fold(a[i].key)) == i
  }

  function LeafAt<V>(a: seq<Attr<V>>, i: nat, r: Rendering<V>): Leaf<V>
    requires i < |a| && Named(a, Fold(a[i].key)) != []
  {
    LeafOf(Fold(a[i].key), Named(a, Fold(a[i].key)), r)
  }

  /** out holds the leaves of the chosen pairs below k, in the order of the bag: at lists them. */
  ghost predicate Holds<V>(out: seq<Leaf<V>>, at: seq<nat>, a: seq<Attr<V>>, k: nat, excluded: seq<string>, r: Rendering<V>)
    requires k <= |a|
  {
    && |at| == |out|
    && (forall j :: 0 <= j < |at| ==> at[j] < k && Chosen(a, at[j], excluded) && out[j] == LeafAt(a, at[j], r))
    && (forall i, j :: 0 <= i < j < |at| ==> at[i] < at[j])
    && (forall i :: 0 <= i < k && Chosen(a, i, excluded) ==> i in at)
  }

  /** out is what a spread of the bag writes, in its order. */
  ghost predicate SpreadOf<V>(out: seq<Leaf<V>>, a: seq<Attr<V>>, excluded: seq<string>, r: Rendering<V>) {
    exists at :: Holds(out, at, a, |a|, excluded, r)
  }

  /** The selecting part of Spread: what it would write, in order. */
  method Select<V>(a: seq<Attr<V>>, excluded: seq<string>, r: Rendering<V>) returns (out: seq<Leaf<V>>)
    ensures SpreadOf(out, a, excluded, r)
  {
    hide ValidName, Named, LastNamed, Excluded, LeafOf;
    out := [];
    ghost var at: seq<nat> := [];
    var last := LastValidAttrIndexes(a);
    for i := 0 to |a|
      invariant Holds(out, at, a, i, excluded, r)
    {
      ValidSpelling(a, i);
      if !ValidName(a[i].key) || last[Fold(a[i].key)] != i {
        continue;
      }
      var skip := AttrNameExcluded(a[i].key, excluded);
      if skip {
        continue;
      }
      var leaf := LeafHere(a, i, r);
      out := out + [leaf];
      at := at + [i];
    }
  }

  lemma {:induction false} ValidSpelling<V>(a: seq<Attr<V>>, i: nat)
    requires i < |a|
    ensures ValidName(Fold(a[i].key)) == ValidName(a[i].key) && Named(a, Fold(a[i].key)) != []
  {
    hide ValidName, Named;
    FoldIsStable(a[i].key);
    ValidByFold(a[i].key, Fold(a[i].key));
    NamedOccurs(a, Fold(a[i].key));
  }

  lemma {:induction false} LastPair<V>(a: seq<Attr<V>>, name: string)
    requires LastNamed(a, name) >= 0
    ensures Named(a, name) != [] && Last(Named(a, name)) == a[LastNamed(a, name)]
  {
    hide Fold;
    if Fold(a[|a| - 1].key) != name {
      LastPair(a[..|a| - 1], name);
    }
  }

  /** The value written for the pair at i: a Toggle gives presence before anything else is looked
      at, then a class or style takes the value of the whole bag. */
  method LeafHere<V>(a: seq<Attr<V>>, i: nat, r: Rendering<V>) returns (leaf: Leaf<V>)
    requires i < |a| && LastNamed(a, Fold(a[i].key)) == i && Named(a, Fold(a[i].key)) != []
    ensures leaf == LeafAt(a, i, r)
  {
    hide Named, LastNamed, Collapsed, NameOf, Fold;
    var kv := a[i];
    LastPair(a, Fold(kv.key));
    if kv.value.Toggle? {
      return Leaf(kv.key, Presence(kv.value.on));
    }
    FoldOfNames(kv.key);
    FoldOfName(Class);
    FoldOfName(Style);
    var class_ := SameName(kv.key, NameOf(Class));
    var style := SameName(kv.key, NameOf(Style));
    if class_ {
      var text := AggregateOf(a, Class, r);
      return Leaf(kv.key, Valued(Text(text)));
    }
    if style {
      var text := AggregateOf(a, Style, r);
      return Leaf(kv.key, Valued(Text(text)));
    }
    return Leaf(kv.key, Valued(kv.value));
  }

  /** What is selected is exactly the leaves of the bag, each once: no attribute is written twice,
      dropped, or under an earlier spelling. */
  lemma {:induction false} SelectionIsLeaves<V>(out: seq<Leaf<V>>, a: seq<Attr<V>>, excluded: seq<string>, r: Rendering<V>)
    requires SpreadOf(out, a, excluded, r)
    ensures forall j :: 0 <= j < |out| ==>
      var name := Fold(out[j].spelling); name in Leaves(a, excluded, r) && Leaves(a, excluded, r)[name] == out[j]
    ensures forall i, j :: 0 <= i < j < |out| ==> Fold(out[i].spelling) != Fold(out[j].spelling)
    ensures forall name :: name in Leaves(a, excluded, r) ==> Leaves(a, excluded, r)[name] in out
  {
    hide Written, LastNamed, Named, LeafOf, Fold;
    var at :| Holds(out, at, a, |a|, excluded, r);
    forall j | 0 <= j < |out|
      ensures Fold(out[j].spelling) == Fold(a[at[j]].key)
      ensures var name := Fold(out[j].spelling); name in Leaves(a, excluded, r) && Leaves(a, excluded, r)[name] == out[j]
    {
      SpellingAt(a, at[j], r);
      WrittenInNames(a, Fold(a[at[j]].key), excluded);
    }
    forall name | name in Leaves(a, excluded, r)
      ensures Leaves(a, excluded, r)[name] in out
    {
      LastNamedIs(a, name);
      NamedNotEmpty(a, name, excluded);
      var i := LastNamed(a, name);
      assert Chosen(a, i, excluded);
      var j :| 0 <= j < |at| && at[j] == i;
      assert out[j] == LeafAt(a, i, r);
    }
  }

  lemma {:induction false} NamedNotEmpty<V>(a: seq<Attr<V>>, name: string, excluded: seq<string>)
    requires Written(a, name, excluded)
    ensures Named(a, name) != []
  {}

  lemma {:induction false} SpellingAt<V>(a: seq<Attr<V>>, i: nat, r: Rendering<V>)
    requires i < |a| && LastNamed(a, Fold(a[i].key)) == i
    ensures Named(a, Fold(a[i].key)) != [] && LeafAt(a, i, r).spelling == a[i].key
  {
    hide Named, LastNamed, Fold, Collapses;
    LastPair(a, Fold(a[i].key));
  }
}

/** attrs.go: attribute bags, merged eagerly or resolved when they are written. */
module Attrs {
  import opened AttrNames
  import opened Options
  import opened Text

  /** An attribute value: a Toggle, a RawCSS, a string, or a value of any other type. */
  datatype Value<V> = Toggle(on: bool) | RawCSS(css: string) | Text(text: string) | Other(v: V)

  datatype Attr<V> = Attr(key: string, value: Value<V>)

  /** How other values print, and cssValueFilter. */
  datatype Rendering<!V> = Rendering(format: V -> string, filter: string -> string)

  /** toStr */
  function ToStr<V>(v: Value<V>, r: Rendering<V>): string {
    match v
    case Toggle(on) => if on then "true" else "false"
    case RawCSS(css) => css
    case Text(text) => text
    case Other(x) => (r.format)(x)
  }

  /** StyleValue: RawCSS verbatim, anything else through the filter. */
  function StyleValue<V>(v: Value<V>, r: Rendering<V>): string {
    if v.RawCSS? then v.css else (r.filter)(ToStr(v, r))
  }

  // ----- joining -----

  /** The two attributes whose values collapse. */
  datatype Aggregate = Class | Style

  function NameOf(g: Aggregate): string { if g.Class? then "class" else "style" }

  /** joinAttrStrings */
  function Join(g: Aggregate, a: string, b: string): string {
    if a == "" then b
    else if b == "" then a
    else if g.Style? then a + "; " + b
    else a + " " + b
  }

  function JoinAll(g: Aggregate, pieces: seq<string>): string {
    if pieces == [] then "" else Join(g, JoinAll(g, pieces[..|pieces| - 1]), pieces[|pieces| - 1])
  }

  function Piece<V>(g: Aggregate, v: Value<V>, r: Rendering<V>): string {
    if g.Class? then ToStr(v, r) else StyleValue(v, r)
  }

  function Pieces<V>(g: Aggregate, pairs: seq<Attr<V>>, r: Rendering<V>): (p: seq<string>)
    ensures |p| == |pairs|
  {
    seq(|pairs|, i requires 0 <= i < |pairs| => Piece(g, pairs[i].value, r))
  }

  /** The class string of pairs that all name the class: each value trimmed, then joined. */
  function TrimAll(pieces: seq<string>): (t: seq<string>)
    ensures |t| == |pieces|
  {
    seq(|pieces|, i requires 0 <= i < |pieces| => Trim(pieces[i]))
  }

  /** The value that the pairs of a collapsing attribute render together. */
  function Collapsed<V>(g: Aggregate, pairs: seq<Attr<V>>, r: Rendering<V>): string {
    JoinAll(g, if g.Class? then TrimAll(Pieces(g, pairs, r)) else Pieces(g, pairs, r))
  }

  // ----- bags -----

  /** The pairs of a bag that name one attribute, given by its folded name. */
  function Named<V>(a: seq<Attr<V>>, name: string): seq<Attr<V>> {
    if a == [] then []
    else Named(a[..|a| - 1], name) + (if Fold(a[|a| - 1].key) == name then [a[|a| - 1]] else [])
  }

  function Last<T>(s: seq<T>): T
    requires s != []
  {
    s[|s| - 1]
  }

  /** What the leaf writes for an attribute: presence without a value, or a value. */
  datatype Leaf<V> = Leaf(spelling: string, shown: Shown<V>)
  datatype Shown<V> = Presence(on: bool) | Valued(value: Value<V>)

  function Collapses(name: string): Option<Aggregate> {
    if name == NameOf(Class) then Some(Class) else if name == NameOf(Style) then Some(Style) else None
  }

  /** The leaf of the pairs that name one attribute: the last pair gives the spelling and decides
      on presence; its value is shown unless the attribute collapses. */
  function LeafOf<V>(name: string, pairs: seq<Attr<V>>, r: Rendering<V>): Leaf<V>
    requires pairs != []
  {
    var last := Last(pairs);
    Leaf(last.key,
      if last.value.Toggle? then Presence(last.value.on)
      else match Collapses(name)
        case Some(g) => Valued(Text(Collapsed(g, pairs, r)))
        case None => Valued(last.value))
  }

  predicate Excluded(name: string, excluded: seq<string>) {
    exists k :: 0 <= k < |excluded| && Fold(excluded[k]) == name
  }

  /** The names that Spread writes. */
  predicate Written<V>(a: seq<Attr<V>>, name: string, excluded: seq<string>) {
    Named(a, name) != [] && ValidName(name) && !Excluded(name, excluded)
  }

  lemma {:induction false} NamedAre<V>(a: seq<Attr<V>>, name: string)
    ensures forall k :: 0 <= k < |Named(a, name)| ==> Fold(Named(a, name)[k].key) == name
  {
    if a != [] {
      NamedAre(a[..|a| - 1], name);
    }
  }

  lemma {:induction false} NamedConcat<V>(a: seq<Attr<V>>, b: seq<Attr<V>>, name: string)
    ensures Named(a + b, name) == Named(a, name) + Named(b, name)
  {
    if b == [] {
      assert a + b == a;
    } else {
      NamedConcat(a, b[..|b| - 1], name);
      assert (a + b)[..|a + b| - 1] == a + b[..|b| - 1];
    }
  }

  lemma {:induction false} NamedStep<V>(a: seq<Attr<V>>, k: nat, name: string)
    requires k < |a|
    ensures Named(a[..k + 1], name) == if Fold(a[k].key) == name then Named(a[..k], name) + [a[k]] else Named(a[..k], name)
  {
    assert a[..k + 1][..k] == a[..k];
  }

  /** Whether and where a bag names an attribute. */
  lemma {:induction false} NamedOccurs<V>(a: seq<Attr<V>>, name: string)
    ensures Named(a, name) != [] <==> exists i :: 0 <= i < |a| && Fold(a[i].key) == name
  {
    if a != [] {
      NamedOccurs(a[..|a| - 1], name);
      if i :| 0 <= i < |a| && Fold(a[i].key) == name {
        if i < |a| - 1 {
          assert a[..|a| - 1][i] == a[i];
        }
      }
      if Named(a[..|a| - 1], name) != [] {
        var i :| 0 <= i < |a| - 1 && Fold(a[..|a| - 1][i].key) == name;
        assert a[i] == a[..|a| - 1][i];
      }
    }
  }

  // ----- the accessors -----

  method Has<V>(a: seq<Attr<V>>, key: string) returns (has: bool)
    ensures has == (Named(a, Fold(key)) != [])
  {
    NamedOccurs(a, Fold(key));
    var i := |a| - 1;
    while i >= 0
      invariant -1 <= i < |a| && forall k :: i < k < |a| ==> Fold(a[k].key) != Fold(key)
    {
      var same := SameName(a[i].key, key);
      if same {
        return true;
      }
      i := i - 1;
    }
    return false;
  }

  /** The loop shared by Class and Style. */
  method AggregateOf<V>(a: seq<Attr<V>>, g: Aggregate, r: Rendering<V>) returns (out: string)
    ensures out == Collapsed(g, Named(a, NameOf(g)), r)
  {
    hide Collapsed, Piece, Trim, Join;
    out := "";
    FoldOfName(g);
    NoneCollapsed(g, a[..0], r);
    assert a[..|a|] == a;
    for k := 0 to |a|
      invariant out == Collapsed(g, Named(a[..k], NameOf(g)), r)
    {
      NamedStep(a, k, NameOf(g));
      var same := SameName(a[k].key, NameOf(g));
      if same {
        var v := Piece(g, a[k].value, r);
        if g.Class? {
          v := Trim(v);
        }
        CollapsedStep(g, Named(a[..k], NameOf(g)), a[k], r);
        out := Join(g, out, v);
      }
    }
  }

  lemma {:induction false} FoldOfName(g: Aggregate)
    ensures Fold(NameOf(g)) == NameOf(g) && ValidName(NameOf(g)) && Collapses(NameOf(g)) == Some(g)
  {}

  lemma {:induction false} NoneCollapsed<V>(g: Aggregate, none: seq<Attr<V>>, r: Rendering<V>)
    requires none == []
    ensures Collapsed(g, Named(none, NameOf(g)), r) == ""
  {}

  lemma {:induction false} CollapsedStep<V>(g: Aggregate, pairs: seq<Attr<V>>, kv: Attr<V>, r: Rendering<V>)
    ensures var p := Piece(g, kv.value, r);
      Collapsed(g, pairs + [kv], r) == Join(g, Collapsed(g, pairs, r), if g.Class? then Trim(p) else p)
  {
    hide Piece, Trim, Join;
    var now := Pieces(g, pairs + [kv], r);
    assert now[..|pairs|] == Pieces(g, pairs, r);
    assert TrimAll(now)[..|pairs|] == TrimAll(Pieces(g, pairs, r));
  }

  /** What Get answers from the pairs that name the attribute. */
  function Gotten<V>(name: string, pairs: seq<Attr<V>>, r: Rendering<V>): Option<Value<V>> {
    if pairs == [] then None
    else match Collapses(name)
      case Some(Class) => Some(Text(Collapsed(Class, pairs, r)))
      case Some(Style) => Some(RawCSS(Collapsed(Style, pairs, r)))
      case None => Some(Last(pairs).value)
  }

  method Get<V>(a: seq<Attr<V>>, key: string, r: Rendering<V>) returns (v: Option<Value<V>>)
    ensures v == Gotten(Fold(key), Named(a, Fold(key)), r)
  {
    FoldOfName(Class);
    FoldOfName(Style);
    var class_ := SameName(key, NameOf(Class));
    var style := SameName(key, NameOf(Style));
    if class_ || style {
      var has := Has(a, key);
      if !has {
        return None;
      }
      var text := AggregateOf(a, if class_ then Class else Style, r);
      return Some(if class_ then Text(text) else RawCSS(text));
    }
    var i := |a| - 1;
    assert a[..|a|] == a;
    while i >= 0
      invariant -1 <= i < |a| && Named(a, Fold(key)) == Named(a[..i + 1], Fold(key))
    {
      NamedStep(a, i, Fold(key));
      var same := SameName(a[i].key, key);
      if same {
        return Some(a[i].value);
      }
      i := i - 1;
    }
    return None;
  }

  /** Get answers what the leaf shows, unless the last pair is a Toggle: the leaf then writes the
      attribute without a value. Only the type of a style differs. */
  lemma {:induction false} GetShowsLeaf<V>(name: string, pairs: seq<Attr<V>>, r: Rendering<V>)
    requires pairs != [] && !Last(pairs).value.Toggle?
    ensures var shown := LeafOf(name, pairs, r).shown;
      shown.Valued? && Gotten(name, pairs, r).Some? && ToStr(Gotten(name, pairs, r).value, r) == ToStr(shown.value, r)
    ensures Collapses(name) != Some(Style) ==> Gotten(name, pairs, r) == Some(LeafOf(name, pairs, r).shown.value)
  {
    hide Collapsed, Collapses;
  }

  /** A style taken out of a bag and put back renders as it did: it is not filtered again. */
  lemma {:induction false} StylePutBack<V>(key: string, pairs: seq<Attr<V>>, r: Rendering<V>)
    requires pairs != []
    ensures var v := Gotten(NameOf(Style), pairs, r).value;
      Collapsed(Style, [Attr(key, v)], r) == Collapsed(Style, pairs, r)
  {
    FoldOfName(Style);
    var v := Gotten(NameOf(Style), pairs, r).value;
    JoinOne(Style, Pieces(Style, [Attr(key, v)], r));
  }

  /** What the filter promises of a value holds of a whole style, if it holds of the RawCSS values in it
      and joining keeps it: every other value went through the filter. */
  lemma {:induction false} StyleIsFiltered<V>(pairs: seq<Attr<V>>, r: Rendering<V>, safe: string -> bool)
    requires safe("") && forall x :: safe((r.filter)(x))
    requires forall a, b :: safe(a) && safe(b) ==> safe(a + "; " + b)
    requires forall k :: 0 <= k < |pairs| && pairs[k].value.RawCSS? ==> safe(pairs[k].value.css)
    ensures safe(Collapsed(Style, pairs, r))
  {
    hide ToStr, Collapsed;
    if pairs == [] {
      NothingCollapsed(r);
    } else {
      var before, last := pairs[..|pairs| - 1], Last(pairs);
      StyleIsFiltered(before, r, safe);
      CollapsedStep(Style, before, last, r);
      assert pairs == before + [last];
      assert safe(Piece(Style, last.value, r));
    }
  }

  lemma {:induction false} NothingCollapsed<V>(r: Rendering<V>)
    ensures Collapsed(Style, [], r) == ""
  {}

  lemma {:induction false} JoinOne(g: Aggregate, pieces: seq<string>)
    requires |pieces| == 1
    ensures JoinAll(g, pieces) == pieces[0]
  {
    assert pieces[..0] == [];
  }
}

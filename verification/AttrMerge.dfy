/** attrs.go: Merge against ConcatAttrs. */
module AttrMerge {
  import opened AttrNames
  import opened Attrs
  import opened Options
  import opened Text

  // ----- joining is a monoid -----

  lemma {:induction false} JoinAssociative(g: Aggregate, x: string, y: string, z: string)
    ensures Join(g, Join(g, x, y), z) == Join(g, x, Join(g, y, z))
  {
    if x != "" && y != "" && z != "" {
      var sep := if g.Style? then "; " else " ";
      assert (x + sep + y) + sep + z == x + sep + (y + sep + z);
    }
  }

  lemma {:induction false} JoinAllConcat(g: Aggregate, x: seq<string>, y: seq<string>)
    ensures JoinAll(g, x + y) == Join(g, JoinAll(g, x), JoinAll(g, y))
  {
    hide Join;
    if y == [] {
      assert x + y == x;
      JoinUnit(g, JoinAll(g, x));
    } else {
      var z := y[..|y| - 1];
      assert (x + y)[..|x + y| - 1] == x + z;
      JoinAllConcat(g, x, z);
      JoinAssociative(g, JoinAll(g, x), JoinAll(g, z), y[|y| - 1]);
    }
  }

  lemma {:induction false} JoinUnit(g: Aggregate, x: string)
    ensures Join(g, x, "") == x && Join(g, "", x) == x
  {}

  // ----- class tokens -----

  /** strings.Fields */
  function Fields(s: string): (w: seq<string>)
    ensures s != "" && !IsSpace(s[0]) ==> w != []
  {
    if s == "" then []
    else
      var w := Fields(s[1..]);
      if IsSpace(s[0]) then w
      else if |s| > 1 && !IsSpace(s[1]) then [[s[0]] + w[0]] + w[1..]
      else [[s[0]]] + w
  }

  lemma {:induction false} FieldsSplit(x: string, c: char, y: string)
    requires IsSpace(c)
    ensures Fields(x + [c] + y) == Fields(x) + Fields(y)
  {
    hide IsSpace;
    if x == "" {
      assert (x + [c] + y)[1..] == y;
    } else {
      var s, t := x + [c] + y, x[1..] + [c] + y;
      assert s[1..] == t && s[0] == x[0] && s[1] == if |x| > 1 then x[1] else c;
      FieldsSplit(x[1..], c, y);
    }
  }

  lemma {:induction false} FieldsTrimLeft(s: string)
    ensures Fields(TrimLeft(s)) == Fields(s)
  {
    hide IsSpace;
    if s != "" && IsSpace(s[0]) {
      FieldsTrimLeft(s[1..]);
    }
  }

  lemma {:induction false} FieldsTrimRight(s: string)
    ensures Fields(TrimRight(s)) == Fields(s)
  {
    hide IsSpace, Fields;
    if s != "" && IsSpace(s[|s| - 1]) {
      var t := s[..|s| - 1];
      FieldsTrimRight(t);
      FieldsSplit(t, s[|s| - 1], "");
      assert s == t + [s[|s| - 1]] + "";
      NoFields();
    }
  }

  lemma {:induction false} NoFields()
    ensures Fields("") == []
  {}

  /** Trimming a value changes none of its tokens. */
  lemma {:induction false} FieldsTrim(s: string)
    ensures Fields(Trim(s)) == Fields(s)
  {
    FieldsTrimLeft(s);
    FieldsTrimRight(TrimLeft(s));
  }

  lemma {:induction false} FieldsJoin(a: string, b: string)
    ensures Fields(Join(Class, a, b)) == Fields(a) + Fields(b)
  {
    hide Fields;
    NoFields();
    if a != "" && b != "" {
      FieldsSplit(a, ' ', b);
      assert a + " " + b == a + [' '] + b;
    }
  }

  function AllFields(pieces: seq<string>): seq<string> {
    if pieces == [] then [] else AllFields(pieces[..|pieces| - 1]) + Fields(pieces[|pieces| - 1])
  }

  /** The tokens of joined class values are the tokens of the values, in order. */
  lemma {:induction false} FieldsJoinAll(pieces: seq<string>)
    ensures Fields(JoinAll(Class, pieces)) == AllFields(pieces)
  {
    hide Fields, Join;
    NoFields();
    if pieces != [] {
      FieldsJoinAll(pieces[..|pieces| - 1]);
      FieldsJoin(JoinAll(Class, pieces[..|pieces| - 1]), pieces[|pieces| - 1]);
    }
  }

  lemma {:induction false} AllFieldsTrim(pieces: seq<string>)
    ensures AllFields(TrimAll(pieces)) == AllFields(pieces)
  {
    hide Fields, Trim;
    if pieces != [] {
      assert TrimAll(pieces)[..|pieces| - 1] == TrimAll(pieces[..|pieces| - 1]);
      AllFieldsTrim(pieces[..|pieces| - 1]);
      FieldsTrim(pieces[|pieces| - 1]);
    }
  }

  // ----- the merged bag -----

  /** The index of the last pair of an attribute, or -1. */
  function LastNamed<V>(a: seq<Attr<V>>, name: string): (i: int)
    ensures -1 <= i < |a|
  {
    if a == [] then -1
    else if Fold(a[|a| - 1].key) == name then |a| - 1
    else LastNamed(a[..|a| - 1], name)
  }

  /** The index of the first pair of an attribute, or -1. */
  function FirstNamed<V>(a: seq<Attr<V>>, name: string): (i: int)
    ensures -1 <= i < |a|
  {
    if a == [] then -1
    else
      var f := FirstNamed(a[..|a| - 1], name);
      if f < 0 && Fold(a[|a| - 1].key) == name then |a| - 1 else f
  }

  /** The indices that removeNamedAttrs may drop. */
  datatype Drop = Before(idx: int) | After(idx: int) {
    predicate Selects(i: int) { if Before? then i < idx else i > idx }
  }

  /** What removeNamedAttrs keeps of the first k pairs. */
  function Kept<V>(a: seq<Attr<V>>, k: nat, name: string, drop: Drop): (kept: seq<Attr<V>>)
    requires k <= |a|
    ensures |kept| <= k
  {
    if k == 0 then []
    else if drop.Selects(k - 1) && Fold(a[k - 1].key) == name then Kept(a, k - 1, name, drop)
    else Kept(a, k - 1, name, drop) + [a[k - 1]]
  }

  function JoinedPair<V>(g: Aggregate, key: string, joined: string): Attr<V> {
    Attr(key, if g.Style? then RawCSS(joined) else Text(joined))
  }

  /** mergeScalarAttr: kv overwrites the last pair of its attribute, and the earlier ones go. */
  function ScalarMerged<V>(out: seq<Attr<V>>, kv: Attr<V>): seq<Attr<V>> {
    var name := Fold(kv.key);
    var idx := LastNamed(out, name);
    if idx < 0 then out + [kv] else Kept(out[idx := kv], |out|, name, Before(idx))
  }

  /** mergeAggregateAttr: kv and every pair of its attribute join into the first of them. */
  function AggregateMerged<V>(g: Aggregate, out: seq<Attr<V>>, kv: Attr<V>, r: Rendering<V>): seq<Attr<V>> {
    var idx := FirstNamed(out, NameOf(g));
    if idx < 0 then out + [kv]
    else
      var joined := JoinAll(g, Pieces(g, Named(out, NameOf(g)) + [kv], r));
      Kept(out[idx := JoinedPair(g, kv.key, joined)], |out|, NameOf(g), After(idx))
  }

  function PairMerged<V>(out: seq<Attr<V>>, kv: Attr<V>, r: Rendering<V>): seq<Attr<V>> {
    match Collapses(Fold(kv.key))
    case Some(g) => AggregateMerged(g, out, kv, r)
    case None => ScalarMerged(out, kv)
  }

  /** Merge */
  function Merged<V>(a: seq<Attr<V>>, b: seq<Attr<V>>, r: Rendering<V>): seq<Attr<V>> {
    if b == [] then a else PairMerged(Merged(a, b[..|b| - 1], r), b[|b| - 1], r)
  }

  // ----- the methods, on slices -----

  /** A Go slice that starts at the beginning of its backing array. */
  datatype Slice<V> = Slice(arr: array<Attr<V>>, len: nat) {
    predicate Valid() { len <= arr.Length }

    ghost function Pairs(): seq<Attr<V>>
      requires Valid()
      reads arr
    {
      arr[..len]
    }
  }

  /** append: in place while there is room, in a new array of a larger capacity otherwise. */
  method Append<V>(s: Slice<V>, kv: Attr<V>) returns (t: Slice<V>)
    requires s.Valid()
    modifies s.arr
    ensures t.Valid() && (t.arr == s.arr || fresh(t.arr))
    ensures t.Pairs() == old(s.Pairs()) + [kv]
  {
    if s.len < s.arr.Length {
      s.arr[s.len] := kv;
      return Slice(s.arr, s.len + 1);
    }
    var arr := new Attr<V>[2 * s.len + 1](_ => kv);
    for i := 0 to s.len
      modifies arr
      invariant forall k :: 0 <= k < i ==> arr[k] == s.arr[k]
      invariant arr[s.len] == kv
    {
      arr[i] := s.arr[i];
    }
    assert arr[..s.len] == s.arr[..s.len];
    return Slice(arr, s.len + 1);
  }

  /** removeNamedAttrs: the pairs that stay are moved down in the array they are read from. */
  method RemoveNamed<V>(attrs: Slice<V>, name: string, drop: Drop) returns (out: Slice<V>)
    requires attrs.Valid()
    modifies attrs.arr
    ensures out.Valid() && out.arr == attrs.arr
    ensures out.Pairs() == Kept(old(attrs.Pairs()), attrs.len, Fold(name), drop)
  {
    var arr := attrs.arr;
    ghost var was := arr[..attrs.len];
    var n := 0;
    for i := 0 to attrs.len
      invariant n <= i && arr[..n] == Kept(was, i, Fold(name), drop)
      invariant forall k :: i <= k < attrs.len ==> arr[k] == was[k]
    {
      var kv := arr[i];
      var same := SameName(kv.key, name);
      if !(drop.Selects(i) && same) {
        arr[n] := kv;
        n := n + 1;
      }
    }
    return Slice(arr, n);
  }

  method FindLast<V>(out: Slice<V>, key: string) returns (idx: int)
    requires out.Valid()
    ensures idx == LastNamed(out.Pairs(), Fold(key))
  {
    var i := out.len - 1;
    while i >= 0
      invariant -1 <= i < out.len
      invariant LastNamed(out.Pairs(), Fold(key)) == LastNamed(out.arr[..i + 1], Fold(key))
    {
      assert out.arr[..i + 1][..i] == out.arr[..i];
      var same := SameName(out.arr[i].key, key);
      if same {
        return i;
      }
      i := i - 1;
    }
    return -1;
  }

  method FindFirst<V>(out: Slice<V>, g: Aggregate) returns (idx: int)
    requires out.Valid()
    ensures idx == FirstNamed(out.Pairs(), NameOf(g))
    ensures idx >= 0 ==> Named(out.arr[..idx + 1], NameOf(g)) == [out.arr[idx]]
    ensures idx < 0 ==> Named(out.Pairs(), NameOf(g)) == []
  {
    FoldOfName(g);
    ghost var pairs := out.Pairs();
    for i := 0 to out.len
      invariant FirstNamed(pairs[..i], NameOf(g)) < 0 && Named(pairs[..i], NameOf(g)) == []
    {
      assert pairs[..i + 1][..i] == pairs[..i] && out.arr[..i + 1] == pairs[..i + 1];
      var same := SameName(out.arr[i].key, NameOf(g));
      if same {
        FirstStays(pairs, i + 1, NameOf(g));
        return i;
      }
    }
    assert pairs[..out.len] == pairs;
    return -1;
  }

  lemma {:induction false} FirstStays<V>(a: seq<Attr<V>>, k: nat, name: string)
    requires k <= |a| && FirstNamed(a[..k], name) >= 0
    ensures FirstNamed(a, name) == FirstNamed(a[..k], name)
    decreases |a|
  {
    if k == |a| {
      assert a[..k] == a;
    } else {
      assert a[..|a| - 1][..k] == a[..k];
      FirstStays(a[..|a| - 1], k, name);
    }
  }

  method MergeScalar<V>(out: Slice<V>, kv: Attr<V>) returns (merged: Slice<V>)
    requires out.Valid()
    modifies out.arr
    ensures merged.Valid() && (merged.arr == out.arr || fresh(merged.arr))
    ensures merged.Pairs() == ScalarMerged(old(out.Pairs()), kv)
  {
    var idx := FindLast(out, kv.key);
    if idx < 0 {
      merged := Append(out, kv);
    } else {
      out.arr[idx] := kv;
      assert out.Pairs() == old(out.Pairs())[idx := kv];
      merged := RemoveNamed(out, kv.key, Before(idx));
    }
  }

  /** The join of the values of every pair of the attribute, of which idx is the first. */
  method JoinFrom<V>(g: Aggregate, out: Slice<V>, idx: nat, r: Rendering<V>) returns (joined: string)
    requires out.Valid() && idx < out.len && Named(out.arr[..idx + 1], NameOf(g)) == [out.arr[idx]]
    ensures joined == JoinAll(g, Pieces(g, Named(out.Pairs(), NameOf(g)), r))
  {
    hide Named, Join, Piece, Pieces, JoinAll, NameOf;
    FoldOfName(g);
    ghost var pairs := out.Pairs();
    joined := Piece(g, out.arr[idx].value, r);
    assert pairs[..idx + 1] == out.arr[..idx + 1];
    PiecesOne(g, out.arr[idx], r);
    for i := idx + 1 to out.len
      invariant joined == JoinAll(g, Pieces(g, Named(pairs[..i], NameOf(g)), r))
    {
      NamedStep(pairs, i, NameOf(g));
      PiecesStep(g, Named(pairs[..i], NameOf(g)), pairs[i], r);
      var same := SameName(out.arr[i].key, NameOf(g));
      if same {
        joined := Join(g, joined, Piece(g, out.arr[i].value, r));
      }
    }
    assert pairs[..out.len] == pairs;
  }

  method MergeAggregate<V>(g: Aggregate, out: Slice<V>, kv: Attr<V>, r: Rendering<V>) returns (merged: Slice<V>)
    requires out.Valid()
    modifies out.arr
    ensures merged.Valid() && (merged.arr == out.arr || fresh(merged.arr))
    ensures merged.Pairs() == AggregateMerged(g, old(out.Pairs()), kv, r)
  {
    hide Kept, FirstNamed, Join, Piece, Pieces, JoinAll, Named, NameOf;
    var idx := FindFirst(out, g);
    if idx < 0 {
      merged := Append(out, kv);
      return;
    }
    FoldOfName(g);
    ghost var pairs := out.Pairs();
    var joined := JoinFrom(g, out, idx, r);
    PiecesStep(g, Named(pairs, NameOf(g)), kv, r);
    joined := Join(g, joined, Piece(g, kv.value, r));
    out.arr[idx] := JoinedPair(g, kv.key, joined);
    assert out.Pairs() == pairs[idx := JoinedPair(g, kv.key, joined)];
    merged := RemoveNamed(out, NameOf(g), After(idx));
  }

  lemma {:induction false} PiecesOne<V>(g: Aggregate, kv: Attr<V>, r: Rendering<V>)
    ensures JoinAll(g, Pieces(g, [kv], r)) == Piece(g, kv.value, r)
  {
    hide Piece;
    JoinOne(g, Pieces(g, [kv], r));
  }

  lemma {:induction false} PiecesStep<V>(g: Aggregate, pairs: seq<Attr<V>>, kv: Attr<V>, r: Rendering<V>)
    ensures JoinAll(g, Pieces(g, pairs + [kv], r)) == Join(g, JoinAll(g, Pieces(g, pairs, r)), Piece(g, kv.value, r))
  {
    hide Piece, Join;
    assert Pieces(g, pairs + [kv], r)[..|pairs|] == Pieces(g, pairs, r);
  }

  /** Merge writes to arrays of its own only: it modifies neither bag, although it compacts in place. */
  method Merge<V>(a: array<Attr<V>>, b: array<Attr<V>>, r: Rendering<V>) returns (out: Slice<V>)
    ensures out.Valid() && fresh(out.arr)
    ensures out.Pairs() == Merged(a[..], b[..], r)
  {
    hide AggregateMerged, ScalarMerged, Collapses;
    var arr := new Attr<V>[a.Length](i requires 0 <= i < a.Length reads a => a[i]);
    out := Slice(arr, a.Length);
    assert out.Pairs() == a[..];
    for k := 0 to b.Length
      invariant out.Valid() && fresh(out.arr)
      invariant out.Pairs() == Merged(a[..], b[..k], r)
    {
      var kv := b[k];
      assert b[..k + 1][..k] == b[..k];
      FoldOfNames(kv.key);
      var class_ := SameName(kv.key, NameOf(Class));
      var style := SameName(kv.key, NameOf(Style));
      if class_ {
        out := MergeAggregate(Class, out, kv, r);
      } else if style {
        out := MergeAggregate(Style, out, kv, r);
      } else {
        out := MergeScalar(out, kv);
      }
    }
    assert b[..b.Length] == b[..];
  }

  lemma {:induction false} FoldOfNames(key: string)
    ensures Collapses(Fold(key)) == if Fold(key) == Fold(NameOf(Class)) then Some(Class)
      else if Fold(key) == Fold(NameOf(Style)) then Some(Style) else None
  {
    FoldOfName(Class);
    FoldOfName(Style);
  }

  function Flat<T>(bags: seq<seq<T>>): seq<T> {
    if bags == [] then [] else Flat(bags[..|bags| - 1]) + bags[|bags| - 1]
  }

  /** ConcatAttrs, nil (here the empty bag) when there is no pair. */
  method ConcatAttrs<V>(bags: seq<seq<Attr<V>>>) returns (out: seq<Attr<V>>)
    ensures out == Flat(bags)
  {
    var n := 0;
    for k := 0 to |bags|
      invariant n == |Flat(bags[..k])|
    {
      assert bags[..k + 1][..k] == bags[..k];
      n := n + |bags[k]|;
    }
    assert bags[..|bags|] == bags;
    if n == 0 {
      return [];
    }
    out := [];
    for k := 0 to |bags|
      invariant out == Flat(bags[..k])
    {
      assert bags[..k + 1][..k] == bags[..k];
      out := out + bags[k];
    }
  }

  // ----- what a merged bag resolves to -----

  lemma {:induction false} LastNamedIs<V>(a: seq<Attr<V>>, name: string)
    ensures var i := LastNamed(a, name);
      && (i < 0 ==> Named(a, name) == [])
      && (i >= 0 ==> Fold(a[i].key) == name && Named(a, name) != [] && forall j :: i < j < |a| ==> Fold(a[j].key) != name)
  {
    if a != [] && Fold(a[|a| - 1].key) != name {
      LastNamedIs(a[..|a| - 1], name);
    }
  }

  lemma {:induction false} FirstNamedIs<V>(a: seq<Attr<V>>, name: string)
    ensures var i := FirstNamed(a, name);
      && (i < 0 ==> Named(a, name) == [])
      && (i >= 0 ==> Fold(a[i].key) == name && Named(a, name) != [] && forall j :: 0 <= j < i ==> Fold(a[j].key) != name)
  {
    if a != [] {
      FirstNamedIs(a[..|a| - 1], name);
      NamedOccurs(a[..|a| - 1], name);
    }
  }

  /** Dropping pairs of one attribute leaves the pairs of every other alone. */
  lemma {:induction false} KeptOthers<V>(a: seq<Attr<V>>, k: nat, name: string, drop: Drop, other: string)
    requires k <= |a| && other != name
    ensures Named(Kept(a, k, name, drop), other) == Named(a[..k], other)
  {
    hide Fold, Named;
    NamedNothing<V>(other);
    if k > 0 {
      KeptOthers(a, k - 1, name, drop, other);
      NamedStep(a, k - 1, other);
      NamedAppend(Kept(a, k - 1, name, drop), a[k - 1], other);
    }
  }

  lemma {:induction false} NamedNothing<V>(name: string)
    ensures Named<V>([], name) == []
  {}

  lemma {:induction false} NamedAppend<V>(a: seq<Attr<V>>, kv: Attr<V>, name: string)
    ensures Named(a + [kv], name) == if Fold(kv.key) == name then Named(a, name) + [kv] else Named(a, name)
  {
    assert (a + [kv])[..|a|] == a;
  }

  /** When one pair of an attribute is not dropped, it is the one that stays. */
  lemma {:induction false} KeptOne<V>(a: seq<Attr<V>>, k: nat, name: string, drop: Drop, idx: nat)
    requires k <= |a| && idx < |a| && Fold(a[idx].key) == name && drop.idx == idx
    requires forall i :: 0 <= i < |a| && i != idx && Fold(a[i].key) == name ==> drop.Selects(i)
    ensures Named(Kept(a, k, name, drop), name) == if k <= idx then [] else [a[idx]]
  {
    hide Fold, Named;
    NamedNothing<V>(name);
    if k > 0 {
      KeptOne(a, k - 1, name, drop, idx);
      NamedAppend(Kept(a, k - 1, name, drop), a[k - 1], name);
    }
  }

  /** The pairs of kv's attribute after kv was merged. */
  function NamedMerged<V>(name: string, pairs: seq<Attr<V>>, kv: Attr<V>, r: Rendering<V>): seq<Attr<V>> {
    match Collapses(name)
    case Some(g) =>
      if pairs == [] then [kv] else [JoinedPair(g, kv.key, JoinAll(g, Pieces(g, pairs + [kv], r)))]
    case None => [kv]
  }

  lemma {:induction false} UpdateOthers<V>(a: seq<Attr<V>>, idx: nat, kv: Attr<V>, other: string)
    requires idx < |a| && Fold(kv.key) != other && Fold(a[idx].key) != other
    ensures Named(a[idx := kv], other) == Named(a, other)
  {
    var b := a[idx := kv];
    assert a == a[..idx] + ([a[idx]] + a[idx + 1..]) && b == a[..idx] + ([kv] + a[idx + 1..]);
    NamedConcat(a[..idx], [a[idx]] + a[idx + 1..], other);
    NamedConcat(a[..idx], [kv] + a[idx + 1..], other);
    NamedConcat([a[idx]], a[idx + 1..], other);
    NamedConcat([kv], a[idx + 1..], other);
    NamedOne(a[idx], other);
    NamedOne(kv, other);
  }

  lemma {:induction false} NamedOne<V>(kv: Attr<V>, name: string)
    ensures Named([kv], name) == if Fold(kv.key) == name then [kv] else []
  {
    assert [kv] == [] + [kv];
    NamedAppend([], kv, name);
  }

  lemma {:induction false} ScalarMergedNamed<V>(out: seq<Attr<V>>, kv: Attr<V>, name: string)
    ensures Named(ScalarMerged(out, kv), name) == if Fold(kv.key) == name then [kv] else Named(out, name)
  {
    hide Fold;
    var own := Fold(kv.key);
    var idx := LastNamed(out, own);
    LastNamedIs(out, own);
    if idx < 0 {
      NamedAppend(out, kv, name);
    } else {
      var b := out[idx := kv];
      if name == own {
        KeptOne(b, |b|, own, Before(idx), idx);
      } else {
        KeptOthers(b, |b|, own, Before(idx), name);
        assert b[..|b|] == b;
        UpdateOthers(out, idx, kv, name);
      }
    }
  }

  /** The first pair of an attribute, replaced, when the later ones are dropped. */
  lemma {:induction false} ReplaceFirst<V>(out: seq<Attr<V>>, idx: nat, one: Attr<V>, own: string, name: string)
    requires FirstNamed(out, own) == idx && Fold(one.key) == own
    ensures Named(Kept(out[idx := one], |out|, own, After(idx)), name) == if name == own then [one] else Named(out, name)
  {
    hide Fold, Kept, FirstNamed, Named;
    FirstNamedIs(out, own);
    var b := out[idx := one];
    if name == own {
      KeptOne(b, |b|, own, After(idx), idx);
    } else {
      KeptOthers(b, |b|, own, After(idx), name);
      assert b[..|b|] == b;
      UpdateOthers(out, idx, one, name);
    }
  }

  lemma {:induction false} AggregateMergedNamed<V>(g: Aggregate, out: seq<Attr<V>>, kv: Attr<V>, name: string, r: Rendering<V>)
    requires Fold(kv.key) == NameOf(g)
    ensures Named(AggregateMerged(g, out, kv, r), name)
         == if NameOf(g) == name then NamedMerged(name, Named(out, name), kv, r) else Named(out, name)
  {
    hide Fold, Pieces, JoinAll, Kept, FirstNamed, Named, NameOf, Collapses;
    FoldOfName(g);
    var idx := FirstNamed(out, NameOf(g));
    FirstNamedIs(out, NameOf(g));
    if idx < 0 {
      NamedAppend(out, kv, name);
    } else {
      var one := JoinedPair(g, kv.key, JoinAll(g, Pieces(g, Named(out, NameOf(g)) + [kv], r)));
      ReplaceFirst(out, idx, one, NameOf(g), name);
    }
  }

  lemma {:induction false} PairMergedNamed<V>(out: seq<Attr<V>>, kv: Attr<V>, name: string, r: Rendering<V>)
    ensures Named(PairMerged(out, kv, r), name)
         == if Fold(kv.key) == name then NamedMerged(name, Named(out, name), kv, r) else Named(out, name)
  {
    hide Fold, ScalarMerged, AggregateMerged, Pieces, JoinAll;
    match Collapses(Fold(kv.key))
    case Some(g) => AggregateMergedNamed(g, out, kv, name, r);
    case None => ScalarMergedNamed(out, kv, name);
  }

  /** The pairs of an attribute in the merged bag, from its pairs in the two bags. */
  function MergedOf<V>(name: string, pa: seq<Attr<V>>, pb: seq<Attr<V>>, r: Rendering<V>): seq<Attr<V>> {
    if pb == [] then pa
    else match Collapses(name)
      case Some(g) =>
        if |pa + pb| == 1 then pb else [JoinedPair(g, Last(pb).key, JoinAll(g, Pieces(g, pa + pb, r)))]
      case None => [Last(pb)]
  }

  lemma {:induction false} MergedOfStep<V>(name: string, pa: seq<Attr<V>>, pb: seq<Attr<V>>, kv: Attr<V>, r: Rendering<V>)
    ensures MergedOf(name, pa, pb + [kv], r) == NamedMerged(name, MergedOf(name, pa, pb, r), kv, r)
  {
    hide Pieces, JoinAll;
    match Collapses(name)
    case None =>
    case Some(g) =>
      assert pa + (pb + [kv]) == pa + pb + [kv];
      if pb != [] {
        var one := JoinedPair(g, Last(pb).key, JoinAll(g, Pieces(g, pa + pb, r)));
        PiecesStep(g, pa + pb, kv, r);
        PiecesStep(g, [one], kv, r);
        PiecesOne(g, one, r);
        if |pa + pb| == 1 {
          assert pa == [] && pa + pb == pb;
        }
      } else {
        assert [] + [kv] == [kv];
      }
  }

  lemma {:induction false} MergedNamed<V>(a: seq<Attr<V>>, b: seq<Attr<V>>, name: string, r: Rendering<V>)
    ensures Named(Merged(a, b, r), name) == MergedOf(name, Named(a, name), Named(b, name), r)
  {
    hide PairMerged, NamedMerged, MergedOf;
    if b == [] {
      NoPairs(name, Named(a, name), r);
    } else {
      var rest := b[..|b| - 1];
      MergedNamed(a, rest, name, r);
      NamedStep(b, |rest|, name);
      assert b[..|b|] == b;
      PairMergedNamed(Merged(a, rest, r), b[|b| - 1], name, r);
      MergedOfStep(name, Named(a, name), Named(rest, name), b[|b| - 1], r);
    }
  }

  lemma {:induction false} NoPairs<V>(name: string, pa: seq<Attr<V>>, r: Rendering<V>)
    ensures MergedOf(name, pa, [], r) == pa
  {}

  /** The one case in which merging early changes what the leaf writes: the last pair of a class or
      style is a Toggle of the incoming bag, and it is not the only pair. Left alone it decides on
      presence; merged, it became part of a value. */
  predicate SwallowsToggle<V>(name: string, pa: seq<Attr<V>>, pb: seq<Attr<V>>) {
    Collapses(name).Some? && pb != [] && Last(pb).value.Toggle? && |pa + pb| > 1
  }

  /** Equal leaves, a class compared by its tokens. */
  ghost predicate SameLeaf<V>(name: string, x: Leaf<V>, y: Leaf<V>, r: Rendering<V>) {
    && x.spelling == y.spelling
    && (if Collapses(name) == Some(Class) && x.shown.Valued? && y.shown.Valued?
        then Fields(ToStr(x.shown.value, r)) == Fields(ToStr(y.shown.value, r))
        else x.shown == y.shown)
  }

  lemma {:induction false} ClassFields<V>(pairs: seq<Attr<V>>, r: Rendering<V>)
    ensures Fields(Collapsed(Class, pairs, r)) == AllFields(Pieces(Class, pairs, r))
  {
    hide Fields, JoinAll, TrimAll, AllFields;
    FieldsJoinAll(TrimAll(Pieces(Class, pairs, r)));
    AllFieldsTrim(Pieces(Class, pairs, r));
  }

  /** A joined pair shows, on its own, what its pieces show. */
  lemma {:induction false} JoinedShows<V>(g: Aggregate, key: string, pairs: seq<Attr<V>>, r: Rendering<V>)
    ensures var one := [JoinedPair(g, key, JoinAll(g, Pieces(g, pairs, r)))];
      if g.Class? then Fields(Collapsed(g, one, r)) == Fields(Collapsed(g, pairs, r))
      else Collapsed(g, one, r) == Collapsed(g, pairs, r)
  {
    hide Fields, AllFields, Join;
    var joined := JoinAll(g, Pieces(g, pairs, r));
    var one := [JoinedPair(g, key, joined)];
    PiecesOne(g, one[0], r);
    if g.Class? {
      ClassFields(one, r);
      ClassFields(pairs, r);
      AllFieldsOne(Pieces(g, one, r));
      FieldsJoinAll(Pieces(g, pairs, r));
    }
  }

  lemma {:induction false} AllFieldsOne(pieces: seq<string>)
    requires |pieces| == 1
    ensures AllFields(pieces) == Fields(pieces[0])
  {
    hide Fields;
    assert pieces[..0] == [];
  }

  lemma {:induction false} LeafAgrees<V>(name: string, pa: seq<Attr<V>>, pb: seq<Attr<V>>, r: Rendering<V>)
    requires pa + pb != []
    ensures MergedOf(name, pa, pb, r) != []
    ensures SameLeaf(name, LeafOf(name, MergedOf(name, pa, pb, r), r), LeafOf(name, pa + pb, r), r)
      <==> !SwallowsToggle(name, pa, pb)
  {
    hide Fields, JoinAll, Pieces, Collapsed;
    if pb == [] {
      assert pa + pb == pa;
    } else if Collapses(name).Some? && |pa + pb| > 1 {
      var g := Collapses(name).value;
      JoinedShows(g, Last(pb).key, pa + pb, r);
    } else if |pa + pb| == 1 {
      assert pa + pb == pb;
    }
  }

  /** What a spread of a bag writes: for each attribute, under its folded name, its leaf. */
  ghost function Leaves<V>(a: seq<Attr<V>>, excluded: seq<string>, r: Rendering<V>): map<string, Leaf<V>> {
    map name | name in Names(a) && Written(a, name, excluded) :: LeafOf(name, Named(a, name), r)
  }

  function Names<V>(a: seq<Attr<V>>): set<string> { set i | 0 <= i < |a| :: Fold(a[i].key) }

  lemma {:induction false} WrittenInNames<V>(a: seq<Attr<V>>, name: string, excluded: seq<string>)
    requires Written(a, name, excluded)
    ensures name in Names(a)
  {
    NamedOccurs(a, name);
  }

  ghost predicate SameLeaves<V>(x: map<string, Leaf<V>>, y: map<string, Leaf<V>>, r: Rendering<V>) {
    x.Keys == y.Keys && forall name :: name in x ==> SameLeaf(name, x[name], y[name], r)
  }

  /** Merging one bag into another resolves at the leaf to the same attributes, spellings and values as
      concatenating them, except exactly when it swallows a Toggle of a class or style. */
  lemma {:induction false} PairResolves<V>(a: seq<Attr<V>>, b: seq<Attr<V>>, excluded: seq<string>, r: Rendering<V>)
    ensures SameLeaves(Leaves(Merged(a, b, r), excluded, r), Leaves(a + b, excluded, r), r)
      <==> forall g :: !Excluded(NameOf(g), excluded) ==> !SwallowsToggle(NameOf(g), Named(a, NameOf(g)), Named(b, NameOf(g)))
  {
    hide SameLeaf, LeafOf, Merged, MergedOf, SwallowsToggle, Named, ValidName, Excluded, NameOf;
    var x, y := Leaves(Merged(a, b, r), excluded, r), Leaves(a + b, excluded, r);
    forall name
      ensures name in x <==> name in y
      ensures name in y ==> (SameLeaf(name, x[name], y[name], r) <==> !SwallowsToggle(name, Named(a, name), Named(b, name)))
    {
      NameAgrees(a, b, name, excluded, r);
    }
    assert x.Keys == y.Keys;
    forall name | name in y && SwallowsToggle(name, Named(a, name), Named(b, name))
      ensures exists g :: name == NameOf(g)
    {
      SwallowedName(name, Named(a, name), Named(b, name));
    }
    forall g | !Excluded(NameOf(g), excluded) && SwallowsToggle(NameOf(g), Named(a, NameOf(g)), Named(b, NameOf(g)))
      ensures NameOf(g) in y
    {
      SwallowedIsWritten(g, a, b, excluded);
      WrittenInNames(a + b, NameOf(g), excluded);
    }
  }

  lemma {:induction false} NameAgrees<V>(a: seq<Attr<V>>, b: seq<Attr<V>>, name: string, excluded: seq<string>, r: Rendering<V>)
    ensures var m := Merged(a, b, r);
      && (name in Leaves(m, excluded, r) <==> name in Leaves(a + b, excluded, r))
      && (name in Leaves(a + b, excluded, r) ==>
          (SameLeaf(name, Leaves(m, excluded, r)[name], Leaves(a + b, excluded, r)[name], r)
           <==> !SwallowsToggle(name, Named(a, name), Named(b, name))))
  {
    hide SameLeaf, LeafOf, Merged, SwallowsToggle, Named, ValidName, Excluded, MergedOf;
    var m := Merged(a, b, r);
    MergedNamed(a, b, name, r);
    NamedConcat(a, b, name);
    if Named(a, name) + Named(b, name) == [] {
      NoPairs(name, [], r);
    } else {
      LeafAgrees(name, Named(a, name), Named(b, name), r);
    }
    if Written(m, name, excluded) {
      WrittenInNames(m, name, excluded);
    }
    if Written(a + b, name, excluded) {
      WrittenInNames(a + b, name, excluded);
    }
  }

  lemma {:induction false} SwallowedName<V>(name: string, pa: seq<Attr<V>>, pb: seq<Attr<V>>)
    requires SwallowsToggle(name, pa, pb)
    ensures exists g :: name == NameOf(g)
  {
    assert name == NameOf(Collapses(name).value);
  }

  lemma {:induction false} SwallowedIsWritten<V>(g: Aggregate, a: seq<Attr<V>>, b: seq<Attr<V>>, excluded: seq<string>)
    requires !Excluded(NameOf(g), excluded) && SwallowsToggle(NameOf(g), Named(a, NameOf(g)), Named(b, NameOf(g)))
    ensures Written(a + b, NameOf(g), excluded)
  {
    hide Named, NameOf, Collapses;
    FoldOfName(g);
    NamedConcat(a, b, NameOf(g));
    assert |Named(a + b, NameOf(g))| > 1;
    assert Named(a + b, NameOf(g)) != [];
    assert ValidName(NameOf(g));
  }

  /** The pairs of a bag that name none of the given attributes. */
  function Others<V>(a: seq<Attr<V>>, names: set<string>): seq<Attr<V>> {
    if a == [] then []
    else Others(a[..|a| - 1], names) + (if Fold(a[|a| - 1].key) in names then [] else [a[|a| - 1]])
  }

  lemma {:induction false} OthersAppend<V>(a: seq<Attr<V>>, kv: Attr<V>, names: set<string>)
    ensures Others(a + [kv], names) == if Fold(kv.key) in names then Others(a, names) else Others(a, names) + [kv]
  {
    assert (a + [kv])[..|a|] == a;
  }

  lemma {:induction false} OthersConcat<V>(a: seq<Attr<V>>, b: seq<Attr<V>>, names: set<string>)
    ensures Others(a + b, names) == Others(a, names) + Others(b, names)
  {
    hide Fold;
    if b == [] {
      assert a + b == a;
    } else {
      var c, kv := b[..|b| - 1], b[|b| - 1];
      OthersConcat(a, c, names);
      OthersAppend(a + c, kv, names);
      assert a + b == (a + c) + [kv];
    }
  }

  lemma {:induction false} OthersUpdate<V>(a: seq<Attr<V>>, idx: nat, kv: Attr<V>, names: set<string>)
    requires idx < |a| && Fold(a[idx].key) in names && Fold(kv.key) in names
    ensures Others(a[idx := kv], names) == Others(a, names)
  {
    hide Fold, Others;
    var x, y := a[..idx], a[idx + 1..];
    assert a == (x + [a[idx]]) + y && a[idx := kv] == (x + [kv]) + y;
    OthersConcat(x + [a[idx]], y, names);
    OthersConcat(x + [kv], y, names);
    OthersAppend(x, a[idx], names);
    OthersAppend(x, kv, names);
  }

  lemma {:induction false} OthersOfKept<V>(a: seq<Attr<V>>, k: nat, name: string, drop: Drop, names: set<string>)
    requires k <= |a| && name in names
    ensures Others(Kept(a, k, name, drop), names) == Others(a[..k], names)
  {
    hide Fold, Others;
    if k > 0 {
      OthersOfKept(a, k - 1, name, drop, names);
      OthersAppend(a[..k - 1], a[k - 1], names);
      OthersAppend(Kept(a, k - 1, name, drop), a[k - 1], names);
      assert a[..k] == a[..k - 1] + [a[k - 1]];
    }
  }

  lemma {:induction false} OthersOfPair<V>(out: seq<Attr<V>>, kv: Attr<V>, names: set<string>, r: Rendering<V>)
    requires Fold(kv.key) in names
    ensures Others(PairMerged(out, kv, r), names) == Others(out, names)
  {
    hide Fold, Others, Kept, LastNamed, FirstNamed, NameOf, Pieces, JoinAll, Named;
    var name := Fold(kv.key);
    OthersAppend(out, kv, names);
    FoldOfNames(kv.key);
    match Collapses(name)
    case Some(g) =>
      FoldOfName(g);
      CollapsesTo(name, g);
      FirstNamedIs(out, name);
      var idx := FirstNamed(out, name);
      if idx >= 0 {
        var one := JoinedPair(g, kv.key, JoinAll(g, Pieces(g, Named(out, name) + [kv], r)));
        OthersUpdate(out, idx, one, names);
        OthersOfKept(out[idx := one], |out|, name, After(idx), names);
        assert out[idx := one][..|out|] == out[idx := one];
      }
    case None =>
      LastNamedIs(out, name);
      var idx := LastNamed(out, name);
      if idx >= 0 {
        OthersUpdate(out, idx, kv, names);
        OthersOfKept(out[idx := kv], |out|, name, Before(idx), names);
        assert out[idx := kv][..|out|] == out[idx := kv];
      }
  }

  lemma {:induction false} CollapsesTo(name: string, g: Aggregate)
    requires Collapses(name) == Some(g)
    ensures name == NameOf(g)
  {}

  /** Merging leaves every pair that the incoming bag does not name, in the order it was in. */
  lemma {:induction false} MergeKeepsOthers<V>(a: seq<Attr<V>>, b: seq<Attr<V>>, names: set<string>, r: Rendering<V>)
    requires forall k :: 0 <= k < |b| ==> Fold(b[k].key) in names
    ensures Others(Merged(a, b, r), names) == Others(a, names)
  {
    hide Others, Fold, PairMerged;
    if b != [] {
      MergeKeepsOthers(a, b[..|b| - 1], names, r);
      OthersOfPair(Merged(a, b[..|b| - 1], r), b[|b| - 1], names, r);
    }
  }

  lemma {:induction false} CollapsedOne<V>(text: string, r: Rendering<V>)
    ensures Collapsed(Class, [Attr("class", Text(text))], r) == Trim(text)
  {
    hide Trim;
    var pairs: seq<Attr<V>> := [Attr("class", Text(text))];
    JoinOne(Class, TrimAll(Pieces(Class, pairs, r)));
  }

  /** Merging a lone Toggle of a class onto another class writes "true" as one more token. */
  lemma {:induction false} SwallowedToggle<V>(r: Rendering<V>)
    ensures var a, b: seq<Attr<V>> := [Attr("class", Text("x"))], [Attr("class", Toggle(true))];
      && LeafOf("class", MergedOf("class", a, b, r), r) == Leaf("class", Valued(Text("x true")))
      && LeafOf("class", a + b, r) == Leaf("class", Presence(true))
  {
    hide Collapsed;
    var a: seq<Attr<V>>, b: seq<Attr<V>> := [Attr("class", Text("x"))], [Attr("class", Toggle(true))];
    FoldOfName(Class);
    PiecesOne(Class, a[0], r);
    PiecesStep(Class, a, b[0], r);
    assert a + b == a + [b[0]];
    CollapsedOne("x true", r);
    assert "x" + " " + "true" == "x true";
    assert |a + b| == 2 && Last(b).key == "class" && Last(a + b) == b[0];
    assert MergedOf("class", a, b, r) == [JoinedPair(Class, "class", JoinAll(Class, Pieces(Class, a + b, r)))];
    assert MergedOf("class", a, b, r) == [Attr("class", Text("x true"))];
    assert Trim("x true") == "x true";
  }
}

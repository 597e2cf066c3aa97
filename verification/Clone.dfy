/** ast/clone.go: deep copies of syntax trees. */
module Clone {

  /** The node types of the syntax tree. */
  datatype Kind =
    | File | GoChunk | GoWithElements | Component
    | Element | Marker | MarkerRegion | Fragment | Text | Doctype | HTMLComment | Comment | Interp
    | EmbeddedInterp | GoBlock | IfMarkup | ForMarkup | SwitchMarkup
    | StaticAttr | ExprAttr | BoolAttr | SpreadAttr | MarkupAttr | EmbeddedAttr | CondAttr | SwitchAttr
    | ComposedAttr | OrderedAttrsAttr | CommentAttr
    | CaseClause | AttrCaseClause | ComposedPart | OrderedPair
    | ValueCF | ValueIf | ValueSwitch | ValueSwitchCase | ValueArm

  /** The fields that are slices or pointers. */
  datatype Field =
    | Decls | Parts | Body | Attrs | Children | Name | Stages | Embedded | Segments | Then | Else | Cases
    | CondEmbedded | ClauseEmbedded | TagEmbedded | ListEmbedded | ExprEmbedded | LiteralSegments
    | Value | Pairs | CF | If | Switch | ElseIf

  /** The static types of what such a field holds. */
  datatype Family =
    | DeclNode | MarkupNode | AttrNode | GoPartNode | Stage | CaseNode | AttrCaseNode | ComposedNode | PairNode
    | CFNode | IfNode | SwitchNode | SwitchCaseNode | ArmNode

  /** A slice of a family, or a pointer to one node of it. */
  datatype Holder = Listed(of: Family) | Pointed(of: Family)

  /** The slice and pointer fields of each node type. */
  function Shape(kind: Kind): map<Field, Holder> {
    match kind
    case File => map[Decls := Listed(DeclNode)]
    case GoWithElements => map[Parts := Listed(GoPartNode)]
    case Component => map[Body := Listed(MarkupNode)]
    case Element => map[Attrs := Listed(AttrNode), Children := Listed(MarkupNode)]
    case Marker => map[Name := Pointed(AttrNode)]
    case MarkerRegion => map[Name := Pointed(AttrNode), Children := Listed(MarkupNode)]
    case Fragment => map[Children := Listed(MarkupNode)]
    case Interp => map[Stages := Listed(Stage), Embedded := Listed(GoPartNode)]
    case EmbeddedInterp => map[Segments := Listed(MarkupNode), Stages := Listed(Stage)]
    case GoBlock => map[Embedded := Listed(GoPartNode)]
    case IfMarkup => map[CondEmbedded := Listed(GoPartNode), Then := Listed(MarkupNode), Else := Listed(MarkupNode)]
    case ForMarkup => map[ClauseEmbedded := Listed(GoPartNode), Body := Listed(MarkupNode)]
    case SwitchMarkup => map[TagEmbedded := Listed(GoPartNode), Cases := Listed(CaseNode)]
    case ExprAttr => map[Stages := Listed(Stage), Embedded := Listed(GoPartNode)]
    case SpreadAttr => map[Stages := Listed(Stage), Embedded := Listed(GoPartNode)]
    case MarkupAttr => map[Value := Listed(MarkupNode)]
    case EmbeddedAttr => map[Segments := Listed(MarkupNode), Stages := Listed(Stage)]
    case CondAttr => map[CondEmbedded := Listed(GoPartNode), Then := Listed(AttrNode), Else := Listed(AttrNode)]
    case SwitchAttr => map[TagEmbedded := Listed(GoPartNode), Cases := Listed(AttrCaseNode)]
    case ComposedAttr => map[Parts := Listed(ComposedNode)]
    case OrderedAttrsAttr => map[Pairs := Listed(PairNode)]
    case CaseClause => map[ListEmbedded := Listed(GoPartNode), Body := Listed(MarkupNode)]
    case AttrCaseClause => map[ListEmbedded := Listed(GoPartNode), Body := Listed(AttrNode)]
    case ComposedPart => map[Stages := Listed(Stage), ExprEmbedded := Listed(GoPartNode), CondEmbedded := Listed(GoPartNode),
        LiteralSegments := Listed(MarkupNode), CF := Pointed(CFNode)]
    case OrderedPair => map[Embedded := Listed(GoPartNode)]
    case ValueCF => map[If := Pointed(IfNode), Switch := Pointed(SwitchNode)]
    case ValueIf => map[CondEmbedded := Listed(GoPartNode), Then := Pointed(ArmNode), ElseIf := Pointed(IfNode), Else := Pointed(ArmNode)]
    case ValueSwitch => map[TagEmbedded := Listed(GoPartNode), Cases := Listed(SwitchCaseNode)]
    case ValueSwitchCase => map[ListEmbedded := Listed(GoPartNode), Value := Pointed(ArmNode)]
    case ValueArm => map[Stages := Listed(Stage), Embedded := Listed(GoPartNode), Segments := Listed(MarkupNode)]
    case _ => map[]
  }

  predicate InFamily(kind: Kind, family: Family) {
    match family
    case DeclNode => kind.GoChunk? || kind.GoWithElements? || kind.Component?
    case MarkupNode =>
      kind.Element? || kind.Marker? || kind.MarkerRegion? || kind.Fragment? || kind.Text? || kind.Doctype? || kind.HTMLComment?
      || kind.Comment? || kind.Interp? || kind.EmbeddedInterp? || kind.GoBlock? || kind.IfMarkup? || kind.ForMarkup? || kind.SwitchMarkup?
    case AttrNode =>
      kind.StaticAttr? || kind.ExprAttr? || kind.BoolAttr? || kind.SpreadAttr? || kind.MarkupAttr? || kind.EmbeddedAttr?
      || kind.CondAttr? || kind.SwitchAttr? || kind.ComposedAttr? || kind.OrderedAttrsAttr? || kind.CommentAttr?
    case GoPartNode => kind.Element? || kind.Fragment? || kind.EmbeddedInterp?
    case Stage => false
    case CaseNode => kind.CaseClause?
    case AttrCaseNode => kind.AttrCaseClause?
    case ComposedNode => kind.ComposedPart?
    case PairNode => kind.OrderedPair?
    case CFNode => kind.ValueCF?
    case IfNode => kind.ValueIf?
    case SwitchNode => kind.ValueSwitch?
    case SwitchCaseNode => kind.ValueSwitchCase?
    case ArmNode => kind.ValueArm?
  }

  /** Every node below a file is of some family. */
  lemma {:induction false} FamiliesCoverKinds(kind: Kind)
    ensures kind.File? <==> forall f :: !InFamily(kind, f)
  {
    match kind
    case GoChunk | GoWithElements | Component => assert InFamily(kind, DeclNode);
    case StaticAttr | ExprAttr | BoolAttr | SpreadAttr | MarkupAttr | EmbeddedAttr | CondAttr | SwitchAttr | ComposedAttr
      | OrderedAttrsAttr | CommentAttr => assert InFamily(kind, AttrNode);
    case CaseClause => assert InFamily(kind, CaseNode);
    case AttrCaseClause => assert InFamily(kind, AttrCaseNode);
    case ComposedPart => assert InFamily(kind, ComposedNode);
    case OrderedPair => assert InFamily(kind, PairNode);
    case ValueCF => assert InFamily(kind, CFNode);
    case ValueIf => assert InFamily(kind, IfNode);
    case ValueSwitch => assert InFamily(kind, SwitchNode);
    case ValueSwitchCase => assert InFamily(kind, SwitchCaseNode);
    case ValueArm => assert InFamily(kind, ArmNode);
    case File =>
    case _ => assert InFamily(kind, MarkupNode);
  }

  /** A family of which some members are values without pointers: GoText, and PipeStage. */
  predicate HasValues(family: Family) { family.GoPartNode? || family.Stage? }

  /** The fields of a node that are neither slices nor pointers: strings, positions, flags. */
  type Plain = seq<string>

  /** An element of a slice: a value, or a node. The struct elements of a slice of structs, which have
      addresses in its backing array, count as nodes. */
  datatype Item = Val(plain: Plain) | Ref(node: Node)

  datatype Slot = Nil | List(items: array<Item>) | Ptr(node: Node)

  /** What a tree is worth, whatever its addresses. */
  datatype Tree = Tree(kind: Kind, plain: Plain, branches: map<Field, Branch>)
  datatype Branch = NoBranch | Many(twigs: seq<Twig>) | Single(tree: Tree)
  datatype Twig = Bare(plain: Plain) | Sub(tree: Tree)

  class Node {
    var kind: Kind
    var plain: Plain
    var slots: map<Field, Slot>
    /** The node, and every node and backing array below it. */
    ghost var repr: set<object>

    constructor (kind: Kind, plain: Plain, slots: map<Field, Slot>, ghost below: set<object>)
      ensures this.kind == kind && this.plain == plain && this.slots == slots && repr == below + {this}
    {
      this.kind, this.plain, this.slots := kind, plain, slots;
      this.repr := below + {this};
    }

    /** The node is a well-typed tree over what repr lists. */
    ghost predicate Valid()
      reads this, repr
      decreases repr, 0
    {
      && this in repr && slots.Keys == Shape(kind).Keys
      && forall f :: f in slots ==> SlotOk(slots[f], Shape(kind)[f], repr - {this})
    }

    ghost function TreeOf(): Tree
      requires Valid()
      reads this, repr
      decreases repr, 0
    {
      Tree(kind, plain, map f | f in slots :: BranchOf(slots[f], Shape(kind)[f], repr - {this}))
    }
  }

  ghost predicate NodeOk(n: Node, family: Family, below: set<object>)
    reads below
    decreases below, 1
  {
    n in below && n.repr <= below && InFamily(n.kind, family) && n.Valid()
  }

  ghost predicate ItemOk(item: Item, family: Family, below: set<object>)
    reads below
    decreases below, 2
  {
    match item
    case Val(_) => HasValues(family)
    case Ref(n) => NodeOk(n, family, below)
  }

  ghost predicate SlotOk(s: Slot, h: Holder, below: set<object>)
    reads below
    decreases below, 3
  {
    match s
    case Nil => true
    case List(items) => h.Listed? && items in below && forall i :: 0 <= i < items.Length ==> ItemOk(items[i], h.of, below)
    case Ptr(n) => h.Pointed? && NodeOk(n, h.of, below)
  }

  ghost function TwigOf(item: Item, family: Family, below: set<object>): Twig
    requires ItemOk(item, family, below)
    reads below
    decreases below, 2
  {
    match item
    case Val(plain) => Bare(plain)
    case Ref(n) =>
      assert NodeOk(n, family, below);
      Sub(n.TreeOf())
  }

  ghost function TwigsOf(items: array<Item>, k: nat, family: Family, below: set<object>): (t: seq<Twig>)
    requires k <= items.Length && items in below && forall i :: 0 <= i < items.Length ==> ItemOk(items[i], family, below)
    reads below
    ensures |t| == k
    decreases below, 3, k
  {
    if k == 0 then [] else TwigsOf(items, k - 1, family, below) + [TwigOf(items[k - 1], family, below)]
  }

  ghost function BranchOf(s: Slot, h: Holder, below: set<object>): Branch
    requires SlotOk(s, h, below)
    reads below
    decreases below, 4
  {
    match s
    case Nil => NoBranch
    case List(items) => Many(TwigsOf(items, items.Length, h.of, below))
    case Ptr(n) =>
      assert NodeOk(n, h.of, below);
      Single(n.TreeOf())
  }

  // ----- a larger footprint changes nothing -----

  lemma {:induction false} ItemGrows(item: Item, family: Family, small: set<object>, large: set<object>)
    requires ItemOk(item, family, small) && small <= large
    ensures ItemOk(item, family, large) && TwigOf(item, family, large) == TwigOf(item, family, small)
  {
    if item.Ref? {
      assert NodeOk(item.node, family, small);
      assert NodeOk(item.node, family, large);
    }
  }

  lemma {:induction false} TwigsGrow(items: array<Item>, k: nat, family: Family, small: set<object>, large: set<object>)
    requires k <= items.Length && items in small && small <= large && forall i :: 0 <= i < items.Length ==> ItemOk(items[i], family, small)
    ensures forall i :: 0 <= i < items.Length ==> ItemOk(items[i], family, large)
    ensures TwigsOf(items, k, family, large) == TwigsOf(items, k, family, small)
  {
    forall i | 0 <= i < items.Length
      ensures ItemOk(items[i], family, large) && TwigOf(items[i], family, large) == TwigOf(items[i], family, small)
    {
      ItemGrows(items[i], family, small, large);
    }
    if k > 0 {
      TwigsGrow(items, k - 1, family, small, large);
    }
  }

  lemma {:induction false} SlotGrows(s: Slot, h: Holder, small: set<object>, large: set<object>)
    requires SlotOk(s, h, small) && small <= large
    ensures SlotOk(s, h, large) && BranchOf(s, h, large) == BranchOf(s, h, small)
  {
    match s
    case Nil =>
    case List(items) => TwigsGrow(items, items.Length, h.of, small, large);
    case Ptr(n) =>
      assert NodeOk(n, h.of, small);
      assert NodeOk(n, h.of, large);
  }

  /** Slices are worth the same when their items are. */
  lemma {:induction false} SameTwigs(a: array<Item>, b: array<Item>, k: nat, family: Family, ra: set<object>, rb: set<object>)
    requires a.Length == b.Length && k <= a.Length && a in ra && b in rb
    requires forall i :: 0 <= i < a.Length ==> ItemOk(a[i], family, ra) && ItemOk(b[i], family, rb)
    requires forall i :: 0 <= i < a.Length ==> TwigOf(a[i], family, ra) == TwigOf(b[i], family, rb)
    ensures TwigsOf(a, k, family, ra) == TwigsOf(b, k, family, rb)
  {
    if k > 0 {
      SameTwigs(a, b, k - 1, family, ra, rb);
    }
  }

  // ----- cloning -----

  /** n is a deep copy of v: of the same worth. */
  ghost predicate CopyOf(n: Node, v: Node)
    requires n.Valid() && v.Valid()
    reads n, n.repr, v, v.repr
  {
    n.TreeOf() == v.TreeOf()
  }

  /** The items of a slice, in a backing array of its own. */
  method CloneItems(items: array<Item>, family: Family, ghost below: set<object>) returns (out: array<Item>, ghost r: set<object>)
    requires SlotOk(List(items), Listed(family), below)
    ensures fresh(r) && SlotOk(List(out), Listed(family), r)
    ensures BranchOf(List(out), Listed(family), r) == BranchOf(List(items), Listed(family), below)
    decreases below, 8
  {
    hide TwigOf, BranchOf, Node.TreeOf, Node.Valid;
    out := new Item[items.Length](_ => Val([]));
    r := {};
    for i := 0 to items.Length
      invariant fresh(out) && out !in r && fresh(r) && out.Length == items.Length
      invariant SlotOk(List(items), Listed(family), below)
      invariant forall j :: 0 <= j < i ==> ItemOk(out[j], family, r) && TwigOf(out[j], family, r) == TwigOf(items[j], family, below)
    {
      assert ItemOk(items[i], family, below);
      var c, rc := CloneItem(items[i], family, below);
      ghost var larger := r + rc;
      forall j | 0 <= j < i
        ensures ItemOk(out[j], family, larger) && TwigOf(out[j], family, larger) == TwigOf(items[j], family, below)
      {
        ItemGrows(out[j], family, r, larger);
      }
      ItemGrows(c, family, rc, larger);
      out[i] := c;
      r := larger;
    }
    ItemsMakeCopy(out, items, family, r, below);
    r := r + {out};
  }

  lemma {:induction false} ItemsMakeCopy(out: array<Item>, items: array<Item>, family: Family, r: set<object>, below: set<object>)
    requires SlotOk(List(items), Listed(family), below) && out.Length == items.Length
    requires forall j :: 0 <= j < items.Length ==> ItemOk(out[j], family, r) && TwigOf(out[j], family, r) == TwigOf(items[j], family, below)
    ensures SlotOk(List(out), Listed(family), r + {out})
    ensures BranchOf(List(out), Listed(family), r + {out}) == BranchOf(List(items), Listed(family), below)
  {
    forall j | 0 <= j < items.Length
      ensures ItemOk(out[j], family, r + {out}) && TwigOf(out[j], family, r + {out}) == TwigOf(items[j], family, below)
    {
      ItemGrows(out[j], family, r, r + {out});
    }
    SameTwigs(out, items, items.Length, family, r + {out}, below);
  }

  /** One element: a value is copied, a node is cloned. */
  method CloneItem(item: Item, family: Family, ghost below: set<object>) returns (c: Item, ghost r: set<object>)
    requires ItemOk(item, family, below)
    ensures fresh(r) && ItemOk(c, family, r) && TwigOf(c, family, r) == TwigOf(item, family, below)
    decreases below, 7
  {
    match item
    case Val(_) =>
      c, r := item, {};
    case Ref(v) =>
      assert NodeOk(v, family, below);
      var n := CloneIn(v, family);
      c, r := Ref(n), n.repr;
      assert NodeOk(n, family, r);
  }

  /** A slice or pointer field of v. */
  method CloneSlot(v: Node, f: Field) returns (s: Slot, ghost r: set<object>)
    requires v.Valid() && f in v.slots
    ensures fresh(r) && SlotCloned(v, f, s, r)
    decreases v.repr, 2
  {
    var h := Shape(v.kind)[f];
    ghost var below := v.repr - {v};
    assert SlotOk(v.slots[f], h, below);
    match v.slots[f]
    case Nil =>
      s, r := Nil, {};
    case List(items) =>
      var out;
      out, r := CloneItems(items, h.of, below);
      s := List(out);
    case Ptr(child) =>
      assert NodeOk(child, h.of, below);
      var n := CloneIn(child, h.of);
      s, r := Ptr(n), n.repr;
      assert NodeOk(n, h.of, r);
  }

  /** s is worth what the field f of v is, and lies in r. */
  ghost predicate SlotCloned(v: Node, f: Field, s: Slot, r: set<object>)
    requires v.Valid() && f in v.slots
    reads v, v.repr, r
  {
    var h := Shape(v.kind)[f];
    SlotOk(s, h, r) && BranchOf(s, h, r) == BranchOf(v.slots[f], h, v.repr - {v})
  }

  lemma {:induction false} SlotClonedGrows(v: Node, f: Field, s: Slot, small: set<object>, large: set<object>)
    requires v.Valid() && f in v.slots && SlotCloned(v, f, s, small) && small <= large
    ensures SlotCloned(v, f, s, large)
  {
    hide Shape;
    SlotGrows(s, Shape(v.kind)[f], small, large);
  }

  /** A node whose fields are clones is a clone. */
  lemma {:induction false} FieldsMakeCopy(v: Node, n: Node)
    requires v.Valid() && n.kind == v.kind && n.plain == v.plain && n in n.repr && n.slots.Keys == v.slots.Keys
    requires forall f :: f in v.slots ==> SlotCloned(v, f, n.slots[f], n.repr - {n})
    ensures n.Valid() && CopyOf(n, v)
  {
    hide Shape;
    assert n.Valid();
  }

  /** n := *v, and then a clone for each listed field: all that are slices or pointers. */
  method CloneFields(v: Node, fields: seq<Field>) returns (n: Node)
    requires v.Valid() && forall f :: f in fields <==> f in v.slots
    ensures fresh(n.repr) && n.Valid() && CopyOf(n, v) && n.kind == v.kind
    decreases v.repr, 3
  {
    hide Shape, SlotCloned;
    var slots := v.slots;
    ghost var r: set<object> := {};
    for k := 0 to |fields|
      invariant slots.Keys == v.slots.Keys && fresh(r)
      invariant forall f :: f in fields[..k] ==> SlotCloned(v, f, slots[f], r)
    {
      var f := fields[k];
      assert forall g :: g in fields[..k + 1] <==> g == f || g in fields[..k];
      assert f in fields;
      var s, rs := CloneSlot(v, f);
      forall g | g in fields[..k]
        ensures SlotCloned(v, g, slots[g], r + rs)
      {
        SlotClonedGrows(v, g, slots[g], r, r + rs);
      }
      SlotClonedGrows(v, f, s, rs, r + rs);
      slots := slots[f := s];
      r := r + rs;
    }
    assert fields[..|fields|] == fields;
    n := new Node(v.kind, v.plain, slots, r);
    assert n.repr - {n} == r;
    FieldsMakeCopy(v, n);
  }

  /** cloneDecl */
  method CloneDecl(v: Node) returns (n: Node)
    requires v.Valid() && InFamily(v.kind, DeclNode)
    ensures fresh(n.repr) && n.Valid() && CopyOf(n, v) && n.kind == v.kind
    decreases v.repr, 4
  {
    match v.kind
    case GoChunk => n := CloneFields(v, []);
    case GoWithElements => n := CloneFields(v, [Parts]);
    case Component => n := CloneFields(v, [Body]);
  }

  /** cloneMarkup */
  method CloneMarkup(v: Node) returns (n: Node)
    requires v.Valid() && InFamily(v.kind, MarkupNode)
    ensures fresh(n.repr) && n.Valid() && CopyOf(n, v) && n.kind == v.kind
    decreases v.repr, 4
  {
    match v.kind
    case Element => n := CloneFields(v, [Attrs, Children]);
    case Marker => n := CloneFields(v, [Name]);
    case MarkerRegion => n := CloneFields(v, [Name, Children]);
    case Fragment => n := CloneFields(v, [Children]);
    case Text => n := CloneFields(v, []);
    case Doctype => n := CloneFields(v, []);
    case HTMLComment => n := CloneFields(v, []);
    case Comment => n := CloneFields(v, []);
    case Interp => n := CloneFields(v, [Stages, Embedded]);
    case EmbeddedInterp => n := CloneFields(v, [Segments, Stages]);
    case GoBlock => n := CloneFields(v, [Embedded]);
    case IfMarkup => n := CloneFields(v, [CondEmbedded, Then, Else]);
    case ForMarkup => n := CloneFields(v, [ClauseEmbedded, Body]);
    case SwitchMarkup => n := CloneFields(v, [TagEmbedded, Cases]);
  }

  /** cloneAttr */
  method CloneAttr(v: Node) returns (n: Node)
    requires v.Valid() && InFamily(v.kind, AttrNode)
    ensures fresh(n.repr) && n.Valid() && CopyOf(n, v) && n.kind == v.kind
    decreases v.repr, 4
  {
    match v.kind
    case StaticAttr => n := CloneFields(v, []);
    case ExprAttr => n := CloneFields(v, [Stages, Embedded]);
    case BoolAttr => n := CloneFields(v, []);
    case SpreadAttr => n := CloneFields(v, [Stages, Embedded]);
    case MarkupAttr => n := CloneFields(v, [Value]);
    case EmbeddedAttr => n := CloneFields(v, [Segments, Stages]);
    case CondAttr => n := CloneFields(v, [CondEmbedded, Then, Else]);
    case SwitchAttr => n := CloneFields(v, [TagEmbedded, Cases]);
    case ComposedAttr => n := CloneFields(v, [Parts]);
    case OrderedAttrsAttr => n := CloneFields(v, [Pairs]);
    case CommentAttr => n := CloneFields(v, []);
  }

  /** cloneGoPart, on nodes */
  method CloneGoPart(v: Node) returns (n: Node)
    requires v.Valid() && InFamily(v.kind, GoPartNode)
    ensures fresh(n.repr) && n.Valid() && CopyOf(n, v) && n.kind == v.kind
    decreases v.repr, 5
  {
    n := CloneMarkup(v);
  }

  /** the loop body of cloneCaseClauses */
  method CloneCaseClause(v: Node) returns (n: Node)
    requires v.Valid() && InFamily(v.kind, CaseNode)
    ensures fresh(n.repr) && n.Valid() && CopyOf(n, v) && n.kind == v.kind
    decreases v.repr, 4
  {
    n := CloneFields(v, [ListEmbedded, Body]);
  }

  /** the loop body of cloneAttrCaseClauses */
  method CloneAttrCaseClause(v: Node) returns (n: Node)
    requires v.Valid() && InFamily(v.kind, AttrCaseNode)
    ensures fresh(n.repr) && n.Valid() && CopyOf(n, v) && n.kind == v.kind
    decreases v.repr, 4
  {
    n := CloneFields(v, [ListEmbedded, Body]);
  }

  /** cloneComposedPart */
  method CloneComposedPart(v: Node) returns (n: Node)
    requires v.Valid() && InFamily(v.kind, ComposedNode)
    ensures fresh(n.repr) && n.Valid() && CopyOf(n, v) && n.kind == v.kind
    decreases v.repr, 4
  {
    n := CloneFields(v, [Stages, ExprEmbedded, CondEmbedded, LiteralSegments, CF]);
  }

  /** the loop body of cloneOrderedPairs */
  method CloneOrderedPair(v: Node) returns (n: Node)
    requires v.Valid() && InFamily(v.kind, PairNode)
    ensures fresh(n.repr) && n.Valid() && CopyOf(n, v) && n.kind == v.kind
    decreases v.repr, 4
  {
    n := CloneFields(v, [Embedded]);
  }

  /** cloneValueCF */
  method CloneValueCF(v: Node) returns (n: Node)
    requires v.Valid() && InFamily(v.kind, CFNode)
    ensures fresh(n.repr) && n.Valid() && CopyOf(n, v) && n.kind == v.kind
    decreases v.repr, 4
  {
    n := CloneFields(v, [If, Switch]);
  }

  /** cloneValueIf */
  method CloneValueIf(v: Node) returns (n: Node)
    requires v.Valid() && InFamily(v.kind, IfNode)
    ensures fresh(n.repr) && n.Valid() && CopyOf(n, v) && n.kind == v.kind
    decreases v.repr, 4
  {
    n := CloneFields(v, [CondEmbedded, Then, ElseIf, Else]);
  }

  /** cloneValueSwitch */
  method CloneValueSwitch(v: Node) returns (n: Node)
    requires v.Valid() && InFamily(v.kind, SwitchNode)
    ensures fresh(n.repr) && n.Valid() && CopyOf(n, v) && n.kind == v.kind
    decreases v.repr, 4
  {
    n := CloneFields(v, [TagEmbedded, Cases]);
  }

  /** the loop body of cloneValueSwitch */
  method CloneValueSwitchCase(v: Node) returns (n: Node)
    requires v.Valid() && InFamily(v.kind, SwitchCaseNode)
    ensures fresh(n.repr) && n.Valid() && CopyOf(n, v) && n.kind == v.kind
    decreases v.repr, 4
  {
    n := CloneFields(v, [ListEmbedded, Value]);
  }

  /** cloneValueArm */
  method CloneValueArm(v: Node) returns (n: Node)
    requires v.Valid() && InFamily(v.kind, ArmNode)
    ensures fresh(n.repr) && n.Valid() && CopyOf(n, v) && n.kind == v.kind
    decreases v.repr, 4
  {
    n := CloneFields(v, [Stages, Embedded, Segments]);
  }

  /** The clone function that the type of a field calls for. */
  method CloneIn(v: Node, family: Family) returns (n: Node)
    requires v.Valid() && InFamily(v.kind, family)
    ensures fresh(n.repr) && n.Valid() && CopyOf(n, v) && n.kind == v.kind
    decreases v.repr, 6
  {
    match family
    case DeclNode => n := CloneDecl(v);
    case MarkupNode => n := CloneMarkup(v);
    case AttrNode => n := CloneAttr(v);
    case GoPartNode => n := CloneGoPart(v);
    case CaseNode => n := CloneCaseClause(v);
    case AttrCaseNode => n := CloneAttrCaseClause(v);
    case ComposedNode => n := CloneComposedPart(v);
    case PairNode => n := CloneOrderedPair(v);
    case CFNode => n := CloneValueCF(v);
    case IfNode => n := CloneValueIf(v);
    case SwitchNode => n := CloneValueSwitch(v);
    case SwitchCaseNode => n := CloneValueSwitchCase(v);
    case ArmNode => n := CloneValueArm(v);
  }

  /** CloneFile: a deep copy of the same worth, in which every node and every backing array is new. */
  method CloneFile(f: Node?) returns (n: Node?)
    requires f != null ==> f.Valid() && f.kind == File
    ensures f == null <==> n == null
    ensures f != null ==> fresh(n.repr) && n.Valid() && n.kind == File && n.TreeOf() == f.TreeOf()
  {
    if f == null {
      return null;
    }
    n := CloneFields(f, [Decls]);
  }

  /** Whatever is written to the nodes and backing arrays of the clone, the original keeps its worth. */
  method MutateClone(f: Node) returns (n: Node)
    requires f.Valid() && f.kind == File
    ensures f.Valid() && f.TreeOf() == old(f.TreeOf())
    ensures fresh(n)
  {
    n := CloneFields(f, [Decls]);
    ghost var below := n.repr;
    modify below;
  }

  /** And whatever is written to the original, the clone keeps the worth that the original had. */
  method MutateOriginal(f: Node) returns (n: Node)
    requires f.Valid() && f.kind == File
    modifies f.repr
    ensures fresh(n.repr) && n.Valid() && n.TreeOf() == old(f.TreeOf())
  {
    n := CloneFields(f, [Decls]);
    ghost var below := f.repr;
    modify below;
  }
}

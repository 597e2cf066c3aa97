/** gen/diff.go: the line diff that `gsx fmt -d` prints. DiffOps computes the
    edit script, in the source's own steps: trim, fill a flat table, walk it. */
module Diff {
  import opened Subsequences
  import opened EditScripts

  newtype int32 = x: int | -0x8000_0000 <= x < 0x8000_0000

  const MAX_DIFF_CELLS := 4 * 0x10_0000

  /** Where the common prefix that begins at line i ends. */
  function PrefixEnd(a: seq<Line>, b: seq<Line>, i: nat): (p: nat)
    requires i <= |a| && i <= |b|
    ensures i <= p <= |a| && p <= |b|
    ensures forall k :: i <= k < p ==> a[k] == b[k]
    decreases |a| - i
  {
    if i < |a| && i < |b| && a[i] == b[i] then PrefixEnd(a, b, i + 1) else i
  }

  /** Length of the common suffix, of which n lines are known, that stays clear of the first pre lines. */
  function SuffixLength(a: seq<Line>, b: seq<Line>, pre: nat, n: nat): (s: nat)
    requires pre + n <= |a| && pre + n <= |b|
    ensures n <= s && pre + s <= |a| && pre + s <= |b|
    ensures forall k :: |a| - s <= k < |a| - n ==> a[k] == b[k + |b| - |a|]
    decreases |a| - n
  {
    if n < |a| - pre && n < |b| - pre && a[|a| - 1 - n] == b[|b| - 1 - n] then SuffixLength(a, b, pre, n + 1) else n
  }

  /** The lengths of the common prefix and suffix that diffOps trims. */
  function Trimmed(a: seq<Line>, b: seq<Line>): (t: (nat, nat))
    ensures t.0 + t.1 <= |a| && t.0 + t.1 <= |b|
    ensures a[..t.0] == b[..t.0] && a[|a| - t.1..] == b[|b| - t.1..]
  {
    var p := PrefixEnd(a, b, 0);
    (p, SuffixLength(a, b, p, 0))
  }

  /** The lines of file f, one of a and b, that trimming leaves. */
  function Middle(f: seq<Line>, trim: (nat, nat)): seq<Line>
    requires trim.0 + trim.1 <= |f|
  {
    f[trim.0..|f| - trim.1]
  }

  /** The middles are small enough for the table. */
  predicate TableFits(a: seq<Line>, b: seq<Line>) {
    |Middle(a, Trimmed(a, b))| * |Middle(b, Trimmed(a, b))| <= MAX_DIFF_CELLS
  }

  /** How large is too large: middles of up to 2048 lines each always fit, and more than 2048 each never do. */
  lemma {:induction false} FitsByLines(a: seq<Line>, b: seq<Line>)
    ensures var (m, n) := (|Middle(a, Trimmed(a, b))|, |Middle(b, Trimmed(a, b))|);
      (m <= 2048 && n <= 2048 ==> TableFits(a, b)) && (m > 2048 && n > 2048 ==> !TableFits(a, b))
  {
    hide Middle, Trimmed;
    var m, n := |Middle(a, Trimmed(a, b))|, |Middle(b, Trimmed(a, b))|;
    if m <= 2048 && n <= 2048 {
      ProductMonotonic(m, 2048, n, 2048);
    } else if m > 2048 && n > 2048 {
      ProductMonotonic(2049, m, 2049, n);
    }
  }

  /** Cell (x, y) of a table stored row by row in rows of |mb| + 1 cells. */
  function Cell(x: nat, y: nat, mb: seq<Line>): nat { x * (|mb| + 1) + y }

  lemma {:induction false} CellInRange(x: nat, y: nat, mb: seq<Line>, rows: nat)
    requires x < rows && y <= |mb|
    ensures Cell(x, y, mb) < rows * (|mb| + 1)
  {
    ProductMonotonic(x + 1, rows, |mb| + 1, |mb| + 1);
    assert (x + 1) * (|mb| + 1) == x * (|mb| + 1) + |mb| + 1;
  }

  lemma {:induction false} CellOrder(x: nat, y: nat, u: nat, v: nat, mb: seq<Line>)
    requires x < u && y <= |mb|
    ensures Cell(x, y, mb) < Cell(u, v, mb)
  {
    ProductMonotonic(x + 1, u, |mb| + 1, |mb| + 1);
    assert (x + 1) * (|mb| + 1) == x * (|mb| + 1) + |mb| + 1;
  }

  lemma {:induction false} ProductMonotonic(x: nat, u: nat, y: nat, v: nat)
    requires x <= u && y <= v
    ensures x * y <= u * v
  {
    assert u * v == x * y + (u - x) * v + x * (v - y);
    assert 0 <= (u - x) * v && 0 <= x * (v - y);
  }

  /** LCS length of the two suffixes that start at x and y. */
  function SuffixLcs(ma: seq<Line>, mb: seq<Line>, x: nat, y: nat): nat
    requires x <= |ma| && y <= |mb|
  {
    LcsLength(ma[x..], mb[y..])
  }

  /** With at most MAX_DIFF_CELLS cells the shorter side has at most 2048 lines,
      so no table entry exceeds 2048 and int32 cannot overflow. */
  lemma {:induction false} SuffixLcsBound(ma: seq<Line>, mb: seq<Line>, x: nat, y: nat)
    requires x <= |ma| && y <= |mb| && |ma| * |mb| <= MAX_DIFF_CELLS
    ensures SuffixLcs(ma, mb, x, y) <= 2048
  {
    LcsBound(ma[x..], mb[y..]);
    var n := SuffixLcs(ma, mb, x, y);
    ProductMonotonic(n, |ma|, n, |mb|);
    if n > 2048 {
      ProductMonotonic(2049, n, 2049, n);
    }
  }

  lemma {:induction false} SuffixLcsStep(ma: seq<Line>, mb: seq<Line>, x: nat, y: nat)
    requires x < |ma| && y < |mb|
    ensures SuffixLcs(ma, mb, x, y) ==
            if ma[x] == mb[y] then SuffixLcs(ma, mb, x + 1, y + 1) + 1
            else Max(SuffixLcs(ma, mb, x + 1, y), SuffixLcs(ma, mb, x, y + 1))
  {
    assert ma[x..][1..] == ma[x + 1..];
    assert mb[y..][1..] == mb[y + 1..];
  }

  /** Cell (x, y) of table t holds the LCS length of ma[x..] and mb[y..]. */
  ghost predicate CellDone(t: seq<int32>, ma: seq<Line>, mb: seq<Line>, x: nat, y: nat) {
    && x <= |ma| && y <= |mb| && Cell(x, y, mb) < |t|
    && t[Cell(x, y, mb)] as int == SuffixLcs(ma, mb, x, y)
  }

  /** Row x is done from column y on, and so are all lower rows. The last column
      is zero and done from the start. */
  ghost predicate DoneFrom(t: seq<int32>, ma: seq<Line>, mb: seq<Line>, x: nat, y: nat) {
    && |t| == (|ma| + 1) * (|mb| + 1)
    && forall u: nat, v: nat :: u <= |ma| && v <= |mb| && (u > x || (u == x && v >= y) || v == |mb|)
         ==> CellDone(t, ma, mb, u, v)
  }

  lemma {:induction false} ZeroTable(t: seq<int32>, ma: seq<Line>, mb: seq<Line>)
    requires |t| == (|ma| + 1) * (|mb| + 1) && forall k :: 0 <= k < |t| ==> t[k] == 0
    ensures DoneFrom(t, ma, mb, |ma|, 0)
  {
    forall u: nat, v: nat | u <= |ma| && v <= |mb| && (u == |ma| || v == |mb|)
      ensures CellDone(t, ma, mb, u, v)
    {
      CellInRange(u, v, mb, |ma| + 1);
    }
  }

  lemma {:induction false} WriteCell(t: seq<int32>, ma: seq<Line>, mb: seq<Line>, x: nat, y: nat, n: int32)
    requires x < |ma| && y < |mb| && DoneFrom(t, ma, mb, x, y + 1)
    requires n as int == SuffixLcs(ma, mb, x, y)
    ensures Cell(x, y, mb) < |t| && DoneFrom(t[Cell(x, y, mb) := n], ma, mb, x, y)
  {
    CellInRange(x, y, mb, |ma| + 1);
    var t' := t[Cell(x, y, mb) := n];
    forall u: nat, v: nat | u <= |ma| && v <= |mb| && (u > x || (u == x && v >= y) || v == |mb|)
      ensures CellDone(t', ma, mb, u, v)
    {
      if u != x || v != y {
        assert CellDone(t, ma, mb, u, v);
        if u < x {
          CellOrder(u, v, x, y, mb);
        } else if x < u {
          CellOrder(x, y, u, v, mb);
        }
      }
    }
  }

  /** The table loops of diffOps: afterwards lcs[x][y] is the LCS length of ma[x:] and mb[y:]. */
  method FillTable(ma: seq<Line>, mb: seq<Line>) returns (lcs: array<int32>)
    requires |ma| * |mb| <= MAX_DIFF_CELLS
    ensures fresh(lcs) && DoneFrom(lcs[..], ma, mb, 0, 0)
  {
    var w := |mb| + 1;
    lcs := new int32[(|ma| + 1) * w](_ => 0);
    ZeroTable(lcs[..], ma, mb);
    var x := |ma|;
    while x > 0
      invariant 0 <= x <= |ma|
      invariant DoneFrom(lcs[..], ma, mb, x, 0)
    {
      x := x - 1;
      var y := |mb|;
      while y > 0
        invariant 0 <= y <= |mb|
        invariant DoneFrom(lcs[..], ma, mb, x, y)
      {
        y := y - 1;
        ghost var t := lcs[..];
        assert CellDone(t, ma, mb, x + 1, y) && CellDone(t, ma, mb, x, y + 1) && CellDone(t, ma, mb, x + 1, y + 1);
        SuffixLcsStep(ma, mb, x, y);
        SuffixLcsBound(ma, mb, x, y);
        CellInRange(x, y, mb, |ma| + 1);
        if ma[x] == mb[y] {
          lcs[x * w + y] := lcs[(x + 1) * w + y + 1] + 1;
        } else {
          lcs[x * w + y] := MaxInt32(lcs[(x + 1) * w + y], lcs[x * w + y + 1]);
        }
        WriteCell(t, ma, mb, x, y, lcs[x * w + y]);
        assert lcs[..] == t[Cell(x, y, mb) := lcs[x * w + y]];
      }
    }
  }

  function MaxInt32(x: int32, y: int32): int32 { if x >= y then x else y }

  /** What diffOps promises: a correct script, and one that keeps a longest common
      subsequence unless the changed middles are too big for the table. */
  ghost predicate GoodScript(ops: seq<Op>, a: seq<Line>, b: seq<Line>) {
    && Script(ops, a, b)
    && (TableFits(a, b) ==> |Kept(ops)| == LcsLength(a, b))
  }

  /** A script for the first i lines of a and the first j lines of b. */
  ghost predicate ScriptUpTo(ops: seq<Op>, a: seq<Line>, b: seq<Line>, i: nat, j: nat) {
    i <= |a| && j <= |b| && Script(ops, a[..i], b[..j])
  }

  /** The emit closure: appends one op and moves i and j past the line it covers. */
  method Emit(ops: seq<Op>, kind: Kind, line: Line, i: nat, j: nat, ghost a: seq<Line>, ghost b: seq<Line>)
    returns (ops': seq<Op>, i': nat, j': nat)
    requires ScriptUpTo(ops, a, b, i, j)
    requires kind != Insert ==> i < |a| && a[i] == line
    requires kind != Delete ==> j < |b| && b[j] == line
    ensures ScriptUpTo(ops', a, b, i', j')
    ensures i' == i + (if kind == Insert then 0 else 1) && j' == j + (if kind == Delete then 0 else 1)
    ensures |Kept(ops')| == |Kept(ops)| + (if kind == Keep then 1 else 0)
    ensures EndsInInsert(ops') == (kind == Insert)
    ensures DeletesFirst(ops) && (kind == Delete ==> !EndsInInsert(ops)) ==> DeletesFirst(ops')
  {
    ops', i', j' := ops + [Op(kind, line, i, j)], i, j;
    if DeletesFirst(ops) && (kind == Delete ==> !EndsInInsert(ops)) {
      DeletesFirstSnoc(ops, Op(kind, line, i, j));
    }
    Snoc(ops, Op(kind, line, i, j));
    PositionedSnoc(ops, Op(kind, line, i, j));
    if kind != Insert {
      i' := i + 1;
      assert a[..i'] == a[..i] + [line];
    }
    if kind != Delete {
      j' := j + 1;
      assert b[..j'] == b[..j] + [line];
    }
  }

  /** The first two loops of diffOps. */
  method Trim(a: seq<Line>, b: seq<Line>) returns (pre: nat, suf: nat)
    ensures (pre, suf) == Trimmed(a, b)
  {
    pre := 0;
    while pre < |a| && pre < |b| && a[pre] == b[pre]
      invariant pre <= |a| && pre <= |b|
      invariant PrefixEnd(a, b, 0) == PrefixEnd(a, b, pre)
    {
      pre := pre + 1;
    }
    suf := 0;
    while suf < |a| - pre && suf < |b| - pre && a[|a| - 1 - suf] == b[|b| - 1 - suf]
      invariant pre + suf <= |a| && pre + suf <= |b|
      invariant SuffixLength(a, b, pre, 0) == SuffixLength(a, b, pre, suf)
    {
      suf := suf + 1;
    }
  }

  /** What the walk reads off the table: where the longer common subsequence lies. */
  lemma {:induction false} CompareCells(t: seq<int32>, ma: seq<Line>, mb: seq<Line>, x: nat, y: nat)
    requires DoneFrom(t, ma, mb, 0, 0) && x < |ma| && y < |mb|
    ensures Cell(x + 1, y, mb) < |t| && Cell(x, y + 1, mb) < |t|
    ensures SuffixLcs(ma, mb, x, y) ==
            if ma[x] == mb[y] then SuffixLcs(ma, mb, x + 1, y + 1) + 1
            else if t[Cell(x + 1, y, mb)] >= t[Cell(x, y + 1, mb)] then SuffixLcs(ma, mb, x + 1, y)
            else SuffixLcs(ma, mb, x, y + 1)
  {
    SuffixLcsStep(ma, mb, x, y);
    assert CellDone(t, ma, mb, x + 1, y) && CellDone(t, ma, mb, x, y + 1);
  }

  lemma {:induction false} DropNoGain(a: seq<Line>, b: seq<Line>)
    requires b != []
    ensures LcsLength(a, b[1..]) <= LcsLength(a, b)
  {
    var c := LcsIsAttained(a, b[1..]);
    SubseqDrop(c, b);
    LcsIsUpperBound(c, a, b);
  }

  /** Every longest common subsequence of the rests needs the line ma[x]. */
  predicate NeedsOld(ma: seq<Line>, mb: seq<Line>, x: nat, y: nat)
    requires x <= |ma| && y <= |mb|
  {
    x < |ma| ==> SuffixLcs(ma, mb, x + 1, y) < SuffixLcs(ma, mb, x, y)
  }

  /** The walk inserts only where the old line is still needed, and then needs it until it keeps it. */
  lemma {:induction false} InsertKeepsNeed(ma: seq<Line>, mb: seq<Line>, x: nat, y: nat)
    requires x <= |ma| && y < |mb| && (x < |ma| ==> ma[x] != mb[y] && SuffixLcs(ma, mb, x + 1, y) < SuffixLcs(ma, mb, x, y + 1))
    ensures NeedsOld(ma, mb, x, y + 1)
  {
    if x < |ma| {
      assert mb[y..][1..] == mb[y + 1..];
      DropNoGain(ma[x + 1..], mb[y..]);
    }
  }

  /** A needed line is not deleted. */
  lemma {:induction false} NeededIsKept(t: seq<int32>, ma: seq<Line>, mb: seq<Line>, x: nat, y: nat)
    requires DoneFrom(t, ma, mb, 0, 0) && x < |ma| && y <= |mb| && NeedsOld(ma, mb, x, y)
    ensures y < |mb|
    ensures ma[x] != mb[y] ==> Cell(x + 1, y, mb) < |t| && Cell(x, y + 1, mb) < |t| && t[Cell(x + 1, y, mb)] < t[Cell(x, y + 1, mb)]
  {
    LcsBound(ma[x..], mb[y..]);
    if y < |mb| {
      CompareCells(t, ma, mb, x, y);
    }
  }

  /** The walk has come to x and y; after an insertion the next old line is needed. */
  ghost predicate Walking(ops: seq<Op>, a: seq<Line>, b: seq<Line>, pre: nat, ma: seq<Line>, mb: seq<Line>, x: nat, y: nat) {
    && x <= |ma| && y <= |mb| && ScriptUpTo(ops, a, b, pre + x, pre + y)
    && DeletesFirst(ops) && (EndsInInsert(ops) ==> NeedsOld(ma, mb, x, y))
  }

  /** One turn of the walk. */
  method WalkStep(ops0: seq<Op>, a: seq<Line>, b: seq<Line>, pre: nat, ma: seq<Line>, mb: seq<Line>, lcs: array<int32>, x: nat, y: nat)
    returns (ops: seq<Op>, x': nat, y': nat)
    requires pre + |ma| <= |a| && a[pre..pre + |ma|] == ma
    requires pre + |mb| <= |b| && b[pre..pre + |mb|] == mb
    requires DoneFrom(lcs[..], ma, mb, 0, 0)
    requires Walking(ops0, a, b, pre, ma, mb, x, y) && (x < |ma| || y < |mb|)
    ensures x <= x' && y <= y' && x + y < x' + y' && Walking(ops, a, b, pre, ma, mb, x', y')
    ensures |Kept(ops)| + SuffixLcs(ma, mb, x', y') == |Kept(ops0)| + SuffixLcs(ma, mb, x, y)
  {
    hide ScriptUpTo, DoneFrom, SuffixLcs, DeletesFirst, EndsInInsert, Kept;
    var w := |mb| + 1;
    var i, j := pre + x, pre + y;
    assert x < |ma| ==> a[pre..pre + |ma|][x] == a[i];
    assert y < |mb| ==> b[pre..pre + |mb|][y] == b[j];
    if x < |ma| && y < |mb| {
      CompareCells(lcs[..], ma, mb, x, y);
    }
    if x < |ma| && EndsInInsert(ops0) {
      NeededIsKept(lcs[..], ma, mb, x, y);
    }
    if x < |ma| && y < |mb| && ma[x] == mb[y] {
      ops, i, j := Emit(ops0, Keep, ma[x], i, j, a, b);
      return ops, x + 1, y + 1;
    } else if x < |ma| && (y == |mb| || lcs[(x + 1) * w + y] >= lcs[x * w + y + 1]) {
      LastColumn(ma, mb, x, y);
      ops, i, j := Emit(ops0, Delete, ma[x], i, j, a, b);
      return ops, x + 1, y;
    }
    LastRow(ma, mb, x, y);
    if x < |ma| {
      LessInTable(lcs[..], ma, mb, x, y);
    }
    InsertKeepsNeed(ma, mb, x, y);
    ops, i, j := Emit(ops0, Insert, mb[y], i, j, a, b);
    return ops, x, y + 1;
  }

  /** Where one file is used up, nothing in common is left. */
  lemma {:induction false} LastColumn(ma: seq<Line>, mb: seq<Line>, x: nat, y: nat)
    requires x < |ma| && y <= |mb|
    ensures y == |mb| ==> SuffixLcs(ma, mb, x, y) == 0 == SuffixLcs(ma, mb, x + 1, y)
  {
    LcsBound(ma[x..], mb[y..]);
    LcsBound(ma[x + 1..], mb[y..]);
  }

  lemma {:induction false} LastRow(ma: seq<Line>, mb: seq<Line>, x: nat, y: nat)
    requires x <= |ma| && y < |mb|
    ensures x == |ma| ==> SuffixLcs(ma, mb, x, y) == 0 == SuffixLcs(ma, mb, x, y + 1)
  {
    LcsBound(ma[x..], mb[y..]);
    LcsBound(ma[x..], mb[y + 1..]);
  }

  lemma {:induction false} LessInTable(t: seq<int32>, ma: seq<Line>, mb: seq<Line>, x: nat, y: nat)
    requires DoneFrom(t, ma, mb, 0, 0) && x < |ma| && y < |mb|
    ensures Cell(x + 1, y, mb) < |t| && Cell(x, y + 1, mb) < |t|
    ensures t[Cell(x + 1, y, mb)] < t[Cell(x, y + 1, mb)] <==> SuffixLcs(ma, mb, x + 1, y) < SuffixLcs(ma, mb, x, y + 1)
  {
    assert CellDone(t, ma, mb, x + 1, y) && CellDone(t, ma, mb, x, y + 1);
  }

  /** The walk through the table: deletions before insertions, as in diff -u. */
  method Walk(ops0: seq<Op>, a: seq<Line>, b: seq<Line>, pre: nat, ma: seq<Line>, mb: seq<Line>)
    returns (ops: seq<Op>)
    requires ScriptUpTo(ops0, a, b, pre, pre) && |ma| * |mb| <= MAX_DIFF_CELLS
    requires pre + |ma| <= |a| && a[pre..pre + |ma|] == ma
    requires pre + |mb| <= |b| && b[pre..pre + |mb|] == mb
    requires DeletesFirst(ops0) && !EndsInInsert(ops0)
    ensures ScriptUpTo(ops, a, b, pre + |ma|, pre + |mb|) && DeletesFirst(ops)
    ensures |Kept(ops)| == |Kept(ops0)| + LcsLength(ma, mb)
  {
    hide ScriptUpTo, DoneFrom, DeletesFirst, EndsInInsert, Kept, NeedsOld;
    var lcs := FillTable(ma, mb);
    ops := ops0;
    var x, y := 0, 0;
    assert ma[0..] == ma && mb[0..] == mb;
    while x < |ma| || y < |mb|
      invariant x <= |ma| && y <= |mb| && Walking(ops, a, b, pre, ma, mb, x, y)
      invariant DoneFrom(lcs[..], ma, mb, 0, 0)
      invariant |Kept(ops)| + SuffixLcs(ma, mb, x, y) == |Kept(ops0)| + LcsLength(ma, mb)
      decreases |ma| + |mb| - x - y
    {
      ops, x, y := WalkStep(ops, a, b, pre, ma, mb, lcs, x, y);
    }
    LcsBound(ma[x..], mb[y..]);
  }

  /** The coarse branch: the whole middle as one replacement. */
  method Replace(ops0: seq<Op>, a: seq<Line>, b: seq<Line>, pre: nat, ma: seq<Line>, mb: seq<Line>)
    returns (ops: seq<Op>)
    requires ScriptUpTo(ops0, a, b, pre, pre)
    requires pre + |ma| <= |a| && a[pre..pre + |ma|] == ma
    requires pre + |mb| <= |b| && b[pre..pre + |mb|] == mb
    requires DeletesFirst(ops0) && !EndsInInsert(ops0)
    ensures ScriptUpTo(ops, a, b, pre + |ma|, pre + |mb|) && DeletesFirst(ops)
    ensures |Kept(ops)| == |Kept(ops0)|
  {
    hide DeletesFirst, EndsInInsert, Kept;
    ops := ops0;
    var i, j := pre, pre;
    for k := 0 to |ma|
      invariant i == pre + k && j == pre && ScriptUpTo(ops, a, b, i, j)
      invariant DeletesFirst(ops) && !EndsInInsert(ops) && |Kept(ops)| == |Kept(ops0)|
    {
      ops, i, j := Emit(ops, Delete, ma[k], i, j, a, b);
    }
    for k := 0 to |mb|
      invariant i == pre + |ma| && j == pre + k && ScriptUpTo(ops, a, b, i, j)
      invariant DeletesFirst(ops) && |Kept(ops)| == |Kept(ops0)|
    {
      ops, i, j := Emit(ops, Insert, mb[k], i, j, a, b);
    }
  }

  /** Trimming loses nothing: the LCS of the files is the trimmed lines plus the LCS of the middles. */
  lemma {:induction false} TrimmedLcs(a: seq<Line>, b: seq<Line>)
    ensures var t := Trimmed(a, b);
      LcsLength(a, b) == t.0 + LcsLength(Middle(a, t), Middle(b, t)) + t.1
  {
    var t := Trimmed(a, b);
    SplitAt(a, t.0, t.1);
    SplitAt(b, t.0, t.1);
    LcsTrim(a[..t.0], Middle(a, t), Middle(b, t), a[|a| - t.1..]);
  }

  lemma {:induction false} SplitAt(f: seq<Line>, p: nat, s: nat)
    requires p + s <= |f|
    ensures f == f[..p] + f[p..|f| - s] + f[|f| - s..]
  {}

  /** A script that keeps as many lines as DiffOps does while the table fits has the fewest changes of all. */
  lemma {:induction false} DiffIsMinimal(ops: seq<Op>)
    requires |Kept(ops)| == LcsLength(Olds(ops), News(ops))
    ensures Minimal(ops)
    ensures forall c :: Common(c, Olds(ops), News(ops)) ==> |c| <= |Kept(ops)|
  {
    forall other | Olds(other) == Olds(ops) && News(other) == News(ops)
      ensures Changes(ops) <= Changes(other)
    {
      LongestKeepIsMinimal(ops, other);
    }
    forall c | Common(c, Olds(ops), News(ops))
      ensures |c| <= |Kept(ops)|
    {
      LcsIsUpperBound(c, Olds(ops), News(ops));
    }
  }

  /** diffOps: a line edit script from a to b, minimal while the table fits; in every run of changes
      the deletions come before the insertions. */
  method DiffOps(a: seq<Line>, b: seq<Line>) returns (ops: seq<Op>)
    ensures GoodScript(ops, a, b) && DeletesFirst(ops)
    ensures TableFits(a, b) ==> Minimal(ops)
    ensures !TableFits(a, b) ==> |Kept(ops)| == Trimmed(a, b).0 + Trimmed(a, b).1
  {
    hide DeletesFirst, EndsInInsert, Minimal;
    var pre, suf := Trim(a, b);
    ops := EmitPrefix(a, b, pre);
    var ma, mb := a[pre..|a| - suf], b[pre..|b| - suf];
    assert ma == Middle(a, Trimmed(a, b)) && mb == Middle(b, Trimmed(a, b));
    if |ma| * |mb| > MAX_DIFF_CELLS {
      ops := Replace(ops, a, b, pre, ma, mb);
    } else {
      ops := Walk(ops, a, b, pre, ma, mb);
    }
    ops := EmitSuffix(ops, a, b, suf);
    TrimmedLcs(a, b);
    if TableFits(a, b) {
      DiffIsMinimal(ops);
    }
  }

  /** The loop that keeps the common prefix. */
  method EmitPrefix(a: seq<Line>, b: seq<Line>, pre: nat) returns (ops: seq<Op>)
    requires pre <= |a| && pre <= |b| && a[..pre] == b[..pre]
    ensures ScriptUpTo(ops, a, b, pre, pre) && |Kept(ops)| == pre
    ensures DeletesFirst(ops) && !EndsInInsert(ops)
  {
    ops := [];
    var i, j := 0, 0;
    while i < pre
      invariant i == j <= pre && ScriptUpTo(ops, a, b, i, j) && |Kept(ops)| == i
      invariant DeletesFirst(ops) && !EndsInInsert(ops)
    {
      assert a[i] == a[..pre][i] == b[..pre][i] == b[i];
      ops, i, j := Emit(ops, Keep, a[i], i, j, a, b);
    }
  }

  /** The last loop of diffOps. */
  method EmitSuffix(ops0: seq<Op>, a: seq<Line>, b: seq<Line>, suf: nat) returns (ops: seq<Op>)
    requires suf <= |a| && suf <= |b| && a[|a| - suf..] == b[|b| - suf..]
    requires ScriptUpTo(ops0, a, b, |a| - suf, |b| - suf) && DeletesFirst(ops0)
    ensures Script(ops, a, b) && |Kept(ops)| == |Kept(ops0)| + suf && DeletesFirst(ops)
  {
    hide DeletesFirst, EndsInInsert;
    ops := ops0;
    var i, j := |a| - suf, |b| - suf;
    while i < |a|
      invariant |a| - suf <= i <= |a| && j == i + |b| - |a|
      invariant ScriptUpTo(ops, a, b, i, j) && |Kept(ops)| == |Kept(ops0)| + i - (|a| - suf)
      invariant DeletesFirst(ops)
    {
      assert a[i] == a[|a| - suf..][i - (|a| - suf)] == b[|b| - suf..][i - (|a| - suf)] == b[j];
      ops, i, j := Emit(ops, Keep, a[i], i, j, a, b);
    }
    assert a[..|a|] == a && b[..|b|] == b;
  }
}

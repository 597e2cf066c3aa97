/** Edit scripts (the diffOp lists of gen/diff.go): what they say about the old
    and the new file, and when one is a correct or a minimal script. */
module EditScripts {
  import opened Subsequences

  datatype Kind = Keep | Delete | Insert

  /** One line of a script with the 0-based old and new line numbers at that point. */
  datatype Op = Op(kind: Kind, line: Line, a: nat, b: nat)

  predicate IsChange(op: Op) { op.kind != Keep }

  /** The old-file lines a script mentions. */
  function Olds(ops: seq<Op>): seq<Line> {
    if ops == [] then []
    else (if ops[0].kind == Insert then [] else [ops[0].line]) + Olds(ops[1..])
  }

  /** The new-file lines a script mentions. */
  function News(ops: seq<Op>): seq<Line> {
    if ops == [] then []
    else (if ops[0].kind == Delete then [] else [ops[0].line]) + News(ops[1..])
  }

  /** The lines a script keeps. */
  function Kept(ops: seq<Op>): seq<Line> {
    if ops == [] then []
    else (if ops[0].kind == Keep then [ops[0].line] else []) + Kept(ops[1..])
  }

  function Changes(ops: seq<Op>): nat {
    if ops == [] then 0 else (if IsChange(ops[0]) then 1 else 0) + Changes(ops[1..])
  }

  /** The a and b fields count the old and new lines that come before each op. */
  ghost predicate Positioned(ops: seq<Op>) {
    forall k :: 0 <= k < |ops| ==> ops[k].a == |Olds(ops[..k])| && ops[k].b == |News(ops[..k])|
  }

  /** ops turns a into b. */
  ghost predicate Script(ops: seq<Op>, a: seq<Line>, b: seq<Line>) {
    Olds(ops) == a && News(ops) == b && Positioned(ops)
  }

  /** Between two kept lines the deletions come first. */
  ghost predicate DeletesFirst(ops: seq<Op>) {
    forall k :: 0 < k < |ops| && ops[k].kind == Delete ==> ops[k - 1].kind != Insert
  }

  /** The script ends in an insertion. */
  predicate EndsInInsert(ops: seq<Op>) { ops != [] && ops[|ops| - 1].kind == Insert }

  lemma {:induction false} DeletesFirstSnoc(ops: seq<Op>, op: Op)
    requires DeletesFirst(ops) && (op.kind == Delete ==> !EndsInInsert(ops))
    ensures DeletesFirst(ops + [op]) && EndsInInsert(ops + [op]) == (op.kind == Insert)
  {}

  lemma {:induction false} ConcatOlds(x: seq<Op>, y: seq<Op>)
    ensures Olds(x + y) == Olds(x) + Olds(y)
  {
    if x == [] {
      assert x + y == y;
    } else {
      assert (x + y)[1..] == x[1..] + y;
      ConcatOlds(x[1..], y);
    }
  }

  lemma {:induction false} ConcatNews(x: seq<Op>, y: seq<Op>)
    ensures News(x + y) == News(x) + News(y)
  {
    if x == [] {
      assert x + y == y;
    } else {
      assert (x + y)[1..] == x[1..] + y;
      ConcatNews(x[1..], y);
    }
  }

  lemma {:induction false} ConcatKept(x: seq<Op>, y: seq<Op>)
    ensures Kept(x + y) == Kept(x) + Kept(y)
  {
    if x == [] {
      assert x + y == y;
    } else {
      assert (x + y)[1..] == x[1..] + y && (x + y)[0] == x[0];
      ConcatKept(x[1..], y);
    }
  }

  lemma {:induction false} Snoc(ops: seq<Op>, op: Op)
    ensures Olds(ops + [op]) == Olds(ops) + (if op.kind == Insert then [] else [op.line])
    ensures News(ops + [op]) == News(ops) + (if op.kind == Delete then [] else [op.line])
    ensures Kept(ops + [op]) == Kept(ops) + (if op.kind == Keep then [op.line] else [])
  {
    ConcatOlds(ops, [op]);
    ConcatNews(ops, [op]);
    ConcatKept(ops, [op]);
  }

  lemma {:induction false} PositionedSnoc(ops: seq<Op>, op: Op)
    requires Positioned(ops) && op.a == |Olds(ops)| && op.b == |News(ops)|
    ensures Positioned(ops + [op])
  {
    forall k | 0 <= k < |ops + [op]|
      ensures (ops + [op])[k].a == |Olds((ops + [op])[..k])|
      ensures (ops + [op])[k].b == |News((ops + [op])[..k])|
    {
      assert (ops + [op])[..k] == ops[..k];
      assert ops[..|ops|] == ops;
    }
  }

  /** Whatever a script keeps is a common subsequence of its two files. */
  lemma {:induction false} KeptIsCommon(ops: seq<Op>)
    ensures Common(Kept(ops), Olds(ops), News(ops))
  {
    if ops != [] {
      KeptIsCommon(ops[1..]);
      var op := ops[0];
      match op.kind {
        case Keep =>
          assert Kept(ops)[1..] == Kept(ops[1..]);
          assert Olds(ops)[1..] == Olds(ops[1..]);
          assert News(ops)[1..] == News(ops[1..]);
        case Delete =>
          assert Kept(ops) == Kept(ops[1..]) && News(ops) == News(ops[1..]);
          assert Olds(ops)[1..] == Olds(ops[1..]);
        case Insert =>
          assert Kept(ops) == Kept(ops[1..]) && Olds(ops) == Olds(ops[1..]);
          assert News(ops)[1..] == News(ops[1..]);
      }
    }
  }

  /** Every line of the two files is kept or changed, and nothing else is. */
  lemma {:induction false} ChangesAreTheRest(ops: seq<Op>)
    ensures |Olds(ops)| + |News(ops)| == 2 * |Kept(ops)| + Changes(ops)
  {
    if ops != [] {
      ChangesAreTheRest(ops[1..]);
    }
  }

  /** A script that keeps a longest common subsequence has the fewest changes
      of all scripts between its two files. */
  lemma {:induction false} LongestKeepIsMinimal(ops: seq<Op>, other: seq<Op>)
    requires Olds(other) == Olds(ops) && News(other) == News(ops)
    requires |Kept(ops)| == LcsLength(Olds(ops), News(ops))
    ensures Changes(ops) <= Changes(other)
  {
    KeptIsCommon(other);
    ChangesAreTheRest(ops);
    ChangesAreTheRest(other);
    LcsIsUpperBound(Kept(other), Olds(ops), News(ops));
  }

  /** No script between the same two files has fewer changes. */
  ghost predicate Minimal(ops: seq<Op>) {
    forall other :: Olds(other) == Olds(ops) && News(other) == News(ops) ==> Changes(ops) <= Changes(other)
  }

  /** No changes: the two files are equal; equal files: a minimal script has no changes. */
  lemma {:induction false} UnchangedIsEqual(ops: seq<Op>)
    requires forall k :: 0 <= k < |ops| ==> !IsChange(ops[k])
    ensures Olds(ops) == News(ops)
  {
    if ops != [] {
      UnchangedIsEqual(ops[1..]);
    }
  }
}

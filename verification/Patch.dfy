/** The diff read back: a strict patch tool over the hunks that unifiedDiff prints,
    and the round trip with it. */
module Patch {
  import opened Subsequences
  import opened EditScripts
  import opened Diff
  import opened Hunks
  import opened Options

  /** Applies hunks to the lines of a from line pos on; out is what was produced before.
      Fails on any header that does not fit: a start before pos or past the end, a context
      or deleted line that differs, a new-side start other than the lines produced so far,
      or a count other than the body's. */
  function Apply(a: seq<Line>, hunks: seq<Hunk>, pos: nat, out: seq<Line>): Option<seq<Line>>
    requires pos <= |a|
    decreases |hunks|
  {
    if hunks == [] then Some(out + a[pos..])
    else
      var h := hunks[0];
      var start := FirstLine(h.aRange);
      if start < pos || start + h.aRange.count > |a| then None
      else
        var copied := out + a[pos..start];
        if FirstLine(h.bRange) != |copied|
           || a[start..start + h.aRange.count] != Olds(h.body)
           || h.bRange.count != |News(h.body)|
        then None
        else Apply(a, hunks[1..], start + h.aRange.count, copied + News(h.body))
  }

  /** The reverse of a script or of a hunk: deletions become insertions. */
  function Flip(op: Op): Op {
    Op(match op.kind case Keep => Keep case Delete => Insert case Insert => Delete, op.line, op.b, op.a)
  }

  function Reverse(ops: seq<Op>): seq<Op> {
    seq(|ops|, i requires 0 <= i < |ops| => Flip(ops[i]))
  }

  function ReverseHunk(h: Hunk): Hunk { Hunk(h.bRange, h.aRange, Reverse(h.body)) }

  function ReverseHunks(hunks: seq<Hunk>): seq<Hunk> {
    seq(|hunks|, i requires 0 <= i < |hunks| => ReverseHunk(hunks[i]))
  }

  lemma {:induction false} SliceLines(ops: seq<Op>, i: nat, j: nat)
    requires i <= j <= |ops|
    ensures Olds(ops[..j]) == Olds(ops[..i]) + Olds(ops[i..j])
    ensures News(ops[..j]) == News(ops[..i]) + News(ops[i..j])
  {
    assert ops[..j] == ops[..i] + ops[i..j];
    ConcatOlds(ops[..i], ops[i..j]);
    ConcatNews(ops[..i], ops[i..j]);
  }

  /** The old lines of ops[i..j] sit in the old file right after those of ops[..i]. */
  lemma {:induction false} OldsOfSlice(ops: seq<Op>, i: nat, j: nat)
    requires i <= j <= |ops|
    ensures |Olds(ops[..i])| + |Olds(ops[i..j])| == |Olds(ops[..j])| <= |Olds(ops)|
    ensures Olds(ops)[|Olds(ops[..i])|..|Olds(ops[..j])|] == Olds(ops[i..j])
  {
    SliceLines(ops, i, j);
    SliceLines(ops, j, |ops|);
    assert ops[..|ops|] == ops;
  }

  lemma {:induction false} UnchangedSlice(ops: seq<Op>, i: nat, j: nat)
    requires i <= j <= |ops| && Unchanged(ops, i, j)
    ensures Olds(ops[i..j]) == News(ops[i..j])
  {
    UnchangedIsEqual(ops[i..j]);
  }

  /** The printed ranges of a hunk give back the positions and counts of its lines. */
  lemma {:induction false} HeaderReads(ops: seq<Op>, s: Span)
    requires Positioned(ops) && s.lo < s.hi <= |ops|
    ensures FirstLine(HunkOf(ops, s).aRange) == |Olds(ops[..s.lo])|
    ensures FirstLine(HunkOf(ops, s).bRange) == |News(ops[..s.lo])|
    ensures HunkOf(ops, s).aRange.count == |Olds(ops[s.lo..s.hi])|
    ensures HunkOf(ops, s).bRange.count == |News(ops[s.lo..s.hi])|
  {}

  /** Line p comes after every change of spans[..k]. */
  ghost predicate Behind(spans: seq<Span>, k: nat, p: nat) {
    forall l :: 0 <= l < k && l < |spans| ==> spans[l].end <= p
  }

  /** Line q comes before every change of spans[k..]. */
  ghost predicate Ahead(spans: seq<Span>, k: nat, q: nat) {
    forall l :: k <= l < |spans| ==> q <= spans[l].first
  }

  /** Where hunk k ends it is behind every earlier span, where it starts it is ahead of the rest. */
  lemma {:induction false} SpanEdges(ops: seq<Op>, spans: seq<Span>, k: nat)
    requires Grouped(ops, spans, |ops|) && k < |spans|
    ensures spans[k].lo < spans[k].hi <= |ops| && (k == 0 || spans[k - 1].hi <= spans[k].lo)
    ensures Ahead(spans, k, spans[k].lo) && Behind(spans, k + 1, spans[k].hi)
  {
    assert SpanOk(ops, spans[k]);
    forall l | 0 <= l < |spans| && l != k
      ensures if l < k then spans[l].end <= spans[k].lo && spans[l].hi <= spans[k].lo else spans[k].lo <= spans[l].first
    {
      assert SpanOk(ops, spans[l]);
      assert if l < k then Apart(spans[l], spans[k]) else Apart(spans[k], spans[l]);
    }
  }

  /** Between one hunk and the next nothing changes. */
  lemma {:induction false} GapUnchanged(ops: seq<Op>, spans: seq<Span>, k: nat, p: nat, q: nat)
    requires Grouped(ops, spans, |ops|) && p <= q <= |ops| && Behind(spans, k, p) && Ahead(spans, k, q)
    ensures Unchanged(ops, p, q)
  {
    forall i: nat | p <= i < q && i < |ops|
      ensures !IsChange(ops[i])
    {
      assert forall l :: 0 <= l < |spans| ==> !InSpan(spans[l], i);
      assert !Covered(spans, i);
    }
  }

  /** Copying the old lines of an unchanged gap produces its new lines. */
  lemma {:induction false} GapCopied(ops: seq<Op>, i: nat, j: nat)
    requires i <= j <= |ops| && Unchanged(ops, i, j)
    ensures |Olds(ops[..i])| <= |Olds(ops[..j])| <= |Olds(ops)|
    ensures News(ops[..i]) + Olds(ops)[|Olds(ops[..i])|..|Olds(ops[..j])|] == News(ops[..j])
  {
    OldsOfSlice(ops, i, j);
    UnchangedSlice(ops, i, j);
    SliceLines(ops, i, j);
  }

  /** One successful step of Apply. */
  lemma {:induction false} ApplyStep(a: seq<Line>, hunks: seq<Hunk>, pos: nat, start: nat, out: seq<Line>, copied: seq<Line>)
    requires hunks != [] && pos <= start == FirstLine(hunks[0].aRange) && start + hunks[0].aRange.count <= |a|
    requires copied == out + a[pos..start] && FirstLine(hunks[0].bRange) == |copied|
    requires a[start..start + hunks[0].aRange.count] == Olds(hunks[0].body)
    requires hunks[0].bRange.count == |News(hunks[0].body)|
    ensures Apply(a, hunks, pos, out)
         == Apply(a, hunks[1..], start + hunks[0].aRange.count, copied + News(hunks[0].body))
  {}

  /** The hunk of ops[s.lo..s.hi] takes a reader from line p of the script to line s.hi. */
  lemma {:induction false} HunkApplies(ops: seq<Op>, s: Span, hunks: seq<Hunk>, p: nat)
    requires Positioned(ops) && p <= s.lo < s.hi <= |ops| && Unchanged(ops, p, s.lo)
    requires hunks != [] && hunks[0] == HunkOf(ops, s)
    ensures |Olds(ops[..p])| <= |Olds(ops)| && |Olds(ops[..s.hi])| <= |Olds(ops)|
    ensures Apply(Olds(ops), hunks, |Olds(ops[..p])|, News(ops[..p]))
         == Apply(Olds(ops), hunks[1..], |Olds(ops[..s.hi])|, News(ops[..s.hi]))
  {
    GapCopied(ops, p, s.lo);
    OldsOfSlice(ops, s.lo, s.hi);
    SliceLines(ops, s.lo, s.hi);
    HeaderReads(ops, s);
    ApplyStep(Olds(ops), hunks, |Olds(ops[..p])|, |Olds(ops[..s.lo])|, News(ops[..p]), News(ops[..s.lo]));
  }

  lemma {:induction false} TailCopied(ops: seq<Op>, p: nat)
    requires p <= |ops| && Unchanged(ops, p, |ops|)
    ensures |Olds(ops[..p])| <= |Olds(ops)|
    ensures Apply(Olds(ops), [], |Olds(ops[..p])|, News(ops[..p])) == Some(News(ops))
  {
    GapCopied(ops, p, |ops|);
    assert ops[..|ops|] == ops;
    assert Olds(ops)[|Olds(ops[..p])|..|Olds(ops)|] == Olds(ops)[|Olds(ops[..p])|..];
  }

  /** From any line behind the hunks already read, the remaining hunks give the rest of the new file. */
  lemma {:induction false} ApplyFrom(ops: seq<Op>, spans: seq<Span>, hunks: seq<Hunk>, k: nat, p: nat)
    requires Positioned(ops) && Grouped(ops, spans, |ops|) && Prints(ops, spans, hunks)
    requires k <= |spans| && p <= |ops| && Behind(spans, k, p) && (k < |spans| ==> p <= spans[k].lo)
    ensures |Olds(ops[..p])| <= |Olds(ops)|
    ensures Apply(Olds(ops), hunks[k..], |Olds(ops[..p])|, News(ops[..p])) == Some(News(ops))
    decreases |spans| - k
  {
    hide Positioned, Grouped, Unchanged, Apply, Olds, News, HunkOf, IsChange;
    if k == |spans| {
      GapUnchanged(ops, spans, k, p, |ops|);
      TailCopied(ops, p);
      assert hunks[k..] == [];
    } else {
      SpanEdges(ops, spans, k);
      GapUnchanged(ops, spans, k, p, spans[k].lo);
      HunkApplies(ops, spans[k], hunks[k..], p);
      assert hunks[k..][1..] == hunks[k + 1..];
      if k + 1 < |spans| {
        SpanEdges(ops, spans, k + 1);
      }
      ApplyFrom(ops, spans, hunks, k + 1, spans[k].hi);
    }
  }

  /** Applying the hunks of a script to its old file gives its new file. */
  lemma {:induction false} HunksReplay(ops: seq<Op>, spans: seq<Span>, hunks: seq<Hunk>)
    requires Positioned(ops) && Grouped(ops, spans, |ops|) && Prints(ops, spans, hunks)
    ensures Apply(Olds(ops), hunks, 0, []) == Some(News(ops))
  {
    ApplyFrom(ops, spans, hunks, 0, 0);
    assert hunks[0..] == hunks && ops[..0] == [];
  }

  lemma {:induction false} ReverseLines(ops: seq<Op>)
    ensures Olds(Reverse(ops)) == News(ops) && News(Reverse(ops)) == Olds(ops)
  {
    if ops != [] {
      ReverseLines(ops[1..]);
      assert Reverse(ops)[1..] == Reverse(ops[1..]);
    }
  }

  lemma {:induction false} ReversePositioned(ops: seq<Op>)
    requires Positioned(ops)
    ensures Positioned(Reverse(ops))
  {
    forall k | 0 <= k < |ops|
      ensures Reverse(ops)[k].a == |Olds(Reverse(ops)[..k])|
      ensures Reverse(ops)[k].b == |News(Reverse(ops)[..k])|
    {
      assert Reverse(ops)[..k] == Reverse(ops[..k]);
      ReverseLines(ops[..k]);
    }
  }

  lemma {:induction false} ReverseGrouped(ops: seq<Op>, spans: seq<Span>)
    requires Grouped(ops, spans, |ops|)
    ensures Grouped(Reverse(ops), spans, |ops|)
  {
    var r := Reverse(ops);
    assert forall i :: 0 <= i < |ops| ==> IsChange(r[i]) == IsChange(ops[i]);
    forall k | 0 <= k < |spans|
      ensures SpanOk(r, spans[k])
    {
      SameSpan(ops, r, spans[k]);
    }
  }

  lemma {:induction false} SameSpan(ops: seq<Op>, r: seq<Op>, s: Span)
    requires |r| == |ops| && forall i :: 0 <= i < |ops| ==> IsChange(r[i]) == IsChange(ops[i])
    requires SpanOk(ops, s)
    ensures SpanOk(r, s)
  {
    forall i: nat | s.first <= i && i + 2 * DIFF_CONTEXT < s.end
      ensures !Pause(r, i)
    {
      assert !Pause(ops, i);
    }
  }

  lemma {:induction false} ReversePrints(ops: seq<Op>, spans: seq<Span>, hunks: seq<Hunk>)
    requires Prints(ops, spans, hunks)
    ensures Prints(Reverse(ops), spans, ReverseHunks(hunks))
  {
    forall k | 0 <= k < |spans|
      ensures ReverseHunk(hunks[k]) == HunkOf(Reverse(ops), spans[k])
    {
      var s := spans[k];
      assert Reverse(ops)[s.lo..s.hi] == Reverse(ops[s.lo..s.hi]);
      ReverseLines(ops[s.lo..s.hi]);
    }
  }

  /** unifiedDiff, on structured hunks: applying them to a gives b, applying their reverse
      to b gives a, and there are none exactly when a and b are equal. Every hunk is the
      printed form of one span of one good script from a to b. */
  method UnifiedDiff(a: seq<Line>, b: seq<Line>) returns (hunks: seq<Hunk>, ghost ops: seq<Op>, ghost spans: seq<Span>)
    ensures Apply(a, hunks, 0, []) == Some(b)
    ensures Apply(b, ReverseHunks(hunks), 0, []) == Some(a)
    ensures hunks == [] <==> a == b
    ensures GoodScript(ops, a, b) && DeletesFirst(ops) && Grouped(ops, spans, |ops|) && Prints(ops, spans, hunks)
  {
    hide DeletesFirst, Minimal;
    var script := DiffOps(a, b);
    ops := script;
    hunks, spans := GroupHunks(script);
    HunksReplay(ops, spans, hunks);
    ReverseLines(ops);
    ReversePositioned(ops);
    ReverseGrouped(ops, spans);
    ReversePrints(ops, spans, hunks);
    HunksReplay(Reverse(ops), spans, ReverseHunks(hunks));
    if a == b {
      EqualFilesFit(a);
      EqualFilesHaveNoHunks(ops, spans);
    }
  }

  lemma {:induction false} NoChanges(ops: seq<Op>, i: nat)
    requires Changes(ops) == 0 && i < |ops|
    ensures !IsChange(ops[i])
  {
    if i > 0 {
      NoChanges(ops[1..], i - 1);
    }
  }

  /** A script between equal files that keeps a longest common subsequence gives no hunk. */
  lemma {:induction false} EqualFilesHaveNoHunks(ops: seq<Op>, spans: seq<Span>)
    requires Olds(ops) == News(ops) && |Kept(ops)| == LcsLength(Olds(ops), News(ops))
    requires Grouped(ops, spans, |ops|)
    ensures spans == []
  {
    SelfLcs(Olds(ops));
    ChangesAreTheRest(ops);
    if spans != [] {
      assert SpanOk(ops, spans[0]);
      NoChanges(ops, spans[0].first);
    }
  }

  /** Equal files leave nothing in the middle, so their table fits. */
  lemma {:induction false} EqualFilesFit(a: seq<Line>)
    ensures TableFits(a, a)
  {
    PrefixOfSelf(a, 0);
    assert Middle(a, Trimmed(a, a)) == [];
  }

  lemma {:induction false} PrefixOfSelf(a: seq<Line>, i: nat)
    requires i <= |a|
    ensures PrefixEnd(a, a, i) == |a|
    decreases |a| - i
  {
    if i < |a| {
      PrefixOfSelf(a, i + 1);
    }
  }

  lemma {:induction false} SelfLcs(a: seq<Line>)
    ensures LcsLength(a, a) == |a|
  {
    if a != [] {
      SelfLcs(a[1..]);
    }
  }
}

/** gen/diff.go: grouping an edit script into unified-diff hunks, and what a patch
    tool makes of them. */
module Hunks {
  import opened EditScripts

  const DIFF_CONTEXT := 3

  /** The two numbers of a unified-diff range, as printed. */
  datatype Range = Range(line: nat, count: nat)

  datatype Hunk = Hunk(aRange: Range, bRange: Range, body: seq<Op>)

  /** hunkRange: a 0-based start and a length as printed. */
  function HunkRange(start: nat, n: nat): Range {
    if n == 0 then Range(start, 0) else Range(start + 1, n)
  }

  /** How a reader of the diff turns a printed range back into a 0-based start. */
  function FirstLine(r: Range): int {
    if r.count == 0 then r.line else r.line - 1
  }

  /** A group of ops that becomes one hunk: ops[first..end] runs from its first to
      its last change, ops[lo..hi] adds the context. */
  datatype Span = Span(lo: nat, first: nat, end: nat, hi: nat)

  ghost predicate Unchanged(ops: seq<Op>, from: nat, to: nat) {
    forall i :: from <= i < to && i < |ops| ==> !IsChange(ops[i])
  }

  /** More than 2 * DIFF_CONTEXT unchanged lines from i on (or unchanged to the end of the file). */
  ghost predicate Pause(ops: seq<Op>, i: nat) {
    Unchanged(ops, i, i + 2 * DIFF_CONTEXT + 1)
  }

  /** No pause lies within ops[first..end]. */
  ghost predicate Compact(ops: seq<Op>, first: nat, end: nat) {
    forall i: nat :: first <= i && i + 2 * DIFF_CONTEXT < end ==> !Pause(ops, i)
  }

  /** A group starts and ends with a change, has no run of more than 2 * DIFF_CONTEXT
      unchanged lines inside, and is shown with DIFF_CONTEXT unchanged lines on each
      side, fewer only where the file ends. */
  ghost predicate SpanOk(ops: seq<Op>, s: Span) {
    && s.lo <= s.first < s.end <= s.hi <= |ops|
    && IsChange(ops[s.first]) && IsChange(ops[s.end - 1])
    && s.lo == (if s.first < DIFF_CONTEXT then 0 else s.first - DIFF_CONTEXT)
    && s.hi == (if s.end + DIFF_CONTEXT > |ops| then |ops| else s.end + DIFF_CONTEXT)
    && Unchanged(ops, s.lo, s.first) && Unchanged(ops, s.end, s.hi)
    && Compact(ops, s.first, s.end)
  }

  /** One of n lines from i on is a change. */
  ghost predicate SomeChange(ops: seq<Op>, i: nat, n: nat) {
    exists k :: i <= k < i + n && k < |ops| && IsChange(ops[k])
  }

  /** A hunk shows three unchanged lines on each side of its changes, or as many as the file has there;
      and seven unchanged lines in a row are never within its changes. */
  lemma {:induction false} ThreeLinesShown(ops: seq<Op>, s: Span)
    requires SpanOk(ops, s)
    ensures s.first - s.lo == 3 || (s.lo == 0 && s.first < 3)
    ensures s.hi - s.end == 3 || (s.hi == |ops| && |ops| - s.end < 3)
    ensures forall i: nat :: s.first <= i <= s.end - 7 ==> SomeChange(ops, i, 7)
  {
    forall i: nat | s.first <= i <= s.end - 7
      ensures SomeChange(ops, i, 7)
    {
      assert !Pause(ops, i);
    }
  }

  ghost predicate InSpan(s: Span, i: nat) { s.first <= i < s.end }

  ghost predicate Covered(spans: seq<Span>, i: nat) {
    exists k :: 0 <= k < |spans| && InSpan(spans[k], i)
  }

  /** Two groups in order, more than 2 * DIFF_CONTEXT unchanged lines apart: so disjoint
      even with their context, with at least one line between them. */
  ghost predicate Apart(s: Span, t: Span) { s.end + 2 * DIFF_CONTEXT < t.first }

  /** The spans are in order and apart, and hold every change of ops[..upto]. */
  ghost predicate Grouped(ops: seq<Op>, spans: seq<Span>, upto: nat) {
    && (forall k :: 0 <= k < |spans| ==> SpanOk(ops, spans[k]))
    && (forall k, l :: 0 <= k < l < |spans| ==> Apart(spans[k], spans[l]))
    && (forall i: nat :: i < upto && i < |ops| && IsChange(ops[i]) ==> Covered(spans, i))
  }

  /** The hunk printed for ops[s.lo..s.hi]. */
  function HunkOf(ops: seq<Op>, s: Span): Hunk
    requires s.lo < s.hi <= |ops|
  {
    var body := ops[s.lo..s.hi];
    Hunk(HunkRange(ops[s.lo].a, |Olds(body)|), HunkRange(ops[s.lo].b, |News(body)|), body)
  }

  /** The counting loop of unifiedDiff. */
  method CountLines(body: seq<Op>) returns (aN: nat, bN: nat)
    ensures aN == |Olds(body)| && bN == |News(body)|
  {
    aN, bN := 0, 0;
    for i := 0 to |body|
      invariant aN == |Olds(body[..i])| && bN == |News(body[..i])|
    {
      assert body[..i + 1] == body[..i] + [body[i]];
      Snoc(body[..i], body[i]);
      if body[i].kind != Insert {
        aN := aN + 1;
      }
      if body[i].kind != Delete {
        bN := bN + 1;
      }
    }
    assert body[..|body|] == body;
  }

  /** Extends a group from the change at start while the next change is within
      2 * DIFF_CONTEXT unchanged lines. */
  method ExtendGroup(ops: seq<Op>, start: nat) returns (end: nat)
    requires start < |ops| && IsChange(ops[start])
    ensures start < end <= |ops| && IsChange(ops[end - 1])
    ensures Pause(ops, end) && Compact(ops, start, end)
  {
    end := start;
    while end < |ops|
      invariant start <= end <= |ops|
      invariant end == |ops| ==> IsChange(ops[end - 1])
      invariant end < |ops| && !IsChange(ops[end]) ==> start < end && IsChange(ops[end - 1])
      invariant Compact(ops, start, end)
    {
      if IsChange(ops[end]) {
        end := end + 1;
      } else {
        var run := end;
        while run < |ops| && !IsChange(ops[run])
          invariant end <= run <= |ops|
          invariant Unchanged(ops, end, run)
        {
          run := run + 1;
        }
        if run == |ops| || run - end > 2 * DIFF_CONTEXT {
          break;
        }
        end := run;
      }
    }
  }

  /** The skipping loop of unifiedDiff. */
  method NextChange(ops: seq<Op>, from: nat) returns (start: nat)
    requires from <= |ops|
    ensures from <= start <= |ops| && Unchanged(ops, from, start)
    ensures start < |ops| ==> IsChange(ops[start])
  {
    start := from;
    while start < |ops| && !IsChange(ops[start])
      invariant from <= start <= |ops| && Unchanged(ops, from, start)
    {
      start := start + 1;
    }
  }

  /** Every earlier group ended with a pause. */
  ghost predicate AllPaused(ops: seq<Op>, spans: seq<Span>, upto: nat) {
    forall k :: 0 <= k < |spans| ==> spans[k].hi <= upto && Pause(ops, spans[k].end)
  }

  lemma {:induction false} SpansApart(ops: seq<Op>, spans: seq<Span>, from: nat, s: Span)
    requires Grouped(ops, spans, from) && AllPaused(ops, spans, from)
    requires from <= s.first < |ops| && IsChange(ops[s.first])
    ensures forall k :: 0 <= k < |spans| ==> Apart(spans[k], s)
  {
    forall k | 0 <= k < |spans|
      ensures Apart(spans[k], s)
    {
      assert SpanOk(ops, spans[k]) && Pause(ops, spans[k].end);
    }
  }

  lemma {:induction false} CoveredBy(all: seq<Span>, spans: seq<Span>, s: Span, i: nat)
    requires all == spans + [s] && (Covered(spans, i) || InSpan(s, i))
    ensures Covered(all, i)
  {
    if InSpan(s, i) {
      assert InSpan(all[|spans|], i);
    } else {
      var k :| 0 <= k < |spans| && InSpan(spans[k], i);
      assert InSpan(all[k], i);
    }
  }

  lemma {:induction false} AddSpan(ops: seq<Op>, spans: seq<Span>, from: nat, s: Span)
    requires Grouped(ops, spans, from) && AllPaused(ops, spans, from)
    requires SpanOk(ops, s) && Pause(ops, s.end)
    requires from <= s.first && Unchanged(ops, from, s.first)
    ensures Grouped(ops, spans + [s], s.hi) && AllPaused(ops, spans + [s], s.hi)
  {
    hide SpanOk, Apart, Pause, Covered, Unchanged;
    var all := spans + [s];
    FirstIsChange(ops, s);
    SpansApart(ops, spans, from, s);
    forall k, l | 0 <= k < l < |all|
      ensures Apart(all[k], all[l])
    {
      assert l < |spans| ==> Apart(spans[k], spans[l]);
    }
    forall k | 0 <= k < |all|
      ensures SpanOk(ops, all[k]) && all[k].hi <= s.hi && Pause(ops, all[k].end)
    {
      assert k < |spans| ==> SpanOk(ops, spans[k]) && spans[k].hi <= from && Pause(ops, spans[k].end);
    }
    AllCovered(ops, spans, from, s);
  }

  lemma {:induction false} AllCovered(ops: seq<Op>, spans: seq<Span>, from: nat, s: Span)
    requires Grouped(ops, spans, from) && SpanOk(ops, s) && from <= s.first && Unchanged(ops, from, s.first)
    ensures forall i: nat :: i < s.hi && i < |ops| && IsChange(ops[i]) ==> Covered(spans + [s], i)
  {
    hide SpanOk, Covered, Apart;
    forall i: nat | i < s.hi && i < |ops| && IsChange(ops[i])
      ensures Covered(spans + [s], i)
    {
      assert i < from ==> Covered(spans, i);
      if s.first <= i {
        ChangesInside(ops, s, i);
      }
      CoveredBy(spans + [s], spans, s, i);
    }
  }

  lemma {:induction false} FirstIsChange(ops: seq<Op>, s: Span)
    requires SpanOk(ops, s)
    ensures s.first < |ops| && s.first <= s.hi && IsChange(ops[s.first])
  {}

  /** The changes that a span shows are in its group. */
  lemma {:induction false} ChangesInside(ops: seq<Op>, s: Span, i: nat)
    requires SpanOk(ops, s) && s.first <= i < s.hi && IsChange(ops[i])
    ensures InSpan(s, i)
  {}

  lemma {:induction false} AllFound(ops: seq<Op>, spans: seq<Span>, from: nat)
    requires Grouped(ops, spans, from) && Unchanged(ops, from, |ops|)
    ensures Grouped(ops, spans, |ops|)
  {}

  /** The context before a group's first change is unchanged. */
  lemma {:induction false} LeadingContext(ops: seq<Op>, spans: seq<Span>, from: nat, s: Span)
    requires Grouped(ops, spans, from) && AllPaused(ops, spans, from)
    requires from <= s.first < |ops| && Unchanged(ops, from, s.first) && IsChange(ops[s.first])
    requires s.lo == (if s.first < DIFF_CONTEXT then 0 else s.first - DIFF_CONTEXT)
    ensures Unchanged(ops, s.lo, s.first)
  {
    SpansApart(ops, spans, from, s);
    forall i: nat | s.lo <= i < from
      ensures !IsChange(ops[i])
    {
      assert forall k :: 0 <= k < |spans| ==> Apart(spans[k], s) && !InSpan(spans[k], i);
    }
  }

  /** hunks are the printed forms of spans. */
  ghost predicate Prints(ops: seq<Op>, spans: seq<Span>, hunks: seq<Hunk>) {
    && |hunks| == |spans|
    && forall k :: 0 <= k < |spans| ==> spans[k].lo < spans[k].hi <= |ops| && hunks[k] == HunkOf(ops, spans[k])
  }

  lemma {:induction false} AddHunk(ops: seq<Op>, spans: seq<Span>, hunks: seq<Hunk>, s: Span)
    requires Prints(ops, spans, hunks) && s.lo < s.hi <= |ops|
    ensures Prints(ops, spans + [s], hunks + [HunkOf(ops, s)])
  {}

  /** The rest of one turn of the outer loop: the header counts and the body. */
  method PrintHunk(ops: seq<Op>, lo: nat, hi: nat, ghost s: Span) returns (hunk: Hunk)
    requires lo < hi <= |ops| && lo == s.lo && hi == s.hi
    ensures hunk == HunkOf(ops, s)
  {
    var body := ops[lo..hi];
    var aN, bN := CountLines(body);
    hunk := Hunk(HunkRange(ops[lo].a, aN), HunkRange(ops[lo].b, bN), body);
  }

  /** hunks are the printed forms of groups that hold every change. */
  ghost predicate HunksOf(ops: seq<Op>, hunks: seq<Hunk>) {
    exists spans :: Grouped(ops, spans, |ops|) && Prints(ops, spans, hunks)
  }

  /** The outer loop of unifiedDiff, on structured hunks instead of text. */
  method GroupHunks(ops: seq<Op>) returns (hunks: seq<Hunk>, ghost spans: seq<Span>)
    ensures Grouped(ops, spans, |ops|) && Prints(ops, spans, hunks)
    ensures HunksOf(ops, hunks)
  {
    hunks, spans := [], [];
    var start := 0;
    while start < |ops|
      invariant start <= |ops| && Grouped(ops, spans, start) && AllPaused(ops, spans, start)
      invariant Prints(ops, spans, hunks)
    {
      ghost var from := start;
      start := NextChange(ops, start);
      if start == |ops| {
        AllFound(ops, spans, from);
        break;
      }
      var end := ExtendGroup(ops, start);
      var lo := if start < DIFF_CONTEXT then 0 else start - DIFF_CONTEXT;
      var hi := if end + DIFF_CONTEXT > |ops| then |ops| else end + DIFF_CONTEXT;
      ghost var s := Span(lo, start, end, hi);
      LeadingContext(ops, spans, from, s);
      AddSpan(ops, spans, from, s);
      var hunk := PrintHunk(ops, lo, hi, s);
      AddHunk(ops, spans, hunks, s);
      hunks, spans, start := hunks + [hunk], spans + [s], hi;
    }
  }
}

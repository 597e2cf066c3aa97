/** Subsequences of lines and the longest common subsequence of two line lists.
    `LcsLength` is the recurrence that gen/diff.go tabulates; the lemmas tie it to
    an independent definition: the greatest length of a common subsequence. */
module Subsequences {
  type Line = string

  function Max(x: nat, y: nat): nat { if x >= y then x else y }

  /** c can be obtained from a by deleting lines. */
  predicate Subseq(c: seq<Line>, a: seq<Line>) {
    c == [] || (a != [] && ((c[0] == a[0] && Subseq(c[1..], a[1..])) || Subseq(c, a[1..])))
  }

  predicate Common(c: seq<Line>, a: seq<Line>, b: seq<Line>) {
    Subseq(c, a) && Subseq(c, b)
  }

  function LcsLength(a: seq<Line>, b: seq<Line>): nat
    decreases |a| + |b|
  {
    if a == [] || b == [] then 0
    else if a[0] == b[0] then LcsLength(a[1..], b[1..]) + 1
    else Max(LcsLength(a[1..], b), LcsLength(a, b[1..]))
  }

  lemma {:induction false} SubseqLength(c: seq<Line>, a: seq<Line>)
    requires Subseq(c, a)
    ensures |c| <= |a|
  {
    if c != [] {
      if c[0] == a[0] && Subseq(c[1..], a[1..]) {
        SubseqLength(c[1..], a[1..]);
      } else {
        SubseqLength(c, a[1..]);
      }
    }
  }

  lemma {:induction false} SubseqTail(c: seq<Line>, a: seq<Line>)
    requires c != [] && Subseq(c, a)
    ensures a != [] && Subseq(c[1..], a[1..])
  {
    if !(c[0] == a[0] && Subseq(c[1..], a[1..])) {
      SubseqTail(c, a[1..]);
      SubseqDrop(c[1..], a[1..]);
    }
  }

  lemma {:induction false} SubseqDrop(c: seq<Line>, a: seq<Line>)
    requires a != [] && Subseq(c, a[1..])
    ensures Subseq(c, a)
  {}

  /** No common subsequence is longer than the recurrence says. */
  lemma {:induction false} LcsIsUpperBound(c: seq<Line>, a: seq<Line>, b: seq<Line>)
    requires Common(c, a, b)
    ensures |c| <= LcsLength(a, b)
    decreases |a| + |b|
  {
    if c != [] {
      if a[0] == b[0] {
        SubseqTail(c, a);
        SubseqTail(c, b);
        LcsIsUpperBound(c[1..], a[1..], b[1..]);
      } else if c[0] == a[0] {
        assert Subseq(c, b[1..]);
        LcsIsUpperBound(c, a, b[1..]);
      } else {
        LcsIsUpperBound(c, a[1..], b);
      }
    }
  }

  /** Some common subsequence has exactly the length the recurrence says. */
  lemma {:induction false} LcsIsAttained(a: seq<Line>, b: seq<Line>) returns (c: seq<Line>)
    ensures Common(c, a, b) && |c| == LcsLength(a, b)
    decreases |a| + |b|
  {
    if a == [] || b == [] {
      c := [];
    } else if a[0] == b[0] {
      var d := LcsIsAttained(a[1..], b[1..]);
      c := [a[0]] + d;
      assert c[1..] == d;
    } else if LcsLength(a[1..], b) >= LcsLength(a, b[1..]) {
      c := LcsIsAttained(a[1..], b);
      SubseqDrop(c, a);
    } else {
      c := LcsIsAttained(a, b[1..]);
      SubseqDrop(c, b);
    }
  }

  lemma {:induction false} LcsBound(a: seq<Line>, b: seq<Line>)
    ensures LcsLength(a, b) <= |a| && LcsLength(a, b) <= |b|
  {
    var c := LcsIsAttained(a, b);
    SubseqLength(c, a);
    SubseqLength(c, b);
  }

  lemma {:induction false} SubseqSnoc(c: seq<Line>, a: seq<Line>, l: Line)
    requires Subseq(c, a)
    ensures Subseq(c + [l], a + [l])
  {
    if a == [] {
      assert c + [l] == [l] && a + [l] == [l];
    } else {
      assert (a + [l])[1..] == a[1..] + [l];
      if c != [] && c[0] == a[0] && Subseq(c[1..], a[1..]) {
        assert (c + [l])[1..] == c[1..] + [l];
        SubseqSnoc(c[1..], a[1..], l);
      } else {
        SubseqSnoc(c, a[1..], l);
      }
    }
  }

  lemma {:induction false} SubseqInit(c: seq<Line>, a: seq<Line>, l: Line)
    requires c != [] && Subseq(c, a + [l])
    ensures Subseq(c[..|c| - 1], a)
  {
    var full := a + [l];
    if |c| > 1 {
      if a == [] {
        SubseqLength(c, full);
      } else {
        assert full[1..] == a[1..] + [l];
        if c[0] == full[0] && Subseq(c[1..], full[1..]) {
          SubseqInit(c[1..], a[1..], l);
          assert c[..|c| - 1][1..] == c[1..][..|c| - 2];
        } else {
          SubseqInit(c, a[1..], l);
        }
      }
    }
  }

  lemma {:induction false} LcsSnoc(a: seq<Line>, b: seq<Line>, l: Line)
    ensures LcsLength(a + [l], b + [l]) == LcsLength(a, b) + 1
  {
    var c := LcsIsAttained(a, b);
    SubseqSnoc(c, a, l);
    SubseqSnoc(c, b, l);
    LcsIsUpperBound(c + [l], a + [l], b + [l]);
    var d := LcsIsAttained(a + [l], b + [l]);
    SubseqInit(d, a, l);
    SubseqInit(d, b, l);
    LcsIsUpperBound(d[..|d| - 1], a, b);
  }

  /** Trimming a common prefix and a common suffix loses nothing. */
  lemma {:induction false} LcsTrim(p: seq<Line>, a: seq<Line>, b: seq<Line>, s: seq<Line>)
    ensures LcsLength(p + a + s, p + b + s) == |p| + LcsLength(a, b) + |s|
    decreases |p| + |s|
  {
    if s != [] {
      var l, t := s[|s| - 1], s[..|s| - 1];
      assert p + a + s == (p + a + t) + [l];
      assert p + b + s == (p + b + t) + [l];
      LcsSnoc(p + a + t, p + b + t, l);
      LcsTrim(p, a, b, t);
    } else if p != [] {
      assert (p + a + s)[1..] == p[1..] + a + s;
      assert (p + b + s)[1..] == p[1..] + b + s;
      LcsTrim(p[1..], a, b, s);
    } else {
      assert p + a + s == a;
      assert p + b + s == b;
    }
  }
}

/** escape.go: sanitizing the URLs of a srcset attribute. */
module Srcset {
  import opened ImageUrls
  import opened Options

  // ----- the grammar -----

  /** isASCIIWhitespaceByte */
  predicate IsWs(c: char) {
    var b := c as int;
    b == 9 || b == 10 || b == 12 || b == 13 || b == 32
  }

  predicate IsSep(c: char) { IsWs(c) || c == ',' }

  function SepLen(s: string): (n: nat)
    ensures n <= |s| && (n < |s| ==> !IsSep(s[n]))
  {
    if s == "" || !IsSep(s[0]) then 0 else 1 + SepLen(s[1..])
  }

  /** The run of bytes that are not white space. */
  function RunLen(s: string): (n: nat)
    ensures n <= |s| && (n == 0 ==> s == "" || IsWs(s[0]))
  {
    if s == "" || IsWs(s[0]) then 0 else 1 + RunLen(s[1..])
  }

  /** strings.TrimRight(run, ",") */
  function TrimLen(run: string): (n: nat)
    ensures n <= |run| && (n == 0 ==> run == "" || run[0] == ',')
  {
    if run == "" || run[|run| - 1] != ',' then |run| else TrimLen(run[..|run| - 1])
  }

  function DescLen(s: string): (n: nat)
    ensures n <= |s|
  {
    if s == "" || s[0] == ',' then 0 else 1 + DescLen(s[1..])
  }

  /** The length of the URL at the start of t: its run without the trailing commas. */
  function UrlLen(t: string): (u: nat)
    ensures u <= |t|
  {
    TrimLen(t[..RunLen(t)])
  }

  /** The length of the descriptor after it: up to the next comma, when the run had no boundary. */
  function DescAfter(t: string): (d: nat)
    ensures UrlLen(t) + d <= |t|
  {
    if UrlLen(t) == RunLen(t) then DescLen(t[UrlLen(t)..]) else 0
  }

  /** An image candidate with what precedes it and what is left after it. */
  datatype Cand = Cand(sep: string, url: string, desc: string, rest: string)

  /** The first candidate of s, None when only separators are left. */
  function First(s: string): (c: Option<Cand>)
    ensures c.Some? ==> |c.value.rest| < |s|
  {
    var t := s[SepLen(s)..];
    if t == "" then None
    else
      var u, d := UrlLen(t), DescAfter(t);
      Some(Cand(s[..SepLen(s)], t[..u], t[u..u + d], t[u + d..]))
  }

  /** The URLs that the grammar finds. */
  function Urls(s: string): seq<string>
    decreases |s|
  {
    match First(s)
    case None => []
    case Some(c) => [c.url] + Urls(c.rest)
  }

  function Shown(c: Cand, image: string -> bool): string {
    if Blocked(c.url, image) then BlockedURL() else c.url + c.desc
  }

  /** srcsetSanitize */
  function Sanitized(s: string, image: string -> bool): string
    decreases |s|
  {
    match First(s)
    case None => s
    case Some(c) => c.sep + (Shown(c, image) + Sanitized(c.rest, image))
  }

  predicate AllSep(s: string) { forall k :: 0 <= k < |s| ==> IsSep(s[k]) }

  predicate NoWs(s: string) { forall k :: 0 <= k < |s| ==> !IsWs(s[k]) }

  predicate NoComma(s: string) { forall k :: 0 <= k < |s| ==> s[k] != ',' }

  predicate AllComma(s: string) { forall k :: 0 <= k < |s| ==> s[k] == ',' }

  /** A text that can be a URL of the grammar. */
  predicate UrlText(u: string) { u != "" && NoWs(u) && u[0] != ',' && u[|u| - 1] != ',' }

  predicate EndsCandidate(s: string) { s == "" || s[0] == ',' }

  /** Commas, and then white space or the end: what ends a run with a boundary. */
  predicate Terminates(s: string)
    decreases |s|
  {
    s != "" && s[0] == ',' && (s[1..] == "" || IsWs(s[1]) || Terminates(s[1..]))
  }

  /** c is what the grammar reads first in s. */
  predicate Splits(s: string, c: Cand) {
    && s == c.sep + (c.url + (c.desc + c.rest)) && AllSep(c.sep) && UrlText(c.url)
    && (if c.desc == "" then c.rest == "" || Terminates(c.rest)
        else IsWs(c.desc[0]) && NoComma(c.desc) && EndsCandidate(c.rest))
  }

  lemma {:induction false} SepOf(sep: string, t: string)
    requires AllSep(sep) && (t == "" || !IsSep(t[0]))
    ensures SepLen(sep + t) == |sep|
  {
    hide IsSep;
    if sep != "" {
      assert (sep + t)[1..] == sep[1..] + t;
      SepOf(sep[1..], t);
    } else {
      assert sep + t == t;
    }
  }

  lemma {:induction false} RunOf(run: string, t: string)
    requires NoWs(run) && (t == "" || IsWs(t[0]))
    ensures RunLen(run + t) == |run|
  {
    hide IsWs;
    if run != "" {
      assert (run + t)[1..] == run[1..] + t;
      RunOf(run[1..], t);
    } else {
      assert run + t == t;
    }
  }

  lemma {:induction false} TrimOf(url: string, commas: string)
    requires url != "" && url[|url| - 1] != ',' && AllComma(commas)
    ensures TrimLen(url + commas) == |url|
  {
    if commas != "" {
      assert (url + commas)[..|url + commas| - 1] == url + commas[..|commas| - 1];
      TrimOf(url, commas[..|commas| - 1]);
    } else {
      assert url + commas == url;
    }
  }

  lemma {:induction false} DescOf(desc: string, t: string)
    requires NoComma(desc) && EndsCandidate(t)
    ensures DescLen(desc + t) == |desc|
  {
    if desc != "" {
      assert (desc + t)[1..] == desc[1..] + t;
      DescOf(desc[1..], t);
    } else {
      assert desc + t == t;
    }
  }

  function CommaLen(s: string): (n: nat)
    ensures n <= |s| && (n < |s| ==> s[n] != ',')
  {
    if s == "" || s[0] != ',' then 0 else 1 + CommaLen(s[1..])
  }

  lemma {:induction false} TerminatesIs(s: string)
    ensures AllComma(s[..CommaLen(s)])
    ensures Terminates(s) <==> CommaLen(s) > 0 && (CommaLen(s) == |s| || IsWs(s[CommaLen(s)]))
  {
    hide IsWs;
    if s != "" && s[0] == ',' {
      TerminatesIs(s[1..]);
      assert s[..CommaLen(s)] == [','] + s[1..][..CommaLen(s[1..])];
      if |s| > 1 && s[1] != ',' {
        assert CommaLen(s[1..]) == 0;
      }
      CommaIsNotWs();
    }
  }

  lemma {:induction false} CommaIsNotWs()
    ensures !IsWs(',')
  {}

  // ----- the grammar is unambiguous -----

  lemma {:induction false} SepsAre(s: string)
    ensures AllSep(s[..SepLen(s)])
  {
    hide IsSep;
    if s != "" && IsSep(s[0]) {
      SepsAre(s[1..]);
      assert s[..SepLen(s)] == [s[0]] + s[1..][..SepLen(s[1..])];
    }
  }

  lemma {:induction false} RunIs(s: string)
    ensures NoWs(s[..RunLen(s)]) && (RunLen(s) < |s| ==> IsWs(s[RunLen(s)]))
  {
    hide IsWs;
    if s != "" && !IsWs(s[0]) {
      RunIs(s[1..]);
      assert s[..RunLen(s)] == [s[0]] + s[1..][..RunLen(s[1..])];
    }
  }

  lemma {:induction false} TrimIs(run: string)
    ensures AllComma(run[TrimLen(run)..]) && (TrimLen(run) > 0 ==> run[TrimLen(run) - 1] != ',')
  {
    if run != "" && run[|run| - 1] == ',' {
      TrimIs(run[..|run| - 1]);
      assert run[TrimLen(run)..] == run[..|run| - 1][TrimLen(run)..] + [','];
    }
  }

  lemma {:induction false} DescIs(s: string)
    ensures NoComma(s[..DescLen(s)]) && EndsCandidate(s[DescLen(s)..])
  {
    if s != "" && s[0] != ',' {
      DescIs(s[1..]);
      assert s[..DescLen(s)] == [s[0]] + s[1..][..DescLen(s[1..])];
      assert s[DescLen(s)..] == s[1..][DescLen(s[1..])..];
    }
  }

  /** Commas before white space or the end terminate a run. */
  lemma {:induction false} CommasTerminate(commas: string, t: string)
    requires commas != "" && AllComma(commas) && (t == "" || IsWs(t[0]))
    ensures Terminates(commas + t)
  {
    hide IsWs;
    var s := commas + t;
    assert s[1..] == commas[1..] + t;
    if |commas| > 1 {
      CommasTerminate(commas[1..], t);
    }
  }

  lemma {:induction false} UrlIsText(t: string)
    requires t != "" && !IsSep(t[0])
    ensures UrlText(t[..UrlLen(t)])
  {
    hide IsWs, RunLen, TrimLen;
    RunIs(t);
    TrimIs(t[..RunLen(t)]);
  }

  lemma {:induction false} BareRest(t: string)
    requires UrlLen(t) != RunLen(t)
    ensures Terminates(t[UrlLen(t)..])
  {
    hide IsWs, RunLen, TrimLen, Terminates;
    var run := RunLen(t);
    RunIs(t);
    TrimIs(t[..run]);
    var commas := t[..run][UrlLen(t)..];
    CommasTerminate(commas, t[run..]);
    assert t[UrlLen(t)..] == commas + t[run..];
  }

  lemma {:induction false} DescRest(t: string)
    requires UrlLen(t) == RunLen(t)
    ensures var more := t[UrlLen(t)..];
      NoComma(more[..DescLen(more)]) && EndsCandidate(more[DescLen(more)..])
      && (DescLen(more) > 0 ==> IsWs(more[0])) && (DescLen(more) == 0 ==> more == "")
  {
    hide IsWs, RunLen, TrimLen, Terminates;
    var more := t[UrlLen(t)..];
    RunIs(t);
    DescIs(more);
    if more != "" {
      assert more[0] == t[UrlLen(t)];
      WsIsNotComma(more[0]);
      DescOfNonComma(more);
    }
  }

  /** What the grammar reads first splits the text. */
  lemma {:induction false} FirstSplits(s: string)
    requires First(s).Some?
    ensures Splits(s, First(s).value)
  {
    hide SepLen, RunLen, UrlLen, DescLen, DescAfter, IsSep, AllSep, Splits;
    var t := s[SepLen(s)..];
    SepsAre(s);
    SplitText(s, SepLen(s), t, UrlLen(t), DescAfter(t));
    TailSplits(t, s[..SepLen(s)], s);
  }

  lemma {:induction false} TailSplits(t: string, sep: string, s: string)
    requires t != "" && !IsSep(t[0]) && AllSep(sep)
    requires var u, d := UrlLen(t), DescAfter(t); s == sep + (t[..u] + (t[u..u + d] + t[u + d..]))
    ensures var u, d := UrlLen(t), DescAfter(t); Splits(s, Cand(sep, t[..u], t[u..u + d], t[u + d..]))
  {
    hide RunLen, UrlLen, DescLen, IsSep, IsWs, Terminates, AllSep, UrlText, NoComma, EndsCandidate;
    var u, d := UrlLen(t), DescAfter(t);
    UrlIsText(t);
    if u == RunLen(t) {
      DescRest(t);
      assert t[u..][..d] == t[u..u + d] && t[u..][d..] == t[u + d..];
    } else {
      BareRest(t);
    }
  }

  lemma {:induction false} SepIsWsOrComma(c: char)
    ensures IsSep(c) <==> IsWs(c) || c == ','
  {}

  lemma {:induction false} WsIsNotComma(c: char)
    requires IsWs(c)
    ensures c != ','
  {}

  lemma {:induction false} DescOfNonComma(s: string)
    requires s != "" && s[0] != ','
    ensures DescLen(s) > 0
  {}

  lemma {:induction false} SplitText(s: string, a: nat, t: string, u: nat, d: nat)
    requires a <= |s| && t == s[a..] && u + d <= |t|
    ensures s == s[..a] + (t[..u] + (t[u..u + d] + t[u + d..]))
  {
    assert t == t[..u] + t[u..] && t[u..] == t[u..u + d] + t[u + d..];
    assert s == s[..a] + s[a..];
  }

  /** Whatever splits the text is what the grammar reads first. */
  lemma {:induction false} SplitsFirst(s: string, c: Cand)
    requires Splits(s, c)
    ensures First(s) == Some(c)
  {
    hide SepLen, UrlLen, DescAfter, IsSep, UrlText, AllSep, NoComma, Terminates, EndsCandidate;
    SplitsStart(s, c);
    var t := c.url + (c.desc + c.rest);
    SepOf(c.sep, t);
    assert s[|c.sep|..] == t && s[..|c.sep|] == c.sep;
    if c.desc == "" {
      SplitsBare(t, c);
    } else {
      SplitsDesc(t, c);
    }
    TextParts(t, c);
  }

  lemma {:induction false} TextParts(t: string, c: Cand)
    requires t == c.url + (c.desc + c.rest)
    ensures t[..|c.url|] == c.url && t[|c.url|..|c.url| + |c.desc|] == c.desc && t[|c.url| + |c.desc|..] == c.rest
  {
    assert t[|c.url|..] == c.desc + c.rest;
  }

  lemma {:induction false} SplitsDesc(t: string, c: Cand)
    requires t == c.url + (c.desc + c.rest) && UrlText(c.url)
    requires c.desc != "" && IsWs(c.desc[0]) && NoComma(c.desc) && EndsCandidate(c.rest)
    ensures UrlLen(t) == |c.url| && DescAfter(t) == |c.desc|
  {
    hide RunLen, TrimLen, DescLen, IsWs, NoComma, EndsCandidate;
    var more := c.desc + c.rest;
    assert more[0] == c.desc[0];
    RunOf(c.url, more);
    TrimOf(c.url, "");
    assert t[..|c.url|] == c.url + "" && t[|c.url|..] == more;
    DescOf(c.desc, c.rest);
  }

  /** Without a descriptor the run ends at the end, or in commas that are boundaries. */
  lemma {:induction false} SplitsBare(t: string, c: Cand)
    requires t == c.url + (c.desc + c.rest) && UrlText(c.url) && c.desc == "" && (c.rest == "" || Terminates(c.rest))
    ensures UrlLen(t) == |c.url| && DescAfter(t) == 0
  {
    hide SepLen, RunLen, TrimLen, IsSep, IsWs, Terminates;
    if c.rest == "" {
      assert t == c.url && c.url + "" == c.url;
      RunOf(c.url, "");
      TrimOf(c.url, "");
      assert t[|c.url|..] == "";
    } else {
      TerminatesIs(c.rest);
      var k := CommaLen(c.rest);
      var commas, after := c.rest[..k], c.rest[k..];
      assert t == (c.url + commas) + after;
      CommasAreNotWs(commas);
      RunOf(c.url + commas, after);
      assert t[..|c.url + commas|] == c.url + commas;
      TrimOf(c.url, commas);
    }
  }

  lemma {:induction false} CommasAreNotWs(commas: string)
    requires AllComma(commas)
    ensures NoWs(commas)
  {}

  // ----- what a second scan of the output finds -----

  /** A relative reference, a URL of one of the permitted schemes, or one that begins with the replacement. */
  ghost predicate Safe(u: string, image: string -> bool) {
    Permitted(u, image) || BlockedURL() <= u
  }

  ghost predicate AllSafe(urls: seq<string>, image: string -> bool) {
    forall k :: 0 <= k < |urls| ==> Safe(urls[k], image)
  }

  lemma {:induction false} BlockedIsText()
    ensures UrlText(BlockedURL())
  {
    assert BlockedURL()[0] == 'a' && BlockedURL()[|BlockedURL()| - 1] == 'x';
  }

  /** Reading one candidate of a text that is known to split. */
  lemma {:induction false} UrlsOfSplit(s: string, c: Cand)
    requires Splits(s, c)
    ensures Urls(s) == [c.url] + Urls(c.rest)
  {
    hide Splits, First;
    SplitsFirst(s, c);
  }

  lemma {:induction false} NoCandidates(s: string)
    requires AllSep(s)
    ensures First(s).None? && Urls(s) == []
  {
    hide IsSep;
    SepOf(s, "");
    assert s + "" == s;
  }

  lemma {:induction false} NoneMeansSeps(s: string)
    requires First(s).None?
    ensures AllSep(s)
  {
    hide IsSep, SepLen;
    SepsAre(s);
    assert s[..|s|] == s;
  }

  /** The sanitizer keeps what a text starts with, as far as boundaries go. */
  lemma {:induction false} EndsStay(s: string, image: string -> bool)
    ensures EndsCandidate(s) ==> EndsCandidate(Sanitized(s, image))
    ensures Terminates(s) ==> Terminates(Sanitized(s, image))
    ensures s == "" ==> Sanitized(s, image) == ""
  {
    hide Splits, Terminates, IsSep, Shown;
    if First(s).Some? {
      var c := First(s).value;
      FirstSplits(s);
      SplitsStart(s, c);
      var more := Shown(c, image) + Sanitized(c.rest, image);
      SepKept(c.sep, c.url + (c.desc + c.rest), more);
    }
  }

  lemma {:induction false} SplitsStart(s: string, c: Cand)
    requires Splits(s, c)
    ensures s == c.sep + (c.url + (c.desc + c.rest)) && s != "" && AllSep(c.sep)
    ensures var t := c.url + (c.desc + c.rest); t != "" && !IsSep(t[0])
  {
    var t := c.url + (c.desc + c.rest);
    assert t[0] == c.url[0];
  }

  /** Whether a text ends a candidate, or terminates a run, is decided by its separators. */
  lemma {:induction false} SepKept(sep: string, t: string, u: string)
    requires AllSep(sep) && t != "" && !IsSep(t[0])
    ensures EndsCandidate(sep + t) ==> EndsCandidate(sep + u) && sep != ""
    ensures Terminates(sep + t) ==> Terminates(sep + u)
  {
    if sep == "" {
      assert sep + t == t;
    } else {
      assert (sep + t)[1..] == sep[1..] + t && (sep + u)[1..] == sep[1..] + u;
      SepKept(sep[1..], t, u);
      if |sep| > 1 {
        assert (sep[1..] + u)[0] == sep[1];
      }
    }
  }

  /** Joining a replacement to what follows it. */
  lemma {:induction false} AllCommaOrTerminates(sep: string, t: string)
    requires AllSep(sep) && EndsCandidate(sep + t) && sep != ""
    ensures AllComma(sep) || Terminates(sep + t)
  {
    hide IsWs;
    if |sep| > 1 {
      assert (sep + t)[1..] == sep[1..] + t && (sep + t)[1] == sep[1] && sep[1..][0] == sep[1];
      assert AllSep(sep[1..]);
      SepIsWsOrComma(sep[1]);
      if sep[1] == ',' {
        AllCommaOrTerminates(sep[1..], t);
        if AllComma(sep[1..]) {
          assert sep == [','] + sep[1..];
        }
      }
    }
  }

  /** x is text that a scan reads as part of one run, beginning with the replacement. */
  predicate Fused(x: string) { UrlText(x) && BlockedURL() <= x }

  lemma {:induction false} FuseMore(x: string, sep: string, u: string)
    requires Fused(x) && AllComma(sep) && UrlText(u)
    ensures Fused(x + (sep + u))
  {
    hide IsWs, BlockedURL;
    CommasAreNotWs(sep);
    var y := x + (sep + u);
    assert y[0] == x[0] && y[|y| - 1] == u[|u| - 1];
    assert y[..|BlockedURL()|] == x[..|BlockedURL()|];
  }

  /** The text after a blocked candidate may be read together with the replacement; everything that
      is then found is safe. */
  lemma {:induction false} FusedIsSafe(x: string, rest: string, image: string -> bool)
    requires Fused(x) && EndsCandidate(rest)
    ensures AllSafe(Urls(x + Sanitized(rest, image)), image)
    decreases |rest|, 2
  {
    hide Splits, Terminates, BlockedURL, Urls, IsSep, IsWs, UrlSanitizeImage;
    EndsStay(rest, image);
    if rest == "" {
      NoCandidates("");
      ReadsWhole(x, "", image);
    } else if Terminates(rest) {
      OutputIsSafe(rest, image);
      ReadsWhole(x, Sanitized(rest, image), image);
    } else if First(rest).None? {
      NoneMeansSeps(rest);
      SepsTerminate(rest);
    } else {
      var c := First(rest).value;
      FirstSplits(rest);
      SplitsStart(rest, c);
      SepNonempty(c.sep, c.url + (c.desc + c.rest));
      AllCommaOrTerminates(c.sep, c.url + (c.desc + c.rest));
      FusedWithNext(x, rest, c, image);
    }
  }

  lemma {:induction false} SepNonempty(sep: string, t: string)
    requires EndsCandidate(sep + t) && t != "" && !IsSep(t[0])
    ensures sep != ""
  {
    assert "" + t == t;
  }

  lemma {:induction false} SepsTerminate(s: string)
    requires AllSep(s) && s != "" && s[0] == ','
    ensures Terminates(s)
  {
    AllCommaOrTerminates(s, "");
    assert s + "" == s;
    if AllComma(s) {
      CommasTerminate(s, "");
    }
  }

  /** A run that ends here is one URL. */
  lemma {:induction false} ReadsWhole(x: string, after: string, image: string -> bool)
    requires Fused(x) && (after == "" || Terminates(after)) && AllSafe(Urls(after), image)
    ensures AllSafe(Urls(x + after), image)
  {
    hide Terminates, BlockedURL, Urls, UrlSanitizeImage;
    var c := Cand("", x, "", after);
    assert x + after == "" + (x + ("" + after));
    UrlsOfSplit(x + after, c);
  }

  /** The replacement runs into the next candidate, through commas. */
  lemma {:induction false} FusedWithNext(x: string, rest: string, c: Cand, image: string -> bool)
    requires Fused(x) && First(rest) == Some(c) && Splits(rest, c) && AllComma(c.sep)
    ensures AllSafe(Urls(x + Sanitized(rest, image)), image)
    decreases |rest|, 1
  {
    hide Terminates, BlockedURL, Urls, IsSep, IsWs, UrlSanitizeImage, First;
    var out := Sanitized(c.rest, image);
    EndsStay(c.rest, image);
    if Blocked(c.url, image) {
      BlockedIsText();
      FuseMore(x, c.sep, BlockedURL());
      assert x + (c.sep + (BlockedURL() + out)) == (x + (c.sep + BlockedURL())) + out;
      TerminatesEnds(c.rest);
      FusedIsSafe(x + (c.sep + BlockedURL()), c.rest, image);
    } else {
      FuseMore(x, c.sep, c.url);
      var y := x + (c.sep + c.url);
      if c.desc == "" {
        assert x + (c.sep + ((c.url + c.desc) + out)) == y + out;
        TerminatesEnds(c.rest);
        FusedIsSafe(y, c.rest, image);
      } else {
        assert x + (c.sep + ((c.url + c.desc) + out)) == y + (c.desc + out);
        OutputIsSafe(c.rest, image);
        assert y + (c.desc + out) == "" + (y + (c.desc + out));
        UrlsOfSplit(y + (c.desc + out), Cand("", y, c.desc, out));
      }
    }
  }

  lemma {:induction false} TerminatesEnds(s: string)
    ensures Terminates(s) ==> EndsCandidate(s)
  {}

  /** A second scan of the output, by the same grammar, finds nothing but safe URLs: each is a relative reference, has
      a permitted scheme, or begins with the replacement. */
  lemma {:induction false} OutputIsSafe(s: string, image: string -> bool)
    ensures AllSafe(Urls(Sanitized(s, image)), image)
    decreases |s|, 0
  {
    hide Terminates, BlockedURL, Urls, IsSep, IsWs, UrlSanitizeImage, First;
    if First(s).None? {
      NoneMeansSeps(s);
      NoCandidates(s);
    } else {
      var c := First(s).value;
      FirstSplits(s);
      var out := Sanitized(c.rest, image);
      EndsStay(c.rest, image);
      if Blocked(c.url, image) {
        BlockedIsText();
        TerminatesEnds(c.rest);
        FusedIsSafe(BlockedURL(), c.rest, image);
        SepIsWsOrComma(BlockedURL()[0]);
        assert (BlockedURL() + out)[0] == BlockedURL()[0];
        SkipSeps(c.sep, BlockedURL() + out);
      } else {
        OutputIsSafe(c.rest, image);
        AcceptedExactly(c.url, image);
        assert (c.url + c.desc) + out == c.url + (c.desc + out);
        UrlsOfSplit(Sanitized(s, image), Cand(c.sep, c.url, c.desc, out));
      }
    }
  }

  /** Separators in front change nothing. */
  lemma {:induction false} SkipSeps(sep: string, t: string)
    requires AllSep(sep) && t != "" && !IsSep(t[0])
    ensures Urls(sep + t) == Urls(t)
  {
    hide First, IsSep;
    FirstSkipsSeps(sep, t);
  }

  lemma {:induction false} FirstSkipsSeps(sep: string, t: string)
    requires AllSep(sep) && t != "" && !IsSep(t[0])
    ensures First(sep + t).Some? && First(t).Some?
    ensures First(sep + t).value.url == First(t).value.url
    ensures First(sep + t).value.desc == First(t).value.desc && First(sep + t).value.rest == First(t).value.rest
  {
    hide RunLen, UrlLen, DescAfter, IsSep;
    SepOf(sep, t);
    SepOf("", t);
    assert "" + t == t && (sep + t)[|sep|..] == t;
  }

  /** A value without a blocked candidate is returned as it is. */
  lemma {:induction false} UnchangedWhenAccepted(s: string, image: string -> bool)
    requires forall k :: 0 <= k < |Urls(s)| ==> !Blocked(Urls(s)[k], image)
    ensures Sanitized(s, image) == s
    decreases |s|
  {
    hide Blocked, First;
    if First(s).Some? {
      var c := First(s).value;
      FirstSplits(s);
      assert Urls(s)[0] == c.url;
      forall k | 0 <= k < |Urls(c.rest)|
        ensures !Blocked(Urls(c.rest)[k], image)
      {
        assert Urls(s)[k + 1] == Urls(c.rest)[k];
      }
      UnchangedWhenAccepted(c.rest, image);
      assert c.sep + ((c.url + c.desc) + c.rest) == s;
    }
  }

  // ----- which candidates survive -----

  /** The URLs with the blocked ones replaced. */
  function Replaced(urls: seq<string>, image: string -> bool): (r: seq<string>)
    ensures |r| == |urls|
  {
    seq(|urls|, k requires 0 <= k < |urls| => if Blocked(urls[k], image) then BlockedURL() else urls[k])
  }

  /** No blocked candidate is followed by a comma and, without white space, by the next URL. */
  predicate NoFusion(s: string, image: string -> bool)
    decreases |s|
  {
    match First(s)
    case None => true
    case Some(c) => (Blocked(c.url, image) ==> c.rest == "" || Terminates(c.rest)) && NoFusion(c.rest, image)
  }

  lemma {:induction false} ReplacedCons(url: string, urls: seq<string>, image: string -> bool)
    ensures Replaced([url] + urls, image) == [if Blocked(url, image) then BlockedURL() else url] + Replaced(urls, image)
  {}

  /** What is read together with the replacement is at least as long. */
  lemma {:induction false} FusedIsLong(x: string, rest: string, image: string -> bool)
    requires Fused(x) && EndsCandidate(rest)
    ensures var u := Urls(x + Sanitized(rest, image)); u != [] && |u[0]| >= |x|
    ensures rest != "" && !Terminates(rest) ==> |Urls(x + Sanitized(rest, image))[0]| > |x|
    decreases |rest|, 2
  {
    hide Splits, Terminates, BlockedURL, Urls, IsSep, IsWs, UrlSanitizeImage;
    EndsStay(rest, image);
    if rest == "" || Terminates(rest) {
      var out := Sanitized(rest, image);
      WholeSplits(x, out);
      UrlsOfSplit(x + out, Cand("", x, "", out));
    } else if First(rest).None? {
      NoneMeansSeps(rest);
      SepsTerminate(rest);
    } else {
      var c := First(rest).value;
      FirstSplits(rest);
      SplitsStart(rest, c);
      SepNonempty(c.sep, c.url + (c.desc + c.rest));
      AllCommaOrTerminates(c.sep, c.url + (c.desc + c.rest));
      NextIsLong(x, rest, c, image);
    }
  }

  lemma {:induction false} WholeSplits(x: string, after: string)
    requires Fused(x) && (after == "" || Terminates(after))
    ensures Splits(x + after, Cand("", x, "", after))
  {
    hide Terminates, UrlText, BlockedURL;
    assert x + after == "" + (x + ("" + after));
  }

  lemma {:induction false} NextIsLong(x: string, rest: string, c: Cand, image: string -> bool)
    requires Fused(x) && First(rest) == Some(c) && Splits(rest, c) && AllComma(c.sep) && |c.rest| < |rest|
    ensures var u := Urls(x + Sanitized(rest, image)); u != [] && |u[0]| > |x|
    decreases |rest|, 1
  {
    hide Terminates, BlockedURL, Urls, IsSep, IsWs, UrlSanitizeImage, First;
    var out := Sanitized(c.rest, image);
    EndsStay(c.rest, image);
    TerminatesEnds(c.rest);
    if Blocked(c.url, image) {
      BlockedIsText();
      FuseMore(x, c.sep, BlockedURL());
      assert x + (c.sep + (BlockedURL() + out)) == (x + (c.sep + BlockedURL())) + out;
      FusedIsLong(x + (c.sep + BlockedURL()), c.rest, image);
    } else {
      FuseMore(x, c.sep, c.url);
      var y := x + (c.sep + c.url);
      if c.desc == "" {
        assert x + (c.sep + ((c.url + c.desc) + out)) == y + out;
        FusedIsLong(y, c.rest, image);
      } else {
        assert x + (c.sep + ((c.url + c.desc) + out)) == y + (c.desc + out);
        assert y + (c.desc + out) == "" + (y + (c.desc + out));
        UrlsOfSplit(y + (c.desc + out), Cand("", y, c.desc, out));
      }
    }
  }

  /** A second scan finds the same candidates, the blocked ones replaced, exactly when no replacement
      runs into the URL that follows. */
  lemma {:induction false} CandidatesKept(s: string, image: string -> bool)
    ensures Urls(Sanitized(s, image)) == Replaced(Urls(s), image) <==> NoFusion(s, image)
    decreases |s|
  {
    hide Terminates, BlockedURL, Urls, IsSep, IsWs, UrlSanitizeImage, First, Replaced, Splits;
    if First(s).None? {
      NoneMeansSeps(s);
      NoCandidates(s);
      NothingReplaced(image);
    } else {
      var c := First(s).value;
      FirstSplits(s);
      UrlsOfSplit(s, c);
      ReplacedCons(c.url, Urls(c.rest), image);
      CandidatesKept(c.rest, image);
      SameTail(if Blocked(c.url, image) then BlockedURL() else c.url, Urls(Sanitized(c.rest, image)), Replaced(Urls(c.rest), image));
      if Blocked(c.url, image) {
        BlockedCandidate(s, c, image);
      } else {
        AcceptedCandidate(s, c, image);
      }
    }
  }

  lemma {:induction false} SameTail(x: string, u: seq<string>, v: seq<string>)
    ensures [x] + u == [x] + v <==> u == v
    ensures ([x] + v)[0] == x
  {
    assert ([x] + u)[1..] == u && ([x] + v)[1..] == v;
  }

  lemma {:induction false} NothingReplaced(image: string -> bool)
    ensures Replaced([], image) == []
  {}

  lemma {:induction false} AcceptedCandidate(s: string, c: Cand, image: string -> bool)
    requires First(s) == Some(c) && Splits(s, c) && !Blocked(c.url, image)
    ensures Urls(Sanitized(s, image)) == [c.url] + Urls(Sanitized(c.rest, image))
  {
    hide Terminates, BlockedURL, Urls, IsSep, IsWs, UrlSanitizeImage, First;
    var out := Sanitized(c.rest, image);
    EndsStay(c.rest, image);
    assert (c.url + c.desc) + out == c.url + (c.desc + out);
    UrlsOfSplit(Sanitized(s, image), Cand(c.sep, c.url, c.desc, out));
  }

  /** A blocked candidate is found as the replacement, unless it runs into the next one. */
  lemma {:induction false} BlockedCandidate(s: string, c: Cand, image: string -> bool)
    requires First(s) == Some(c) && Splits(s, c) && Blocked(c.url, image)
    ensures var urls := Urls(Sanitized(s, image));
      if c.rest == "" || Terminates(c.rest) then urls == [BlockedURL()] + Urls(Sanitized(c.rest, image))
      else urls != [] && urls[0] != BlockedURL()
  {
    hide Terminates, BlockedURL, Urls, IsSep, IsWs, UrlSanitizeImage, First;
    var out := Sanitized(c.rest, image);
    EndsStay(c.rest, image);
    TerminatesEnds(c.rest);
    BlockedIsText();
    SepIsWsOrComma(BlockedURL()[0]);
    assert (BlockedURL() + out)[0] == BlockedURL()[0];
    SkipSeps(c.sep, BlockedURL() + out);
    if c.rest == "" || Terminates(c.rest) {
      WholeSplits(BlockedURL(), out);
      UrlsOfSplit(BlockedURL() + out, Cand("", BlockedURL(), "", out));
    } else {
      FusedIsLong(BlockedURL(), c.rest, image);
    }
  }

  lemma {:induction false} SanitizedStep(s: string, image: string -> bool, c: Cand)
    requires First(s) == Some(c)
    ensures Sanitized(s, image) == c.sep + (Shown(c, image) + Sanitized(c.rest, image))
  {}

  /** Where it does run into it: the comma alone does not end a URL, so a browser is sent to one URL made
      of both. */
  lemma {:induction false} RunsTogether(image: string -> bool)
    ensures var s, out := "x:y 1x,z", "about:invalid#gsx,z";
      Urls(s) == ["x:y", "z"] && Sanitized(s, image) == out && Urls(out) == [out]
  {
    hide Sanitized, Urls, First, Splits, Blocked, UrlText, AllSep, Shown, BlockedURL;
    var c1, c2 := Cand("", "x:y", " 1x", ",z"), Cand(",", "z", "", "");
    ApartSplits();
    TogetherSplits();
    UrlsOfSplit("x:y 1x,z", c1);
    UrlsOfSplit(",z", c2);
    UrlsOfSplit("about:invalid#gsx,z", Cand("", "about:invalid#gsx,z", "", ""));
    SplitsFirst("x:y 1x,z", c1);
    SplitsFirst(",z", c2);
    Nothing(image);
    SanitizedStep("x:y 1x,z", image, c1);
    SanitizedStep(",z", image, c2);
    TogetherShown(image);
  }

  lemma {:induction false} TogetherShown(image: string -> bool)
    ensures Shown(Cand("", "x:y", " 1x", ",z"), image) == "about:invalid#gsx"
    ensures Shown(Cand(",", "z", "", ""), image) == "z"
  {
    ForeignIsBlocked(image);
    assert "z"[1..] == "";
    assert BeforeColon("z").None?;
    assert BlockedURL()[0] == 'a';
  }

  lemma {:induction false} ApartSplits()
    ensures Splits("x:y 1x,z", Cand("", "x:y", " 1x", ",z")) && Splits(",z", Cand(",", "z", "", ""))
  {
    hide Terminates;
    assert "x:y 1x,z" == "" + ("x:y" + (" 1x" + ",z"));
    assert ",z" == "," + ("z" + ("" + ""));
  }

  lemma {:induction false} TogetherSplits()
    ensures Splits("about:invalid#gsx,z", Cand("", "about:invalid#gsx,z", "", ""))
  {
    hide Terminates;
    assert "about:invalid#gsx,z" == "" + ("about:invalid#gsx,z" + ("" + ""));
  }

  // ----- the method -----

  /** The first inner loop: candidate separators. */
  method ScanSeps(s: string, start: nat) returns (i: nat)
    requires start <= |s|
    ensures i == start + SepLen(s[start..])
  {
    i := start;
    while i < |s| && IsSep(s[i])
      invariant start <= i <= |s| && SepLen(s[start..]) == i - start + SepLen(s[i..])
    {
      assert s[i..][1..] == s[i + 1..];
      i := i + 1;
    }
  }

  /** The second inner loop: the run of the URL. */
  method ScanRun(s: string, start: nat) returns (i: nat)
    requires start <= |s|
    ensures i == start + RunLen(s[start..])
  {
    i := start;
    while i < |s| && !IsWs(s[i])
      invariant start <= i <= |s| && RunLen(s[start..]) == i - start + RunLen(s[i..])
    {
      assert s[i..][1..] == s[i + 1..];
      i := i + 1;
    }
  }

  /** The third inner loop: the descriptor. */
  method ScanDesc(s: string, start: nat) returns (i: nat)
    requires start <= |s|
    ensures i == start + DescLen(s[start..])
  {
    i := start;
    while i < |s| && s[i] != ','
      invariant start <= i <= |s| && DescLen(s[start..]) == i - start + DescLen(s[i..])
    {
      assert s[i..][1..] == s[i + 1..];
      i := i + 1;
    }
  }

  /** One candidate from index start, and the index after it. */
  method ReadCandidate(s: string, start: nat) returns (c: Option<Cand>, i: nat)
    requires start <= |s|
    ensures i <= |s| && c == First(s[start..])
    ensures if c.Some? then i > start && c.value.rest == s[i..] else i == |s|
  {
    hide IsSep, IsWs, First, SepLen, RunLen, TrimLen, DescLen;
    i := ScanSeps(s, start);
    if i >= |s| {
      NoCandidateLeft(s, start);
      return None, i;
    }
    var urlStart := i;
    i := ScanRun(s, i);
    var run := s[urlStart..i];
    var url := run[..TrimLen(run)];
    i := i - (|run| - |url|);
    var descStart := i;
    if |url| == |run| {
      i := ScanDesc(s, i);
    }
    FirstIs(s, start, urlStart, descStart, i, url, s[descStart..i]);
    c := Some(Cand(s[start..urlStart], url, s[descStart..i], s[i..]));
  }

  /** srcsetSanitize */
  method SrcsetSanitize(s: string, image: string -> bool) returns (b: string)
    ensures b == Sanitized(s, image)
  {
    hide Sanitized, UrlSanitizeImage, First, BlockedURL;
    b := "";
    var i := 0;
    assert s[0..] == s && "" + Sanitized(s, image) == Sanitized(s, image);
    while i < |s|
      invariant i <= |s| && b + Sanitized(s[i..], image) == Sanitized(s, image)
      decreases |s| - i
    {
      var start := i;
      var c;
      c, i := ReadCandidate(s, start);
      if c.None? {
        OnlySeps(s, start, image);
        b := b + s[start..];
        break;
      }
      OneStep(s, start, c.value, image, b);
      b := b + c.value.sep;
      if UrlSanitizeImage(c.value.url, image) == BlockedURL() {
        b := b + BlockedURL();
      } else {
        b := b + c.value.url;
        b := b + c.value.desc;
      }
    }
    Nothing(image);
    assert s[|s|..] == "";
  }

  lemma {:induction false} Nothing(image: string -> bool)
    ensures Sanitized("", image) == "" && Urls("") == []
  {}

  lemma {:induction false} NoCandidateLeft(s: string, start: nat)
    requires start <= |s| && SepLen(s[start..]) == |s| - start
    ensures First(s[start..]).None?
  {}

  lemma {:induction false} OnlySeps(s: string, start: nat, image: string -> bool)
    requires start <= |s| && First(s[start..]).None?
    ensures Sanitized(s[start..], image) == s[start..]
  {}

  /** The indices of the scan are those of the grammar. */
  lemma {:induction false} FirstIs(s: string, sep: nat, urlStart: nat, descStart: nat, i: nat, url: string, desc: string)
    requires sep <= urlStart < |s| && urlStart <= descStart <= i <= |s|
    requires SepLen(s[sep..]) == urlStart - sep
    requires var run := RunLen(s[urlStart..]);
      && url == s[urlStart..urlStart + run][..TrimLen(s[urlStart..urlStart + run])]
      && descStart == urlStart + |url|
      && i == descStart + (if |url| == run then DescLen(s[descStart..]) else 0)
    requires desc == s[descStart..i]
    ensures First(s[sep..]) == Some(Cand(s[sep..urlStart], url, desc, s[i..]))
  {
    hide SepLen, RunLen, TrimLen, DescLen, IsSep, IsWs;
    var u := s[sep..];
    var t := u[SepLen(u)..];
    assert t == s[urlStart..] && u[..SepLen(u)] == s[sep..urlStart];
    var run := RunLen(t);
    assert t[..run] == s[urlStart..urlStart + run];
    assert UrlLen(t) == |url| && t[..|url|] == url;
    assert t[|url|..] == s[descStart..];
    var d := i - descStart;
    assert t[|url|..|url| + d] == desc && t[|url| + d..] == s[i..];
  }

  lemma {:induction false} OneStep(s: string, sep: nat, c: Cand, image: string -> bool, before: string)
    requires sep <= |s| && First(s[sep..]) == Some(c)
    requires before + Sanitized(s[sep..], image) == Sanitized(s, image)
    ensures before + c.sep + BlockedURL() + Sanitized(c.rest, image) == Sanitized(s, image) || !Blocked(c.url, image)
    ensures before + c.sep + c.url + c.desc + Sanitized(c.rest, image) == Sanitized(s, image) || Blocked(c.url, image)
  {
    hide First, BlockedURL, UrlSanitizeImage;
    var out := Sanitized(c.rest, image);
    assert Sanitized(s[sep..], image) == c.sep + (Shown(c, image) + out);
    if Blocked(c.url, image) {
      assert before + (c.sep + (BlockedURL() + out)) == before + c.sep + BlockedURL() + out;
    } else {
      assert before + (c.sep + ((c.url + c.desc) + out)) == before + c.sep + c.url + c.desc + out;
    }
  }
}

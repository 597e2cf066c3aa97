/** escape.go: the grammar of srcsetSanitize against the one of the HTML Standard, section 4.8.4,
    "Parsing a srcset attribute". */
module SrcsetStandard {
  import opened ImageUrls
  import opened Options
  import opened Srcset

  /** The descriptors of a candidate in the HTML Standard, section 4.8.4: a comma between parentheses
      does not end them. The scan of escape.go stops at every comma. */
  function ParenDescLen(s: string, inParens: bool): (n: nat)
    ensures n <= |s|
  {
    if s == "" || (s[0] == ',' && !inParens) then 0
    else 1 + ParenDescLen(s[1..], if inParens then s[0] != ')' else s[0] == '(')
  }

  /** The descriptor that the Standard reads after a URL. */
  function ParenDescAfter(t: string): (d: nat)
    ensures UrlLen(t) + d <= |t|
  {
    if UrlLen(t) == RunLen(t) then ParenDescLen(t[UrlLen(t)..], false) else 0
  }

  function StandardFirst(s: string): (c: Option<Cand>)
    ensures c.Some? ==> |c.value.rest| < |s|
  {
    var t := s[SepLen(s)..];
    if t == "" then None
    else
      var u, d := UrlLen(t), ParenDescAfter(t);
      Some(Cand(s[..SepLen(s)], t[..u], t[u..u + d], t[u + d..]))
  }

  /** The URLs that the Standard finds. */
  function StandardUrls(s: string): seq<string>
    decreases |s|
  {
    match StandardFirst(s)
    case None => []
    case Some(c) => [c.url] + StandardUrls(c.rest)
  }

  // ----- when the two grammars agree -----

  /** The descriptor, read after an open parenthesis or not, ends in an open one. */
  predicate LeavesOpen(desc: string, inParens: bool) {
    if desc == "" then inParens
    else LeavesOpen(desc[1..], if inParens then desc[0] != ')' else desc[0] == '(')
  }

  /** A descriptor that leaves a parenthesis open is the last thing in the text but for separators. */
  predicate Agree(s: string)
    decreases |s|
  {
    match First(s)
    case None => true
    case Some(c) => (LeavesOpen(c.desc, false) ==> First(c.rest).None?) && Agree(c.rest)
  }

  /** How much of the text after a candidate the Standard reads as more of its descriptor. */
  function Swallowed(c: Cand): (n: nat)
    ensures n <= |c.rest|
  {
    if LeavesOpen(c.desc, false) then ParenDescLen(c.rest, true) else 0
  }

  lemma {:induction false} ParenSplit(desc: string, rest: string, inParens: bool)
    requires NoComma(desc) && EndsCandidate(rest)
    ensures ParenDescLen(desc + rest, inParens)
         == |desc| + (if LeavesOpen(desc, inParens) then ParenDescLen(rest, true) else 0)
  {
    if desc == "" {
      assert desc + rest == rest;
    } else {
      assert (desc + rest)[1..] == desc[1..] + rest;
      ParenSplit(desc[1..], rest, if inParens then desc[0] != ')' else desc[0] == '(');
    }
  }

  lemma {:induction false} ParenEnds(s: string, inParens: bool)
    ensures EndsCandidate(s[ParenDescLen(s, inParens)..])
  {
    if s != "" && (s[0] != ',' || inParens) {
      var next := if inParens then s[0] != ')' else s[0] == '(';
      ParenEnds(s[1..], next);
      assert s[ParenDescLen(s, inParens)..] == s[1..][ParenDescLen(s[1..], next)..];
    }
  }

  /** An open parenthesis swallows the separators and something more. */
  lemma {:induction false} PastSeps(s: string)
    requires SepLen(s) < |s|
    ensures ParenDescLen(s, true) > SepLen(s)
  {
    if IsSep(s[0]) {
      PastSeps(s[1..]);
    }
  }

  /** The Standard reads the same candidate, with a descriptor that may go on. */
  lemma {:induction false} StandardReads(s: string, c: Cand)
    requires Splits(s, c)
    ensures var m := Swallowed(c);
      StandardFirst(s) == Some(Cand(c.sep, c.url, c.desc + c.rest[..m], c.rest[m..])) && EndsCandidate(c.rest[m..])
  {
    hide *;
    SplitsEnds(s, c);
    FirstParts(s, c);
    DescGoesOn(c.url + (c.desc + c.rest), c);
    SwallowedEnds(c);
    LongerDesc(s, c, Swallowed(c));
  }

  lemma {:induction false} SwallowedEnds(c: Cand)
    requires EndsCandidate(c.rest)
    ensures EndsCandidate(c.rest[Swallowed(c)..])
  {
    hide ParenDescLen, LeavesOpen, EndsCandidate, Swallowed;
    SwallowedIs(c);
    ParenEnds(c.rest, true);
    assert c.rest[0..] == c.rest;
  }

  lemma {:induction false} SwallowedIs(c: Cand)
    ensures Swallowed(c) == 0 || Swallowed(c) == ParenDescLen(c.rest, true)
  {}

  lemma {:induction false} FirstParts(s: string, c: Cand)
    requires Splits(s, c)
    ensures var t := c.url + (c.desc + c.rest);
      t != "" && s == c.sep + t && SepLen(s) == |c.sep| && UrlLen(t) == |c.url| && DescAfter(t) == |c.desc|
  {
    hide SepLen, UrlLen, RunLen, DescAfter, Splits;
    SplitsFirst(s, c);
    SplitsStart(s, c);
    assert s[|c.sep|..] == c.url + (c.desc + c.rest);
  }

  lemma {:induction false} LongerDesc(s: string, c: Cand, m: nat)
    requires var t := c.url + (c.desc + c.rest);
      t != "" && s == c.sep + t && SepLen(s) == |c.sep| && UrlLen(t) == |c.url| && m <= |c.rest|
      && ParenDescAfter(t) == |c.desc| + m
    ensures StandardFirst(s) == Some(Cand(c.sep, c.url, c.desc + c.rest[..m], c.rest[m..]))
  {
    hide SepLen, UrlLen, ParenDescAfter;
    var t := c.url + (c.desc + c.rest);
    assert s[|c.sep|..] == t && s[..|c.sep|] == c.sep;
    assert c.rest == c.rest[..m] + c.rest[m..];
    assert c.desc + c.rest == (c.desc + c.rest[..m]) + c.rest[m..];
    TextParts(t, Cand(c.sep, c.url, c.desc + c.rest[..m], c.rest[m..]));
  }

  lemma {:induction false} DescGoesOn(t: string, c: Cand)
    requires t == c.url + (c.desc + c.rest) && UrlLen(t) == |c.url| && DescAfter(t) == |c.desc|
    requires NoComma(c.desc) && EndsCandidate(c.rest)
    ensures ParenDescAfter(t) == |c.desc| + Swallowed(c)
  {
    hide UrlLen, RunLen, DescLen, ParenDescLen, NoComma, EndsCandidate;
    assert t[|c.url|..] == c.desc + c.rest;
    if UrlLen(t) == RunLen(t) {
      ParenSplit(c.desc, c.rest, false);
    }
  }

  lemma {:induction false} NothingOpen()
    ensures !LeavesOpen("", false)
  {}

  lemma {:induction false} SplitsEnds(s: string, c: Cand)
    requires Splits(s, c)
    ensures EndsCandidate(c.rest) && NoComma(c.desc)
    ensures c.desc == "" ==> !LeavesOpen(c.desc, false)
  {}

  lemma {:induction false} SplitsText(s: string, c: Cand)
    requires Splits(s, c)
    ensures s == c.sep + (c.url + (c.desc + c.rest))
  {}

  lemma {:induction false} NoStandardCandidates(s: string)
    requires AllSep(s)
    ensures StandardUrls(s) == []
  {
    hide IsSep;
    SepOf(s, "");
    assert s + "" == s;
  }

  // ----- the Standard from a later comma on -----

  function Weight(urls: seq<string>): nat {
    if urls == [] then 0 else |urls[0]| + 1 + Weight(urls[1..])
  }

  lemma {:induction false} WeightCons(url: string, urls: seq<string>)
    ensures Weight([url] + urls) == |url| + 1 + Weight(urls)
  {
    assert ([url] + urls)[1..] == urls;
  }

  lemma {:induction false} StandardOfSplit(s: string, c: Cand)
    requires Splits(s, c)
    ensures StandardUrls(s) == [c.url] + StandardUrls(c.rest[Swallowed(c)..])
  {
    hide Splits, StandardFirst, Swallowed;
    StandardReads(s, c);
  }

  /** Started at a comma inside a text, or in its separators, the Standard reads no more than is there. */
  lemma {:induction false} Lighter(r: string, k: nat)
    requires k <= |r| && EndsCandidate(r[k..])
    ensures Weight(StandardUrls(r[k..])) <= Weight(Urls(r))
    ensures First(r).Some? && k > |First(r).value.sep| ==> Weight(StandardUrls(r[k..])) < Weight(Urls(r))
    decreases |r|
  {
    hide Splits, First, Urls, StandardUrls, Weight, EndsCandidate, Swallowed;
    NoWeight();
    if First(r).None? {
      NoneMeansSeps(r);
      NoStandardCandidates(r[k..]);
    } else {
      var c := First(r).value;
      FirstSplits(r);
      RestShorter(r);
      UrlsOfSplit(r, c);
      WeightCons(c.url, Urls(c.rest));
      SplitsText(r, c);
      if k < |c.sep| + |c.url| {
        var x := FromWithin(r, k, c);
        StandardOfSplit(r[k..], x);
        WeightCons(x.url, StandardUrls(x.rest[Swallowed(x)..]));
        StandardReads(r[k..], x);
        Lighter(c.rest, Swallowed(x));
      } else {
        var p := |c.sep| + |c.url| + |c.desc|;
        NotInDesc(r, k, c);
        assert r[k..] == c.rest[k - p..];
        Lighter(c.rest, k - p);
      }
    }
  }

  lemma {:induction false} NoWeight()
    ensures Weight([]) == 0
  {}

  lemma {:induction false} RestShorter(s: string)
    ensures First(s).Some? ==> |First(s).value.rest| < |s|
  {}

  lemma {:induction false} NotInDesc(r: string, k: nat, c: Cand)
    requires Splits(r, c) && |c.sep| + |c.url| <= k <= |r| && EndsCandidate(r[k..])
    ensures k >= |c.sep| + |c.url| + |c.desc|
  {
    hide IsWs, AllSep, UrlText, Terminates;
    var p := |c.sep| + |c.url|;
    assert forall j :: p <= j < p + |c.desc| ==> r[j] == c.desc[j - p];
  }

  /** What is read first from a place before the end of a candidate's URL on. */
  lemma {:induction false} FromWithin(r: string, k: nat, c: Cand) returns (x: Cand)
    requires Splits(r, c) && k < |c.sep| + |c.url| && EndsCandidate(r[k..])
    ensures Splits(r[k..], x) && x.desc == c.desc && x.rest == c.rest && |x.url| <= |c.url|
    ensures k > |c.sep| ==> |x.url| < |c.url|
  {
    hide IsWs, IsSep, NoComma, Terminates, UrlText;
    if k <= |c.sep| {
      x := Cand(c.sep[k..], c.url, c.desc, c.rest);
    } else {
      var u := c.url[k - |c.sep|..];
      assert r[k..] == u + (c.desc + c.rest);
      var n := UrlFromComma(c.url, k - |c.sep|);
      x := Cand(u[..n], u[n..], c.desc, c.rest);
      assert u == x.sep + x.url;
    }
    assert r[k..] == x.sep + (x.url + (x.desc + x.rest));
  }

  /** A URL cut at one of its commas: commas, and then a shorter URL. */
  lemma {:induction false} UrlFromComma(url: string, k: nat) returns (n: nat)
    requires UrlText(url) && k < |url| && url[k] == ','
    ensures var u := url[k..];
      0 < n < |u| && AllSep(u[..n]) && UrlText(u[n..])
  {
    hide IsWs, IsSep;
    var u := url[k..];
    n := CommaLen(u);
    CommaStops(u);
    assert u[0] == ',';
    CommasAreSeps(u[..n]);
    assert u[n..][|u| - n - 1] == url[|url| - 1];
  }

  lemma {:induction false} CommaStops(u: string)
    requires u != "" && u[|u| - 1] != ','
    ensures CommaLen(u) < |u| && AllComma(u[..CommaLen(u)])
  {
    TerminatesIs(u);
    assert u[..|u|] == u;
  }

  lemma {:induction false} CommasAreSeps(s: string)
    requires AllComma(s)
    ensures AllSep(s)
  {}

  /** The two grammars find the same URLs in a text if and only if no candidate follows a descriptor
      that leaves a parenthesis open. */
  lemma {:induction false} GrammarsAgree(s: string)
    ensures StandardUrls(s) == Urls(s) <==> Agree(s)
    decreases |s|
  {
    hide Splits, First, Urls, StandardUrls, Weight, LeavesOpen, SepLen;
    if First(s).None? {
      NoneMeansSeps(s);
      NoCandidates(s);
      NoStandardCandidates(s);
    } else {
      var c := First(s).value;
      FirstSplits(s);
      RestShorter(s);
      UrlsOfSplit(s, c);
      StandardOfSplit(s, c);
      var after := c.rest[Swallowed(c)..];
      SameTail(c.url, StandardUrls(after), Urls(c.rest));
      if !LeavesOpen(c.desc, false) {
        assert after == c.rest;
        GrammarsAgree(c.rest);
      } else if First(c.rest).None? {
        NoneMeansSeps(c.rest);
        NoStandardCandidates(after);
        NoCandidates(c.rest);
      } else {
        StandardReads(s, c);
        SepsOfFirst(c.rest);
        PastSeps(c.rest);
        Lighter(c.rest, Swallowed(c));
      }
    }
  }

  lemma {:induction false} SepsOfFirst(s: string)
    requires First(s).Some?
    ensures |First(s).value.sep| == SepLen(s) < |s|
  {}

  // ----- what a browser finds in the output -----

  /** The same of a value of which only the accepted candidates keep their descriptors. */
  predicate AcceptedAgree(s: string, image: string -> bool)
    decreases |s|
  {
    match First(s)
    case None => true
    case Some(c) =>
      && (!Blocked(c.url, image) && LeavesOpen(c.desc, false) ==> First(c.rest).None?)
      && AcceptedAgree(c.rest, image)
  }

  lemma {:induction false} AgreeOfSplit(s: string, c: Cand)
    requires Splits(s, c)
    ensures Agree(s) <==> (LeavesOpen(c.desc, false) ==> First(c.rest).None?) && Agree(c.rest)
  {
    hide Splits, First;
    SplitsFirst(s, c);
  }

  lemma {:induction false} AgreeSkipsSeps(sep: string, t: string)
    requires AllSep(sep) && t != "" && !IsSep(t[0])
    ensures Agree(sep + t) == Agree(t)
  {
    hide First, LeavesOpen, IsSep;
    FirstSkipsSeps(sep, t);
  }

  lemma {:induction false} NothingLeft(image: string -> bool)
    ensures Agree("") && AcceptedAgree("", image) && First("").None?
  {}

  /** Sanitizing leaves a candidate exactly where there was one. */
  lemma {:induction false} NoneStays(s: string, image: string -> bool)
    ensures First(Sanitized(s, image)).None? <==> First(s).None?
  {
    hide Splits, IsSep, Urls, BlockedURL, Blocked, UrlText;
    if First(s).Some? {
      var c := First(s).value;
      FirstSplits(s);
      BlockedIsText();
      ShownIsText(s, c, image);
      var out := Sanitized(c.rest, image);
      var t := Shown(c, image) + out;
      assert t[0] == Shown(c, image)[0];
      SepOf(c.sep, t);
    }
  }

  lemma {:induction false} ShownIsText(s: string, c: Cand, image: string -> bool)
    requires Splits(s, c) && UrlText(BlockedURL())
    ensures AllSep(c.sep) && Shown(c, image) != "" && !IsSep(Shown(c, image)[0])
  {
    hide IsWs, Blocked, BlockedURL;
    SepIsWsOrComma(Shown(c, image)[0]);
    assert !Blocked(c.url, image) ==> Shown(c, image)[0] == c.url[0];
  }

  /** The text after a blocked candidate, read together with the replacement. */
  lemma {:induction false} FusedAgrees(x: string, rest: string, image: string -> bool)
    requires Fused(x) && EndsCandidate(rest)
    ensures Agree(x + Sanitized(rest, image)) <==> AcceptedAgree(rest, image)
    decreases |rest|, 2
  {
    hide Splits, Terminates, BlockedURL, IsSep, IsWs, UrlSanitizeImage, Agree, AcceptedAgree, First, LeavesOpen;
    EndsStay(rest, image);
    NothingLeft(image);
    NothingOpen();
    if rest == "" || Terminates(rest) {
      var out := Sanitized(rest, image);
      WholeSplits(x, out);
      AgreeOfSplit(x + out, Cand("", x, "", out));
      if rest != "" {
        OutputAgrees(rest, image);
      }
    } else if First(rest).None? {
      NoneMeansSeps(rest);
      SepsTerminate(rest);
    } else {
      var c := First(rest).value;
      FirstSplits(rest);
      RestShorter(rest);
      SplitsStart(rest, c);
      SepNonempty(c.sep, c.url + (c.desc + c.rest));
      AllCommaOrTerminates(c.sep, c.url + (c.desc + c.rest));
      NextAgrees(x, rest, c, image);
    }
  }

  lemma {:induction false} AcceptedStep(s: string, image: string -> bool, c: Cand)
    requires First(s) == Some(c)
    ensures AcceptedAgree(s, image) <==>
      (!Blocked(c.url, image) && LeavesOpen(c.desc, false) ==> First(c.rest).None?) && AcceptedAgree(c.rest, image)
  {}

  lemma {:induction false} NextAgrees(x: string, rest: string, c: Cand, image: string -> bool)
    requires Fused(x) && First(rest) == Some(c) && Splits(rest, c) && AllComma(c.sep) && |c.rest| < |rest|
    ensures Agree(x + Sanitized(rest, image)) <==> AcceptedAgree(rest, image)
    decreases |rest|, 1
  {
    hide Terminates, BlockedURL, IsSep, IsWs, UrlSanitizeImage, First, Agree, AcceptedAgree, LeavesOpen, Sanitized;
    SanitizedStep(rest, image, c);
    var out := Sanitized(c.rest, image);
    EndsStay(c.rest, image);
    TerminatesEnds(c.rest);
    AcceptedStep(rest, image, c);
    NothingOpen();
    if Blocked(c.url, image) {
      BlockedIsText();
      FuseMore(x, c.sep, BlockedURL());
      assert x + (c.sep + (BlockedURL() + out)) == (x + (c.sep + BlockedURL())) + out;
      FusedAgrees(x + (c.sep + BlockedURL()), c.rest, image);
    } else {
      FuseMore(x, c.sep, c.url);
      var y := x + (c.sep + c.url);
      if c.desc == "" {
        assert x + (c.sep + ((c.url + c.desc) + out)) == y + out;
        FusedAgrees(y, c.rest, image);
      } else {
        assert x + (c.sep + ((c.url + c.desc) + out)) == y + (c.desc + out);
        assert y + (c.desc + out) == "" + (y + (c.desc + out));
        AgreeOfSplit(y + (c.desc + out), Cand("", y, c.desc, out));
        OutputAgrees(c.rest, image);
        NoneStays(c.rest, image);
      }
    }
  }

  /** Which descriptors of the value are left open decides whether the grammars agree on the output. */
  lemma {:induction false} OutputAgrees(s: string, image: string -> bool)
    ensures Agree(Sanitized(s, image)) <==> AcceptedAgree(s, image)
    decreases |s|, 0
  {
    hide Terminates, BlockedURL, IsSep, IsWs, UrlSanitizeImage, First, Agree, AcceptedAgree, LeavesOpen;
    if First(s).None? {
      NoAgreement(s, image);
    } else {
      var c := First(s).value;
      FirstSplits(s);
      RestShorter(s);
      var out := Sanitized(c.rest, image);
      EndsStay(c.rest, image);
      TerminatesEnds(c.rest);
      AcceptedStep(s, image, c);
      if Blocked(c.url, image) {
        BlockedIsText();
        FusedAgrees(BlockedURL(), c.rest, image);
        SepIsWsOrComma(BlockedURL()[0]);
        assert (BlockedURL() + out)[0] == BlockedURL()[0];
        AgreeSkipsSeps(c.sep, BlockedURL() + out);
      } else {
        assert (c.url + c.desc) + out == c.url + (c.desc + out);
        AgreeOfSplit(Sanitized(s, image), Cand(c.sep, c.url, c.desc, out));
        OutputAgrees(c.rest, image);
        NoneStays(c.rest, image);
      }
    }
  }

  lemma {:induction false} NoAgreement(s: string, image: string -> bool)
    requires First(s).None?
    ensures Sanitized(s, image) == s && Agree(s) && AcceptedAgree(s, image)
  {}

  /** A browser finds in the output the URLs that the sanitizer's own grammar finds there, if and only if no
      candidate of the value follows an accepted one whose descriptor leaves a parenthesis open. */
  lemma {:induction false} BrowserAgrees(s: string, image: string -> bool)
    ensures StandardUrls(Sanitized(s, image)) == Urls(Sanitized(s, image)) <==> AcceptedAgree(s, image)
  {
    hide Agree, AcceptedAgree, Urls, StandardUrls, Sanitized;
    GrammarsAgree(Sanitized(s, image));
    OutputAgrees(s, image);
  }

  /** Then it finds only safe URLs. */
  lemma {:induction false} StandardFindsSafe(s: string, image: string -> bool)
    requires AcceptedAgree(s, image)
    ensures AllSafe(StandardUrls(Sanitized(s, image)), image)
  {
    hide AcceptedAgree, Urls, StandardUrls, Sanitized, AllSafe;
    BrowserAgrees(s, image);
    OutputIsSafe(s, image);
  }

  /** With a parenthesis they may not: here the scan of escape.go takes the text after the comma in
      parentheses for a relative URL, up to the end, and changes nothing, while the Standard ends the
      descriptor after the parenthesis and finds a URL of a foreign scheme behind it. */
  lemma {:induction false} ParenthesesDisagree(image: string -> bool)
    ensures var s := "a (b,/c),x:y";
      Sanitized(s, image) == s && StandardUrls(s) == ["a", "x:y"] && !Safe("x:y", image)
  {
    hide Sanitized, Urls, StandardUrls, Safe, BeforeColon;
    OwnExample();
    PlainUrls(image);
    UnchangedWhenAccepted("a (b,/c),x:y", image);
    StandardExample();
    ForeignScheme(image);
  }

  lemma {:induction false} OwnExample()
    ensures Urls("a (b,/c),x:y") == ["a", "/c),x:y"]
  {
    hide Urls, Splits, UrlText, AllSep, IsWs, First;
    var c1, c2 := Cand("", "a", " (b", ",/c),x:y"), Cand(",", "/c),x:y", "", "");
    ExampleSplits();
    UrlsOfSplit("a (b,/c),x:y", c1);
    UrlsOfSplit(",/c),x:y", c2);
    ExampleTexts();
    NoCandidates("");
  }

  lemma {:induction false} ExampleSplits()
    ensures Splits("a (b,/c),x:y", Cand("", "a", " (b", ",/c),x:y"))
    ensures Splits(",/c),x:y", Cand(",", "/c),x:y", "", ""))
  {
    hide IsWs, NoComma, EndsCandidate, AllSep, UrlText, Terminates;
    ExampleTexts();
    ExampleParts();
    assert "a (b,/c),x:y" == "" + ("a" + (" (b" + ",/c),x:y"));
    assert ",/c),x:y" == "," + ("/c),x:y" + ("" + ""));
  }

  lemma {:induction false} ExampleParts()
    ensures UrlText("/c),x:y") && NoComma(" (b") && EndsCandidate(",/c),x:y")
  {}

  /** Relative URLs are accepted. */
  lemma {:induction false} PlainUrls(image: string -> bool)
    ensures !Blocked("a", image) && !Blocked("/c),x:y", image)
  {
    assert "a"[1..] == "";
    assert BeforeColon("a").None?;
    SlashFirst("/c),x:y");
    assert BlockedURL()[1] == 'b' && "/c),x:y"[1] == 'c';
  }

  lemma {:induction false} ForeignScheme(image: string -> bool)
    ensures !Safe("x:y", image)
  {
    hide Permitted, Blocked;
    ForeignIsBlocked(image);
    AcceptedExactly("x:y", image);
    assert BlockedURL()[0] == 'a';
  }

  lemma {:induction false} SlashFirst(s: string)
    requires s != "" && s[0] == '/'
    ensures BeforeColon(s).Some? ==> '/' in BeforeColon(s).value
  {}

  lemma {:induction false} StandardExample()
    ensures StandardUrls("a (b,/c),x:y") == ["a", "x:y"]
  {
    hide StandardUrls, StandardFirst, ParenDescLen, Splits, UrlText, AllSep, IsWs;
    var c1, c2 := Cand("", "a", " (b,/c)", ",x:y"), Cand(",", "x:y", "", "");
    ParenExample();
    assert " (b,/c)" + ",x:y" == " (b,/c),x:y";
    assert "a (b,/c),x:y" == "" + ("a" + (" (b,/c)" + ",x:y"));
    ExampleTexts();
    StandardSplits("a (b,/c),x:y", c1);
    assert ",x:y" == "," + ("x:y" + ("" + ""));
    StandardSplits(",x:y", c2);
    StandardStep("a (b,/c),x:y", c1);
    StandardStep(",x:y", c2);
    StandardEnd();
  }

  lemma {:induction false} ExampleTexts()
    ensures UrlText("a") && UrlText("x:y") && AllSep("") && AllSep(",") && IsWs(' ') && ParenDescLen("", false) == 0
  {}

  /** Reading one candidate by the Standard. */
  lemma {:induction false} StandardSplits(s: string, c: Cand)
    requires s == c.sep + (c.url + (c.desc + c.rest)) && AllSep(c.sep) && UrlText(c.url)
    requires ParenDescLen(c.desc + c.rest, false) == |c.desc| && (c.desc + c.rest == "" || (c.desc != "" && IsWs(c.desc[0])))
    ensures StandardFirst(s) == Some(c)
  {
    hide SepLen, RunLen, TrimLen, ParenDescLen, IsSep, IsWs;
    var more := c.desc + c.rest;
    var t := c.url + more;
    assert t[0] == c.url[0] && !IsWs(c.url[0]);
    SepIsWsOrComma(t[0]);
    SepOf(c.sep, t);
    assert s[|c.sep|..] == t && s[..|c.sep|] == c.sep;
    RunOf(c.url, more);
    TrimOf(c.url, "");
    assert t[..|c.url|] == c.url + "" && t[|c.url|..] == more;
    assert more[..|c.desc|] == c.desc && more[|c.desc|..] == c.rest;
    assert t[|c.url|..|c.url| + |c.desc|] == c.desc && t[|c.url| + |c.desc|..] == c.rest;
  }

  lemma {:induction false} StandardStep(s: string, c: Cand)
    requires StandardFirst(s) == Some(c)
    ensures StandardUrls(s) == [c.url] + StandardUrls(c.rest)
  {}

  lemma {:induction false} StandardEnd()
    ensures StandardUrls("") == []
  {}

  lemma {:induction false} ParenExample()
    ensures ParenDescLen(" (b,/c),x:y", false) == 7
  {
    assert ParenDescLen(",x:y", false) == 0;
    assert "),x:y"[1..] == ",x:y";
    assert ParenDescLen("),x:y", true) == 1;
    assert "c),x:y"[1..] == "),x:y";
    assert ParenDescLen("c),x:y", true) == 2;
    assert "/c),x:y"[1..] == "c),x:y";
    assert ParenDescLen("/c),x:y", true) == 3;
    assert ",/c),x:y"[1..] == "/c),x:y";
    assert ParenDescLen(",/c),x:y", true) == 4;
    assert "b,/c),x:y"[1..] == ",/c),x:y";
    assert ParenDescLen("b,/c),x:y", true) == 5;
    assert "(b,/c),x:y"[1..] == "b,/c),x:y";
    assert ParenDescLen("(b,/c),x:y", false) == 6;
    assert " (b,/c),x:y"[1..] == "(b,/c),x:y";
  }
}

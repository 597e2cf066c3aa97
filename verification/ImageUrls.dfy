/** escape.go: which URLs may be loaded as images. Schemes are those of RFC 3986, section 3.1. */
module ImageUrls {
  import opened Options
  import opened Text

  /** blockedURL */
  function BlockedURL(): string { "about:invalid#gsx" }

  /** The text before the first colon, if there is one. */
  function BeforeColon(s: string): Option<string> {
    if s == "" then None
    else if s[0] == ':' then Some("")
    else match BeforeColon(s[1..])
      case None => None
      case Some(b) => Some([s[0]] + b)
  }

  /** urlSanitizeImage; image says which data: URLs isImageDataURL accepts. */
  function UrlSanitizeImage(s: string, image: string -> bool): string {
    match BeforeColon(s)
    case None => s
    case Some(before) =>
      if '/' in before || '?' in before || '#' in before then s
      else
        var scheme := Lower(before);
        if scheme == "http" || scheme == "https" || scheme == "mailto" || scheme == "tel" then s
        else if scheme == "data" && image(s) then s
        else BlockedURL()
  }

  predicate Blocked(url: string, image: string -> bool) { UrlSanitizeImage(url, image) == BlockedURL() }

  lemma {:induction false} SanitizedOrSame(s: string, image: string -> bool)
    ensures UrlSanitizeImage(s, image) == if Blocked(s, image) then BlockedURL() else s
  {}

  // ----- which URLs are accepted -----

  predicate Letter(c: char) { 'a' <= c <= 'z' || 'A' <= c <= 'Z' }

  predicate SchemeChar(c: char) { Letter(c) || '0' <= c <= '9' || c == '+' || c == '-' || c == '.' }

  /** p is the scheme of s. */
  predicate SchemeIs(s: string, p: string) {
    p != "" && Letter(p[0]) && (forall k :: 0 <= k < |p| ==> SchemeChar(p[k])) && p + ":" <= s
  }

  /** A relative reference (section 4.2): no colon comes before its path, query or fragment. */
  ghost predicate Relative(s: string) {
    forall k :: 0 <= k < |s| && s[k] == ':' ==> exists j :: 0 <= j < k && Delimits(s[j])
  }

  predicate Delimits(c: char) { c == '/' || c == '?' || c == '#' }

  /** p is the name, given in lower case, in any mixture of cases. */
  predicate AnyCase(p: string, name: string) {
    |p| == |name| && forall k :: 0 <= k < |p| ==> p[k] == name[k] || SameLetter(p[k], name[k])
  }

  predicate SameLetter(c: char, lower: char) { 'a' <= lower <= 'z' && c as int == lower as int - 32 }

  /** Relative references, and the URLs of four schemes, and data: URLs of images. */
  ghost predicate Permitted(s: string, image: string -> bool) {
    || Relative(s)
    || exists p :: SchemeIs(s, p) && SchemePermitted(p, s, image)
  }

  predicate SchemePermitted(p: string, s: string, image: string -> bool) {
    || AnyCase(p, "http") || AnyCase(p, "https") || AnyCase(p, "mailto") || AnyCase(p, "tel")
    || (AnyCase(p, "data") && image(s))
  }

  lemma {:induction false} CutAtColon(s: string)
    ensures BeforeColon(s).None? ==> ':' !in s
    ensures BeforeColon(s).Some? ==> ':' !in BeforeColon(s).value && BeforeColon(s).value + ":" <= s
  {
    if s != "" && s[0] != ':' {
      CutAtColon(s[1..]);
      assert s == [s[0]] + s[1..];
      if BeforeColon(s).Some? {
        var b := BeforeColon(s[1..]).value;
        assert ([s[0]] + b) + ":" == [s[0]] + (b + ":");
      }
    }
  }

  lemma {:induction false} ColonCuts(p: string, s: string)
    requires ':' !in p && p + ":" <= s
    ensures BeforeColon(s) == Some(p)
  {
    if p == "" {
      assert (p + ":")[0] == ':';
    } else {
      assert (p + ":")[0] == p[0] && (p + ":")[1..] == p[1..] + ":";
      ColonCuts(p[1..], s[1..]);
      assert p == [p[0]] + p[1..];
    }
  }

  lemma {:induction false} RelativeExactly(s: string)
    ensures Relative(s) <==> BeforeColon(s).None? || exists j :: 0 <= j < |BeforeColon(s).value| && Delimits(BeforeColon(s).value[j])
  {
    hide BeforeColon, Delimits;
    CutAtColon(s);
    if BeforeColon(s).Some? {
      var b := BeforeColon(s).value;
      assert (b + ":")[|b|] == ':' && s[|b|] == ':';
      assert forall j :: 0 <= j < |b| ==> (b + ":")[j] == b[j] == s[j];
    }
  }

  lemma {:induction false} LowerIsAnyCase(p: string, name: string)
    requires forall k :: 0 <= k < |name| ==> 'a' <= name[k] <= 'z'
    ensures Lower(p) == name <==> AnyCase(p, name)
  {
    if |p| == |name| {
      forall k | 0 <= k < |p|
        ensures Lower(p)[k] == name[k] <==> p[k] == name[k] || SameLetter(p[k], name[k])
      {
        LowerLetter(p[k], name[k]);
      }
    }
  }

  lemma {:induction false} LowerLetter(c: char, lower: char)
    requires 'a' <= lower <= 'z'
    ensures LowerChar(c) == lower <==> c == lower || SameLetter(c, lower)
  {}

  predicate LowerPermitted(scheme: string, s: string, image: string -> bool) {
    scheme == "http" || scheme == "https" || scheme == "mailto" || scheme == "tel" || (scheme == "data" && image(s))
  }

  lemma {:induction false} NamesArePermitted(p: string, s: string, image: string -> bool)
    ensures SchemePermitted(p, s, image) <==> LowerPermitted(Lower(p), s, image)
  {
    hide Lower, AnyCase;
    LowerIsAnyCase(p, "http");
    LowerIsAnyCase(p, "https");
    LowerIsAnyCase(p, "mailto");
    LowerIsAnyCase(p, "tel");
    LowerIsAnyCase(p, "data");
  }

  /** A name of letters, in any case, is a scheme. */
  lemma {:induction false} PermittedIsScheme(p: string, s: string, image: string -> bool)
    requires SchemePermitted(p, s, image) && p + ":" <= s
    ensures SchemeIs(s, p) && forall j :: 0 <= j < |p| ==> !Delimits(p[j])
  {}

  lemma {:induction false} SchemeHasNoColon(s: string, p: string)
    requires SchemeIs(s, p)
    ensures ':' !in p && forall j :: 0 <= j < |p| ==> !Delimits(p[j])
  {}

  /** The replacement has a scheme of its own. */
  lemma {:induction false} OwnScheme(image: string -> bool)
    ensures BeforeColon(BlockedURL()) == Some("about") && !LowerPermitted(Lower("about"), BlockedURL(), image)
  {
    assert "about" + ":" <= BlockedURL();
    ColonCuts("about", BlockedURL());
    assert Lower("about")[0] == 'a';
  }

  lemma {:induction false} SanitizedIs(s: string, image: string -> bool)
    ensures BeforeColon(s).None? ==> !Blocked(s, image)
    ensures BeforeColon(s).Some? ==> var b := BeforeColon(s).value;
      (Blocked(s, image) <==> !(exists j :: 0 <= j < |b| && Delimits(b[j])) && !LowerPermitted(Lower(b), s, image))
  {
    hide BeforeColon, Lower, BlockedURL;
    OwnScheme(image);
  }

  /** urlSanitizeImage lets through exactly the relative references, the URLs with the scheme http, https, mailto or
      tel in any case, and the data: URLs of images. */
  lemma {:induction false} AcceptedExactly(s: string, image: string -> bool)
    ensures !Blocked(s, image) <==> Permitted(s, image)
    ensures UrlSanitizeImage(s, image) == if Permitted(s, image) then s else BlockedURL()
  {
    hide BeforeColon, Relative, SchemeIs, SchemePermitted, Blocked, Lower, LowerPermitted, Delimits;
    SanitizedOrSame(s, image);
    SanitizedIs(s, image);
    RelativeExactly(s);
    CutAtColon(s);
    if BeforeColon(s).Some? {
      var b := BeforeColon(s).value;
      NamesArePermitted(b, s, image);
      if SchemePermitted(b, s, image) {
        PermittedIsScheme(b, s, image);
      }
    }
    forall p | SchemeIs(s, p)
      ensures BeforeColon(s) == Some(p)
    {
      SchemeHasNoColon(s, p);
      HasItsColon(s, p);
      ColonCuts(p, s);
    }
  }

  lemma {:induction false} HasItsColon(s: string, p: string)
    requires SchemeIs(s, p)
    ensures p + ":" <= s
  {}

  /** The scheme x is none of those that are let through. */
  lemma {:induction false} ForeignIsBlocked(image: string -> bool)
    ensures Blocked("x:y", image)
  {
    assert "x:y"[1..] == ":y";
    assert BeforeColon(":y") == Some("");
    assert ['x'] + "" == "x";
    assert BeforeColon("x:y") == Some("x");
    assert Lower("x")[0] == 'x';
  }
}

/** Reading back what js.go writes, as ECMA-262 reads the body of a literal. */
module JsLiterals {
  import opened Bytes
  import opened Options
  import opened Utf8
  import opened Js

  /** A string literal (section 12.9.4) in either kind of quotes, or a template (section 12.9.6). */
  datatype Body = StringBody | TemplateBody

  function Rune(c: char): rune
    requires c as int < 0x80
  {
    c as int
  }

  /** What may not stand for itself in a body. Only the start of a substitution is excluded from a
      template by the Standard; a dollar sign on its own is counted here as well. A template reads a
      carriage return as a line feed, so it does not stand for itself either. */
  predicate Special(r: rune, body: Body) {
    r == BACKSLASH || r == 13
    || match body
       case StringBody => r == Rune('\"') || r == Rune('\'') || r == 10
       case TemplateBody => r == Rune('`') || r == Rune('$')
  }

  predicate IsDigit(r: rune) { Rune('0') <= r <= Rune('9') }

  /** The character that a backslash and another character stand for; None for the escapes that go on
      (u, x, digits) and for line continuations. */
  function SingleEscape(r: rune): Option<rune> {
    if r == Rune('u') || r == Rune('x') || IsDigit(r) || r == 10 || r == 13 || r == 0x2028 || r == 0x2029 then None
    else if r == Rune('b') then Some(8)
    else if r == Rune('t') then Some(9)
    else if r == Rune('n') then Some(10)
    else if r == Rune('v') then Some(11)
    else if r == Rune('f') then Some(12)
    else if r == Rune('r') then Some(13)
    else Some(r)
  }

  function Prepend(r: rune, rest: Option<seq<rune>>): Option<seq<rune>> {
    match rest case None => None case Some(rs) => Some([r] + rs)
  }

  /** The four-digit escape at the start of rs. */
  predicate HasUnicodeEscape(rs: seq<rune>) {
    |rs| >= 6 && rs[0] == BACKSLASH && rs[1] == Rune('u') && IsHex(rs[2]) && IsHex(rs[3]) && IsHex(rs[4]) && IsHex(rs[5])
  }

  function UnicodeEscape(rs: seq<rune>): nat
    requires HasUnicodeEscape(rs)
  {
    HexDigit(rs[2]) * 4096 + HexDigit(rs[3]) * 256 + HexDigit(rs[4]) * 16 + HexDigit(rs[5])
  }

  /** The characters that the body of a literal stands for; None where it does not stand for itself,
      and for escapes that are not needed here. */
  function ReadBody(rs: seq<rune>, body: Body): Option<seq<rune>>
    decreases |rs|
  {
    if rs == [] then Some([])
    else if HasUnicodeEscape(rs) then
      if IsSurrogate(UnicodeEscape(rs)) then None else Prepend(UnicodeEscape(rs), ReadBody(rs[6..], body))
    else if rs[0] == BACKSLASH then
      if |rs| < 2 || SingleEscape(rs[1]).None? then None else Prepend(SingleEscape(rs[1]).value, ReadBody(rs[2..], body))
    else if Special(rs[0], body) then None
    else Prepend(rs[0], ReadBody(rs[1..], body))
  }

  // ----- tables that can be read back -----

  /** p is an escape for r. */
  ghost predicate EscapeFor(p: seq<byte>, r: rune) {
    || (r < 0xD800 && p == U4(r))
    || (|p| == 2 && p[0] == BACKSLASH && p[1] < 0x80 && SingleEscape(p[1]) == Some(r))
  }

  /** Every entry is an escape for its index, and every special character has one. */
  ghost predicate Faithful(table: Table, body: Body) {
    && (forall r: rune :: r < |table| && table[r] != [] ==> EscapeFor(table[r], r))
    && (forall r: rune :: Special(r, body) && r >= 0x20 ==> r < |table| && table[r] != [])
  }

  lemma {:induction false} FourDigits(n: nat)
    requires n < 0x1_0000
    ensures n == n / 4096 * 4096 + n / 256 % 16 * 256 + n / 16 % 16 * 16 + n % 16 && n / 4096 < 16
  {
    var a := n / 16;
    var b := a / 16;
    assert b == n / 256 && b / 16 == n / 4096;
    assert n == a * 16 + n % 16 && a == b * 16 + a % 16 && b == b / 16 * 16 + b % 16;
  }

  lemma {:induction false} U4Reads(n: nat, rest: seq<rune>)
    requires n < 0x1_0000
    ensures var rs := AsciiRunes(U4(n)) + rest;
      HasUnicodeEscape(rs) && UnicodeEscape(rs) == n && rs[6..] == rest
  {
    hide IsHex, HexDigit, HexChar;
    FourDigits(n);
    HexCharReads(n / 4096);
    HexCharReads(n / 256 % 16);
    HexCharReads(n / 16 % 16);
    HexCharReads(n % 16);
    var p := AsciiRunes(U4(n));
    var rs := p + rest;
    assert |p| == 6 && p[0] == BACKSLASH && p[1] == Rune('u');
    assert forall k :: 0 <= k < 6 ==> rs[k] == p[k] == U4(n)[k];
  }

  /** An escape is read as its character. */
  lemma {:induction false} EscapeReads(p: seq<byte>, r: rune, rest: seq<rune>, body: Body)
    requires EscapeFor(p, r)
    ensures ReadBody(AsciiRunes(p) + rest, body) == Prepend(r, ReadBody(rest, body))
  {
    hide UnicodeEscape, HasUnicodeEscape, Special, SingleEscape, U4;
    var rs := AsciiRunes(p) + rest;
    if r < 0xD800 && p == U4(r) {
      U4Reads(r, rest);
    } else {
      assert rs[0] == BACKSLASH && rs[1] == p[1] && rs[2..] == rest;
      NotUnicode(rs);
    }
  }

  lemma {:induction false} NotUnicode(rs: seq<rune>)
    requires |rs| >= 2 && SingleEscape(rs[1]).Some?
    ensures !HasUnicodeEscape(rs)
  {}

  lemma {:induction false} LowIsEscape(r: nat)
    requires r < 0x20
    ensures EscapeFor(Low(r), r)
  {}

  lemma {:induction false} ReplacementIsEscape(r: rune, table: Table, body: Body)
    requires Faithful(table, body)
    ensures match Replacement(r, table) case None => !Special(r, body) case Some(p) => EscapeFor(p, r)
  {
    hide EscapeFor, Low, U4;
    if r < 0x20 {
      LowIsEscape(r);
    } else if r == 0x2028 || r == 0x2029 {
      SeparatorIsEscape(r);
    }
  }

  lemma {:induction false} SeparatorIsEscape(r: rune)
    requires r == 0x2028 || r == 0x2029
    ensures EscapeFor(U4(r), r)
  {}

  lemma {:induction false} PlainReads(r: rune, rest: seq<rune>, body: Body)
    requires !Special(r, body)
    ensures ReadBody([r] + rest, body) == Prepend(r, ReadBody(rest, body))
  {
    assert ([r] + rest)[1..] == rest;
  }

  lemma {:induction false} EscapedReads(rs: seq<rune>, table: Table, body: Body)
    requires Faithful(table, body)
    ensures ReadBody(Escaped(rs, table), body) == Some(rs)
  {
    hide Replacement, Special, EscapeFor, Faithful;
    if rs != [] {
      var r, rest := rs[0], Escaped(rs[1..], table);
      EscapedReads(rs[1..], table, body);
      ReplacementIsEscape(r, table, body);
      assert rs == [r] + rs[1..];
      match Replacement(r, table)
      case None => PlainReads(r, rest, body);
      case Some(p) => EscapeReads(p, r, rest, body);
    }
  }

  lemma {:induction false} JsStrIsFaithful()
    ensures Usable(JsStr()) && Faithful(JsStr(), StringBody)
  {
    hide AllAscii, EscapeFor;
    forall r | 0 <= r < |JsStr()|
      ensures AllAscii(JsStr()[r]) && (JsStr()[r] != [] ==> EscapeFor(JsStr()[r], r))
    {
      EntryIsEscape(r);
    }
  }

  lemma {:induction false} EntryIsEscape(r: nat)
    requires r < 0x80
    ensures AllAscii(JsStrEntry(r)) && (JsStrEntry(r) != [] ==> EscapeFor(JsStrEntry(r), r))
    ensures AllAscii(U4(r)) && EscapeFor(U4(r), r)
  {
    if r < 0x20 {
      LowIsAscii(r);
      LowIsEscape(r);
    }
  }

  lemma {:induction false} JsBqStrIsFaithful()
    ensures Usable(JsBqStr()) && Faithful(JsBqStr(), TemplateBody)
  {
    hide AllAscii, EscapeFor, U4;
    forall r | 0 <= r < |JsBqStr()|
      ensures AllAscii(JsBqStr()[r]) && (JsBqStr()[r] != [] ==> EscapeFor(JsBqStr()[r], r))
    {
      EntryIsEscape(r);
    }
  }

  /** Round trip: a text escaped for a string literal is read back as the text, rune by rune. */
  lemma {:induction false} JsStrRoundTrip(s: seq<byte>)
    ensures ReadBody(Runes(Substituted(s, JsStr())), StringBody) == Some(Runes(s))
  {
    hide Usable, Faithful, Substituted, JsStr;
    JsStrIsFaithful();
    RunesOfOutput(s, JsStr());
    EscapedReads(Runes(s), JsStr(), StringBody);
  }

  /** Round trip: a text escaped for a template literal is read back as the text. */
  lemma {:induction false} JsTmplRoundTrip(s: seq<byte>)
    ensures ReadBody(Runes(Substituted(s, JsBqStr())), TemplateBody) == Some(Runes(s))
  {
    hide Usable, Faithful, Substituted, JsBqStr;
    JsBqStrIsFaithful();
    RunesOfOutput(s, JsBqStr());
    EscapedReads(Runes(s), JsBqStr(), TemplateBody);
  }

  // ----- what the output does not contain -----

  /** Quotes, backticks, the characters that matter to HTML, plus signs, and line breaks; in a template also
      the characters of a substitution. */
  predicate Dangerous(r: rune, body: Body) {
    r < 0x20 || r == Rune('\"') || r == Rune('\'') || r == Rune('`') || r == Rune('<') || r == Rune('>') || r == Rune('&')
    || r == Rune('+') || r == 0x2028 || r == 0x2029
    || (body.TemplateBody? && (r == Rune('$') || r == Rune('{') || r == Rune('}')))
  }

  /** Nothing dangerous, and no slash but after a backslash. */
  predicate Harmless(rs: seq<rune>, body: Body) {
    && (forall k :: 0 <= k < |rs| ==> !Dangerous(rs[k], body))
    && forall k :: 0 <= k < |rs| && rs[k] == Rune('/') ==> k > 0 && rs[k - 1] == BACKSLASH
  }

  /** Every dangerous ASCII character has an entry, and so has the slash; no entry contains one. */
  ghost predicate Guards(table: Table, body: Body) {
    && (forall r :: 0 <= r < |table| ==> Harmless(AsciiRunes(table[r]), body))
    && (forall r: rune :: (Dangerous(r, body) || r == Rune('/')) && 0x20 <= r < 0x80 ==> r < |table| && table[r] != [])
  }

  lemma {:induction false} HexCharIsHarmless(d: nat, body: Body)
    requires d < 16
    ensures !Dangerous(HexChar(d), body) && HexChar(d) != Rune('/')
  {}

  lemma {:induction false} U4IsHarmless(n: nat, body: Body)
    requires n < 0x1_0000
    ensures Harmless(AsciiRunes(U4(n)), body)
  {
    hide HexChar;
    HexCharIsHarmless(n / 4096, body);
    HexCharIsHarmless(n / 256 % 16, body);
    HexCharIsHarmless(n / 16 % 16, body);
    HexCharIsHarmless(n % 16, body);
  }

  lemma {:induction false} LowIsHarmless(r: nat, body: Body)
    requires r < 0x20
    ensures Harmless(AsciiRunes(Low(r)), body)
  {
    hide U4;
    U4IsHarmless(r, body);
  }

  lemma {:induction false} WrittenIsHarmless(r: rune, table: Table, body: Body)
    requires Guards(table, body)
    ensures Harmless(Written(r, table), body)
  {
    hide Low, U4, Harmless, Dangerous, Guards, AsciiRunes;
    if r < 0x20 {
      LowIsHarmless(r, body);
    } else if r < |table| && table[r] != [] {
      EntryOfGuard(r, table, body);
    } else if r == 0x2028 || r == 0x2029 {
      U4IsHarmless(r, body);
    } else {
      PlainIsHarmless(r, table, body);
    }
  }

  lemma {:induction false} EntryOfGuard(r: nat, table: Table, body: Body)
    requires Guards(table, body) && r < |table|
    ensures Harmless(AsciiRunes(table[r]), body)
  {
    hide Harmless, Dangerous;
  }

  lemma {:induction false} PlainIsHarmless(r: rune, table: Table, body: Body)
    requires Guards(table, body) && (r < |table| ==> table[r] == []) && r >= 0x20 && r != 0x2028 && r != 0x2029
    ensures Harmless([r], body)
  {
    assert r < 0x80 ==> !Dangerous(r, body) && r != Rune('/');
    assert r >= 0x80 ==> !Dangerous(r, body);
  }

  lemma {:induction false} EscapedIsHarmless(rs: seq<rune>, table: Table, body: Body)
    requires Guards(table, body)
    ensures Harmless(Escaped(rs, table), body)
  {
    hide Written, Guards, Dangerous, Harmless;
    if rs != [] {
      WrittenIsHarmless(rs[0], table, body);
      EscapedIsHarmless(rs[1..], table, body);
      HarmlessConcat(Written(rs[0], table), Escaped(rs[1..], table), body);
    } else {
      NothingIsHarmless(body);
    }
  }

  lemma {:induction false} NothingIsHarmless(body: Body)
    ensures Harmless([], body)
  {}

  lemma {:induction false} HarmlessConcat(x: seq<rune>, y: seq<rune>, body: Body)
    requires Harmless(x, body) && Harmless(y, body)
    ensures Harmless(x + y, body)
  {
    hide Dangerous;
    var z := x + y;
    forall k | 0 <= k < |z|
      ensures !Dangerous(z[k], body) && (z[k] == Rune('/') ==> k > 0 && z[k - 1] == BACKSLASH)
    {
      assert z[k] == if k < |x| then x[k] else y[k - |x|];
    }
  }

  lemma {:induction false} EntryIsHarmless(r: nat, body: Body)
    requires r < 0x80
    ensures Harmless(AsciiRunes(JsStrEntry(r)), body) && Harmless(AsciiRunes(U4(r)), body)
  {
    hide U4, Low;
    U4IsHarmless(r, body);
    if r < 0x20 {
      LowIsHarmless(r, body);
    }
  }

  lemma {:induction false} DangerousHasEntry(r: rune)
    requires 0x20 <= r < 0x80
    ensures Dangerous(r, StringBody) || r == Rune('/') ==> r <= Rune('`') && JsStrEntry(r) != []
    ensures Dangerous(r, TemplateBody) || r == Rune('/') ==>
      r <= Rune('}') && (r == Rune('$') || r == Rune('{') || r == Rune('}') || JsStrEntry(r) != [])
  {}

  /** What the tables hold. */
  lemma {:induction false} Entries(r: nat)
    ensures |JsStr()| == Rune('`') + 1 && |JsBqStr()| == Rune('}') + 1
    ensures r < |JsStr()| ==> JsStr()[r] == JsStrEntry(r)
    ensures r < |JsBqStr()| ==>
      JsBqStr()[r] == if r == Rune('$') || r == Rune('{') || r == Rune('}') then U4(r) else JsStrEntry(r)
  {
    hide JsStrEntry, U4;
  }

  lemma {:induction false} GuardsBy(table: Table, body: Body)
    requires forall r :: 0 <= r < |table| ==> Harmless(AsciiRunes(table[r]), body)
    requires forall r: rune :: (Dangerous(r, body) || r == Rune('/')) && 0x20 <= r < 0x80 ==> r < |table| && table[r] != []
    ensures Guards(table, body)
  {
    hide Harmless, Dangerous, AsciiRunes;
  }

  lemma {:induction false} StrEntryHarmless(r: nat)
    requires r < |JsStr()|
    ensures Harmless(AsciiRunes(JsStr()[r]), StringBody)
  {
    hide U4, Harmless, Dangerous, JsStrEntry, JsStr, AsciiRunes;
    Entries(r);
    EntryIsHarmless(r, StringBody);
  }

  lemma {:induction false} JsStrHas(r: rune)
    requires (Dangerous(r, StringBody) || r == Rune('/')) && 0x20 <= r < 0x80
    ensures r < |JsStr()| && JsStr()[r] != []
  {
    hide U4, Dangerous, JsStrEntry, JsStr;
    Entries(r);
    DangerousHasEntry(r);
  }

  lemma {:induction false} JsStrGuards()
    ensures Guards(JsStr(), StringBody)
  {
    hide U4, Harmless, Dangerous, JsStr, AsciiRunes, Guards;
    forall r | 0 <= r < |JsStr()|
      ensures Harmless(AsciiRunes(JsStr()[r]), StringBody)
    {
      StrEntryHarmless(r);
    }
    forall r: rune | (Dangerous(r, StringBody) || r == Rune('/')) && 0x20 <= r < 0x80
      ensures r < |JsStr()| && JsStr()[r] != []
    {
      JsStrHas(r);
    }
    GuardsBy(JsStr(), StringBody);
  }

  lemma {:induction false} BqEntryHarmless(r: nat)
    requires r < |JsBqStr()|
    ensures Harmless(AsciiRunes(JsBqStr()[r]), TemplateBody)
  {
    hide U4, Harmless, Dangerous, JsStrEntry, JsBqStr, AsciiRunes;
    Entries(r);
    EntryIsHarmless(r, TemplateBody);
  }

  lemma {:induction false} JsBqStrHas(r: rune)
    requires (Dangerous(r, TemplateBody) || r == Rune('/')) && 0x20 <= r < 0x80
    ensures r < |JsBqStr()| && JsBqStr()[r] != []
  {
    hide U4, Dangerous, JsStrEntry, JsBqStr;
    Entries(r);
    DangerousHasEntry(r);
  }

  lemma {:induction false} JsBqStrGuards()
    ensures Guards(JsBqStr(), TemplateBody)
  {
    hide U4, Harmless, Dangerous, JsBqStr, AsciiRunes, Guards;
    forall r | 0 <= r < |JsBqStr()|
      ensures Harmless(AsciiRunes(JsBqStr()[r]), TemplateBody)
    {
      BqEntryHarmless(r);
    }
    forall r: rune | (Dangerous(r, TemplateBody) || r == Rune('/')) && 0x20 <= r < 0x80
      ensures r < |JsBqStr()| && JsBqStr()[r] != []
    {
      JsBqStrHas(r);
    }
    GuardsBy(JsBqStr(), TemplateBody);
  }

  /** No quote, backtick, angle bracket, ampersand, plus sign or line break is in the output, escaped or
      not, and every slash follows a backslash; in that for templates there is no dollar sign or brace either. */
  lemma {:induction false} OutputIsHarmless(s: seq<byte>)
    ensures Harmless(Runes(Substituted(s, JsStr())), StringBody) && Harmless(Runes(Substituted(s, JsBqStr())), TemplateBody)
  {
    hide Usable, Faithful, Substituted, JsStr, JsBqStr, Guards;
    JsStrIsFaithful();
    JsBqStrIsFaithful();
    JsStrGuards();
    JsBqStrGuards();
    RunesOfOutput(s, JsStr());
    RunesOfOutput(s, JsBqStr());
    EscapedIsHarmless(Runes(s), JsStr(), StringBody);
    EscapedIsHarmless(Runes(s), JsBqStr(), TemplateBody);
  }

  /** jsStrString and jsTmplString */
  method EscapeBoth(s: seq<byte>) returns (str: seq<byte>, tmpl: seq<byte>)
    ensures ReadBody(Runes(str), StringBody) == Some(Runes(s)) && Harmless(Runes(str), StringBody)
    ensures ReadBody(Runes(tmpl), TemplateBody) == Some(Runes(s)) && Harmless(Runes(tmpl), TemplateBody)
  {
    str := Replace(s, JsStr());
    tmpl := Replace(s, JsBqStr());
    JsStrRoundTrip(s);
    JsTmplRoundTrip(s);
    OutputIsHarmless(s);
  }
}

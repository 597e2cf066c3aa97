/** What escape.go makes of CSS text, seen from the outside: escapes that are printed are read back, and
    a filtered value stays within its declaration. */
module CssEscapes {
  import opened Bytes
  import opened Utf8
  import opened Css
  import opened Text
  import Declarations

  // ----- escapes -----

  /** The number n in hexadecimal, without leading zeros. */
  function Hex(n: nat): (ds: seq<byte>)
    ensures ds != []
  {
    (if n < 16 then [] else Hex(n / 16)) + [HexChar(n % 16)]
  }

  lemma {:induction false} HexReads(n: nat)
    ensures AllHex(Hex(n)) && HexValue(Hex(n)) == n
    ensures n < 0x100_0000 ==> |Hex(n)| <= 6
  {
    hide IsHex, HexDigit, HexChar;
    HexCharReads(n % 16);
    var ds := Hex(n);
    if n >= 16 {
      HexReads(n / 16);
      assert ds[..|ds| - 1] == Hex(n / 16);
    } else {
      assert ds[..|ds| - 1] == [];
    }
    HexLength(n, 6);
  }

  lemma {:induction false} HexLength(n: nat, k: nat)
    requires k > 0
    ensures n < Power16(k) ==> |Hex(n)| <= k
    ensures Power16(6) == 0x100_0000
  {
    PowersOf16();
    if n >= 16 && k > 1 {
      HexLength(n / 16, k - 1);
    }
  }

  /** The white space of section 4.2 of CSS Syntax Module Level 3, as one line break or blank. */
  predicate OneSpace(w: seq<byte>) { w == [32] || w == [9] || w == [10] || w == [12] || w == [13] || w == [13, 10] }

  /** The digits are read to the end. */
  lemma {:induction false} HexRun(ds: seq<byte>, after: seq<byte>, max: nat)
    requires AllHex(ds) && |ds| <= max && (|ds| == max || after == [] || !IsHex(after[0]))
    ensures HexLen(ds + after, max) == |ds|
  {
    hide IsHex;
    if ds == [] {
      assert ds + after == after;
    } else {
      assert (ds + after)[1..] == ds[1..] + after;
      HexRun(ds[1..], after, max - 1);
    }
  }

  lemma {:induction false} SpaceRun(w: seq<byte>, rest: seq<byte>)
    requires OneSpace(w) && (w == [13] ==> rest == [] || rest[0] != 10)
    ensures SpaceLen(w + rest) == |w| && !IsHex((w + rest)[0])
  {}

  /** An escape of one to six digits with the white space after it stands for the code point of that
      number, in UTF-8. */
  lemma {:induction false} HexEscapeDecodes(ds: seq<byte>, w: seq<byte>, rest: seq<byte>)
    requires AllHex(ds) && 1 <= |ds| <= 6 && HexValue(ds) <= MAX_RUNE
    requires OneSpace(w) && (w == [13] ==> rest == [] || rest[0] != 10)
    ensures Decoded([BACKSLASH] + ds + w + rest) == Encode(HexValue(ds)) + Decoded(rest)
  {
    hide Decoded, IsHex, HexValue, HexLen, Encode, SpaceLen, OneSpace;
    var s := [BACKSLASH] + ds + w + rest;
    SpaceRun(w, rest);
    HexRun(ds, w + rest, 6);
    assert s[1..] == ds + (w + rest) && s[1] == ds[0];
    assert s[1..][..|ds|] == ds && s[|ds| + 1..] == w + rest;
    assert s[|ds| + 1 + |w|..] == rest;
    DecodedEscape(s);
  }

  /** Of six digits for a number that is no code point only the first five are read. */
  lemma {:induction false} LargeEscapeDecodes(ds: seq<byte>, rest: seq<byte>)
    requires AllHex(ds) && |ds| == 6 && HexValue(ds) > MAX_RUNE
    ensures Decoded([BACKSLASH] + ds + rest) == Encode(HexValue(ds[..5])) + Decoded([ds[5]] + rest)
  {
    hide Decoded, IsHex, HexLen, Encode, SpaceLen;
    var s := [BACKSLASH] + ds + rest;
    HexRun(ds, rest, 6);
    assert s[1..] == ds + rest && s[1] == ds[0];
    assert s[1..][..6] == ds && s[6..] == [ds[5]] + rest;
    NoSpace(s[6..]);
    DecodedEscape(s);
  }

  lemma {:induction false} NoSpace(s: seq<byte>)
    requires s != [] && IsHex(s[0])
    ensures SpaceLen(s) == 0
  {}

  /** A backslash before any other character stands for the character. */
  lemma {:induction false} OtherEscapeDecodes(r: rune, rest: seq<byte>)
    requires !IsSurrogate(r) && !IsHex(r)
    ensures Decoded([BACKSLASH] + Encode(r) + rest) == Encode(r) + Decoded(rest)
  {
    hide Decoded, IsHex, Decode;
    var s := [BACKSLASH] + Encode(r) + rest;
    var n := |Encode(r)|;
    assert s[1..] == Encode(r) + rest && s[1] == Encode(r)[0];
    FirstByte(r);
    DecodeEncoded(r, rest);
    assert s[1..1 + n] == Encode(r) && s[1 + n..] == rest;
    DecodedEscape(s);
  }

  lemma {:induction false} FirstByte(r: rune)
    requires !IsHex(r)
    ensures !IsHex(Encode(r)[0])
  {}

  /** A text with every code point escaped. */
  function Escaped(rs: seq<rune>): seq<byte> {
    if rs == [] then [] else [BACKSLASH] + Hex(rs[0]) + [32] + Escaped(rs[1..])
  }

  function EncodeAll(rs: seq<rune>): seq<byte> {
    if rs == [] then [] else Encode(rs[0]) + EncodeAll(rs[1..])
  }

  predicate NoSurrogates(rs: seq<rune>) { forall k :: 0 <= k < |rs| ==> !IsSurrogate(rs[k]) }

  /** Round trip: a text whose every code point is escaped decodes to the text. */
  lemma {:induction false} EscapedDecodes(rs: seq<rune>)
    requires NoSurrogates(rs)
    ensures Decoded(Escaped(rs)) == EncodeAll(rs) && Runes(Decoded(Escaped(rs))) == rs
  {
    hide Hex, Encode, Decode, AllHex, Decoded;
    if rs == [] {
      NothingDecoded();
    } else {
      EscapedDecodes(rs[1..]);
      HexReads(rs[0]);
      HexEscapeDecodes(Hex(rs[0]), [32], Escaped(rs[1..]));
      var e, rest := Encode(rs[0]), EncodeAll(rs[1..]);
      DecodeEncoded(rs[0], rest);
      assert (e + rest)[|e|..] == rest && rs == [rs[0]] + rs[1..];
    }
  }

  // ----- values -----

  /** Something starts at byte k that is no part of a plain value, after section 4.3.1 of CSS Syntax
      Module Level 3: a string, a bracket of any kind, the end of the declaration, an at-keyword, an
      escape, a comment, or an HTML comment of a style sheet; or the end tag of a style element. */
  predicate LeavesValue(b: seq<byte>, k: nat) {
    && k < |b|
    && var c := b[k] as char;
      || c in "\"'()[]{};@\\"
      || OccursAt(b, Ascii("/*"), k) || OccursAt(b, Ascii("<!--"), k) || OccursAt(b, Ascii("-->"), k) || OccursAt(b, Ascii("</"), k)
  }

  /** Nothing of that kind is in a filtered value. */
  lemma {:induction false} FilteredIsPlain(s: seq<byte>, k: nat)
    ensures !LeavesValue(Filtered(s), k)
  {
    hide Filtered, Decoded, Contains, Ident, Ascii, Forbidden;
    FilteredIsSafe(s);
    var b := Filtered(s);
    AsciiTexts();
    if k < |b| {
      assert !Forbidden(b[k]);
      ForbiddenBytes(b[k]);
    }
    NotAt(b, Ascii("/*"), k);
    NotAt(b, Ascii("</"), k);
    NotAt(b, Ascii("<!--"), k);
    NotAt(b, Ascii("-->"), k);
  }

  lemma {:induction false} NotAt(b: seq<byte>, part: seq<byte>, k: nat)
    requires |part| >= 2 && (k + 1 < |b| ==> b[k] != part[0] || b[k + 1] != part[1])
    ensures !OccursAt(b, part, k)
  {
    if k + |part| <= |b| {
      var at := b[k..k + |part|];
      assert at[0] == b[k] && at[1] == b[k + 1];
    }
  }

  lemma {:induction false} AsciiTexts()
    ensures Ascii("/*") == ['/' as int, '*' as int] && Ascii("</") == ['<' as int, '/' as int]
    ensures Ascii("<!--") == ['<' as int, '!' as int, HYPHEN, HYPHEN] && Ascii("-->") == [HYPHEN, HYPHEN, '>' as int]
  {}

  lemma {:induction false} ForbiddenBytes(c: byte)
    requires !Forbidden(c)
    ensures c as char !in "\"'()[]{};@\\" && c != '/' as int && c != '<' as int
  {}

  // ----- the two identifiers -----

  predicate IsLowerWord(word: string) { forall i :: 0 <= i < |word| ==> 'a' <= word[i] <= 'z' }

  /** A letter, digit or underscore. */
  predicate WordByte(c: byte) {
    var l := LowerChar(c as char);
    'a' <= l <= 'z' || '0' <= l <= '9' || l == '_'
  }

  /** From byte k on, the letters, digits and underscores spell the word, in any case and whatever else is
      in between. */
  predicate Spells(b: seq<byte>, k: nat, word: string)
    decreases |b| - k
  {
    word == "" || (k < |b| &&
      if WordByte(b[k]) then LowerChar(b[k] as char) == word[0] && Spells(b, k + 1, word[1..])
      else Spells(b, k + 1, word))
  }

  ghost predicate SpelledIn(b: seq<byte>, word: string) {
    exists k: nat :: k <= |b| && Spells(b, k, word)
  }

  lemma {:induction false} WordByteIs(c: byte)
    ensures WordByte(c) <==> IsNmchar(c)
    ensures WordByte(c) ==> LowerByte(c) == LowerChar(c as char) as int
    ensures LowerChar(c as char) as int < 256
  {}

  lemma {:induction false} IdentConcat(x: seq<byte>, y: seq<byte>)
    ensures Ident(x + y) == Ident(x) + Ident(y)
  {
    hide IsNmchar, LowerByte;
    if y == [] {
      assert x + y == x;
    } else {
      assert (x + y)[..|x + y| - 1] == x + y[..|y| - 1];
      IdentConcat(x, y[..|y| - 1]);
    }
  }

  lemma {:induction false} IdentFirst(b: seq<byte>, k: nat)
    requires k < |b|
    ensures Ident(b[k..]) == (if WordByte(b[k]) then [LowerChar(b[k] as char) as int] else []) + Ident(b[k + 1..])
  {
    hide LowerChar, WordByte, IsNmchar, LowerByte;
    var one := [b[k]];
    assert one[..0] == [] && b[k..] == one + b[k + 1..];
    IdentConcat(one, b[k + 1..]);
    WordByteIs(b[k]);
  }

  predicate StartsWith(b: seq<byte>, part: seq<byte>) { |part| <= |b| && b[..|part|] == part }

  lemma {:induction false} SpellsIsPrefix(b: seq<byte>, k: nat, word: string)
    requires IsLowerWord(word) && k <= |b|
    ensures Spells(b, k, word) <==> StartsWith(Ident(b[k..]), Ascii(word))
    decreases |b| - k
  {
    hide LowerChar, WordByte, Ident;
    if word == "" {
    } else if k == |b| {
      IdentEmpty(b[k..]);
    } else {
      IdentFirst(b, k);
      if WordByte(b[k]) {
        SpellsIsPrefix(b, k + 1, word[1..]);
        WordByteIs(b[k]);
        StartsCons(LowerChar(b[k] as char), Ident(b[k + 1..]), word);
      } else {
        SpellsIsPrefix(b, k + 1, word);
        assert [] + Ident(b[k + 1..]) == Ident(b[k + 1..]);
      }
    }
  }

  lemma {:induction false} IdentEmpty(b: seq<byte>)
    ensures b == [] ==> Ident(b) == []
  {}

  lemma {:induction false} StartsCons(c: char, rest: seq<byte>, word: string)
    requires IsLowerWord(word) && word != "" && c as int < 256
    ensures StartsWith([c as int] + rest, Ascii(word)) <==> c == word[0] && StartsWith(rest, Ascii(word[1..]))
  {
    var b, part := [c as int] + rest, Ascii(word);
    assert part == [word[0] as int] + Ascii(word[1..]);
    if |part| <= |b| {
      var start, more := rest[..|part| - 1], Ascii(word[1..]);
      assert b[..|part|] == [c as int] + start;
      assert b[..|part|] == part ==> b[..|part|][0] == part[0] && b[..|part|][1..] == start && part[1..] == more;
    }
  }

  /** Where in the value the first j identifier characters end. */
  lemma {:induction false} CutAt(b: seq<byte>, j: nat) returns (k: nat)
    requires j <= |Ident(b)|
    ensures k <= |b| && Ident(b[k..]) == Ident(b)[j..]
  {
    hide LowerChar, WordByte, Ident;
    k := 0;
    assert b[0..] == b;
    if j > 0 {
      IdentEmpty(b);
      IdentFirst(b, 0);
      var i := CutAt(b[1..], if WordByte(b[0]) then j - 1 else j);
      k := i + 1;
      assert b[1..][i..] == b[k..];
    }
  }

  /** What the filter looks for among the identifier characters is spelled in the value itself. */
  lemma {:induction false} ContainedIsSpelled(b: seq<byte>, word: string)
    requires IsLowerWord(word)
    ensures Contains(Ident(b), Ascii(word)) <==> SpelledIn(b, word)
  {
    hide Ident, Spells;
    if Contains(Ident(b), Ascii(word)) {
      var j: nat :| OccursAt(Ident(b), Ascii(word), j);
      var k := CutAt(b, j);
      assert Ident(b)[j..][..|word|] == Ident(b)[j..j + |word|];
      SpellsIsPrefix(b, k, word);
    }
    if SpelledIn(b, word) {
      var k: nat :| k <= |b| && Spells(b, k, word);
      SpellsIsPrefix(b, k, word);
      IdentConcat(b[..k], b[k..]);
      assert b == b[..k] + b[k..];
      var j := |Ident(b[..k])|;
      assert Ident(b)[j..j + |word|] == Ident(b[k..])[..|word|];
      assert OccursAt(Ident(b), Ascii(word), j);
    }
  }

  predicate NoDouble(b: seq<byte>) { forall k :: 0 < k < |b| ==> !(b[k] == HYPHEN && b[k - 1] == HYPHEN) }

  /** The values that pass: none of sixteen bytes, no two hyphens in a row, and neither identifier spelled
      in any disguise. */
  lemma {:induction false} SafeExactly(b: seq<byte>)
    ensures SafeValue(b) <==>
      && (forall k :: 0 <= k < |b| ==> b[k] as char !in "\0\"'()/;@[\\]`{}<>")
      && (forall k: nat :: !OccursAt(b, Ascii("--"), k))
      && !SpelledIn(b, "expression") && !SpelledIn(b, "mozbinding")
  {
    hide Forbidden, SpelledIn, Contains, Ident, Ascii;
    ContainedIsSpelled(b, "expression");
    ContainedIsSpelled(b, "mozbinding");
    forall k | 0 <= k < |b|
      ensures Forbidden(b[k]) <==> b[k] as char in "\0\"'()/;@[\\]`{}<>"
    {
      ForbiddenExactly(b[k]);
    }
    forall k: nat
      ensures OccursAt(b, Ascii("--"), k) <==> k + 1 < |b| && b[k] == HYPHEN && b[k + 1] == HYPHEN
    {
      TwoHyphens(b, k);
    }
    assert (forall k: nat :: !OccursAt(b, Ascii("--"), k)) <==> NoDouble(b) by {
      hide SafeValue;
      if forall k: nat :: !OccursAt(b, Ascii("--"), k) {
        forall k | 0 < k < |b|
          ensures !(b[k] == HYPHEN && b[k - 1] == HYPHEN)
        {
          assert !OccursAt(b, Ascii("--"), k - 1);
        }
      }
      if NoDouble(b) {
        forall k: nat
          ensures !OccursAt(b, Ascii("--"), k)
        {
          assert k + 1 < |b| ==> !(b[k + 1] == HYPHEN && b[(k + 1) - 1] == HYPHEN);
        }
      }
    }
  }

  lemma {:induction false} ForbiddenExactly(c: byte)
    ensures Forbidden(c) <==> c as char in "\0\"'()/;@[\\]`{}<>"
  {
    var all := "\0\"'()/;@[\\]`{}<>";
    assert |all| == 16;
    if c as char in all {
      var i :| 0 <= i < |all| && all[i] == c as char;
    }
  }

  lemma {:induction false} TwoHyphens(b: seq<byte>, k: nat)
    ensures OccursAt(b, Ascii("--"), k) <==> k + 1 < |b| && b[k] == HYPHEN && b[k + 1] == HYPHEN
  {
    assert Ascii("--") == [HYPHEN, HYPHEN];
    if k + 2 <= |b| {
      assert b[k..k + 2] == [b[k], b[k + 1]];
    }
  }

  function Chars(b: seq<byte>): (s: string)
    ensures |s| == |b|
  {
    seq(|b|, i requires 0 <= i < |b| => b[i] as char)
  }

  /** A filtered value keeps its declaration in one piece and leaves nothing open, whatever it is put after. */
  lemma {:induction false} FilteredStaysInside(s: seq<byte>, before: string)
    ensures var d := before + Chars(Filtered(s));
      (Declarations.Closed(before) ==> Declarations.Closed(d))
      && (Declarations.NoBreak(before, Declarations.TOP) ==> Declarations.NoBreak(d, Declarations.TOP))
  {
    hide Filtered;
    var v := Chars(Filtered(s));
    forall k | 0 <= k < |v|
      ensures v[k] !in "\"'();"
    {
      FilteredIsPlain(s, k);
    }
    var st := Declarations.Run(Declarations.TOP, before);
    PlainScan(v, st);
    Declarations.RunConcat(Declarations.TOP, before, v);
    Declarations.NoBreakConcat(Declarations.TOP, before, v);
  }

  lemma {:induction false} PlainScan(v: string, st: Declarations.Lex)
    requires forall k :: 0 <= k < |v| ==> v[k] !in "\"'();"
    ensures Declarations.NoBreak(v, st) && (st == Declarations.TOP ==> Declarations.Run(st, v) == st)
    decreases v
  {
    if v != [] {
      assert v[0] !in "\"'();";
      PlainScan(v[1..], Declarations.Step(st, v[0]));
    }
  }
}

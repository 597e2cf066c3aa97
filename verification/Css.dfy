/** escape.go: decoding CSS escapes, and filtering CSS values. */
module Css {
  import opened Bytes
  import opened Utf8

  predicate AllHex(s: seq<byte>) { forall k :: 0 <= k < |s| ==> IsHex(s[k]) }

  /** The number that hexadecimal digits stand for. */
  function HexValue(s: seq<byte>): (n: nat)
    requires AllHex(s)
  {
    if s == [] then 0 else HexValue(s[..|s| - 1]) * 16 + HexDigit(s[|s| - 1])
  }

  /** hexDecode; the digits are at most six, so Go's 32-bit rune does not overflow. */
  method HexDecode(s: seq<byte>) returns (n: nat)
    requires AllHex(s) && |s| <= 6
    ensures n == HexValue(s) && n < 0x8000_0000
  {
    n := 0;
    for k := 0 to |s|
      invariant n == HexValue(s[..k])
    {
      assert s[..k + 1][..k] == s[..k];
      n := n * 16 + HexDigit(s[k]);
    }
    assert s[..|s|] == s;
    HexBound(s);
  }

  function Power16(k: nat): nat { if k == 0 then 1 else 16 * Power16(k - 1) }

  lemma {:induction false} HexBound(s: seq<byte>)
    requires AllHex(s)
    ensures HexValue(s) < Power16(|s|)
    ensures |s| <= 6 ==> Power16(|s|) <= 0x100_0000
  {
    if s != [] {
      HexBound(s[..|s| - 1]);
    }
    PowersOf16();
  }

  lemma {:induction false} PowersOf16()
    ensures Power16(0) == 1 && Power16(1) == 0x10 && Power16(2) == 0x100 && Power16(3) == 0x1000
    ensures Power16(4) == 0x1_0000 && Power16(5) == 0x10_0000 && Power16(6) == 0x100_0000
  {
    assert Power16(2) == 16 * Power16(1);
    assert Power16(4) == 16 * Power16(3);
    assert Power16(6) == 16 * Power16(5);
  }

  /** skipCSSSpace: the white space that ends an escape. */
  function SpaceLen(c: seq<byte>): (n: nat)
    ensures n <= |c|
  {
    if c == [] then 0
    else if c[0] == 9 || c[0] == 10 || c[0] == 12 || c[0] == 32 then 1
    else if c[0] == 13 then (if |c| >= 2 && c[1] == 10 then 2 else 1)
    else 0
  }

  /** How many hexadecimal digits s starts with, at most max. */
  function HexLen(s: seq<byte>, max: nat): (n: nat)
    ensures n <= |s| && n <= max && AllHex(s[..n])
  {
    if s == [] || max == 0 || !IsHex(s[0]) then 0
    else
      var n := HexLen(s[1..], max - 1);
      assert s[..n + 1] == [s[0]] + s[1..][..n];
      n + 1
  }

  /** An escape: what it stands for, and how many bytes it takes, the white space after it included. */
  datatype Escape = Escape(text: seq<byte>, len: nat)

  /** The escape at the start of s. A hexadecimal one has up to six digits; when they exceed the
      largest code point, the last digit is left in place. */
  function ReadEscape(s: seq<byte>): (e: Escape)
    requires |s| >= 2 && s[0] == BACKSLASH
    ensures e.len <= |s|
  {
    if IsHex(s[1]) then
      var n := HexLen(s[1..], 6);
      var value := HexValue(s[1..][..n]);
      var r := if value > MAX_RUNE then value / 16 else value;
      var j := if value > MAX_RUNE then n else n + 1;
      Escape(Encode(r), j + SpaceLen(s[j..]))
    else
      var n := Decode(s[1..]).1;
      Escape(s[1..1 + n], 1 + n)
  }

  /** An escape stands for fewer bytes than it takes. */
  lemma {:induction false} EscapeShrinks(s: seq<byte>)
    requires |s| >= 2 && s[0] == BACKSLASH
    ensures 0 < |ReadEscape(s).text| < ReadEscape(s).len
  {
    if IsHex(s[1]) {
      var digits := s[1..];
      var n := HexLen(digits, 6);
      assert n > 0;
      HexBound(digits[..n]);
      PowersOf16();
      EncodeLength(HexValue(digits[..n]));
      EncodeLength(HexValue(digits[..n]) / 16);
    }
  }

  /** The lengths of section 3 of RFC 3629. */
  lemma {:induction false} EncodeLength(r: nat)
    ensures r < 0x80 ==> |Encode(r)| == 1
    ensures 0x80 <= r < 0x800 ==> |Encode(r)| == 2
    ensures 0x800 <= r < 0x1_0000 ==> |Encode(r)| == 3
    ensures 0x1_0000 <= r <= MAX_RUNE ==> |Encode(r)| == 4
  {}

  /** What decodeCSS computes. */
  function Decoded(s: seq<byte>): seq<byte>
    decreases |s|
  {
    if s == [] then []
    else if s[0] != BACKSLASH then [s[0]] + Decoded(s[1..])
    else if |s| < 2 then []
    else
      EscapeShrinks(s);
      ReadEscape(s).text + Decoded(s[ReadEscape(s).len..])
  }

  /** The result is no longer than the input, and shorter when there was an escape. */
  lemma {:induction false} DecodedIsShorter(s: seq<byte>)
    ensures |Decoded(s)| <= |s|
    ensures BACKSLASH in s ==> |Decoded(s)| < |s|
    ensures BACKSLASH !in s ==> Decoded(s) == s
    decreases |s|
  {
    hide ReadEscape;
    if s != [] {
      if s[0] != BACKSLASH {
        DecodedIsShorter(s[1..]);
        assert s == [s[0]] + s[1..];
      } else if |s| >= 2 {
        EscapeShrinks(s);
        DecodedIsShorter(s[ReadEscape(s).len..]);
      }
    }
  }

  // ----- the methods -----

  /** An append to a slice of b: the bytes are written in place, for the capacity suffices. */
  method Append(b: array<byte>, len: nat, more: seq<byte>) returns (len': nat)
    requires len + |more| <= b.Length
    modifies b
    ensures len' == len + |more| && b[..len'] == old(b[..len]) + more
  {
    for k := 0 to |more|
      invariant b[..len] == old(b[..len]) && b[len..len + k] == more[..k]
    {
      b[len + k] := more[k];
    }
    len' := len + |more|;
    assert b[..len'] == b[..len] + b[len..len'];
    assert more[..|more|] == more;
  }

  /** bytes.IndexByte of a backslash, or the length */
  method IndexBackslash(s: seq<byte>) returns (i: nat)
    ensures i <= |s| && BACKSLASH !in s[..i] && (i < |s| ==> s[i] == BACKSLASH)
  {
    i := 0;
    while i < |s| && s[i] != BACKSLASH
      invariant i <= |s| && BACKSLASH !in s[..i]
    {
      i := i + 1;
    }
  }

  lemma {:induction false} DecodedPlain(s: seq<byte>, i: nat)
    requires i <= |s| && BACKSLASH !in s[..i]
    ensures Decoded(s) == s[..i] + Decoded(s[i..])
  {
    if i > 0 {
      assert s[0] == s[..i][0];
      assert s[1..][..i - 1] == s[..i][1..] && s[1..][i - 1..] == s[i..];
      DecodedPlain(s[1..], i - 1);
      assert s[..i] == [s[0]] + s[1..][..i - 1];
    } else {
      assert s[0..] == s;
    }
  }

  /** decodeCSS. The buffer has the capacity of the input: every append fits, and so does every
      utf8.EncodeRune into the free part, because an escape encodes to fewer bytes than it took. */
  method DecodeCSS(input: seq<byte>) returns (decoded: seq<byte>)
    ensures decoded == Decoded(input) && |decoded| <= |input|
  {
    hide Decoded, ReadEscape, Encode;
    DecodedIsShorter(input);
    if BACKSLASH !in input {
      return input;
    }
    var b := new byte[|input|];
    var len, s := 0, input;
    while |s| != 0
      invariant len + |s| <= b.Length
      invariant b[..len] + Decoded(s) == Decoded(input)
      decreases |s|
    {
      var i := IndexBackslash(s);
      DecodedPlain(s, i);
      ghost var done, plain := b[..len], s[..i];
      len := Append(b, len, s[..i]);
      s := s[i..];
      assert done + (plain + Decoded(s)) == b[..len] + Decoded(s);
      if |s| < 2 {
        LoneBackslash(s);
        break;
      }
      var e := OneEscape(s);
      EscapeShrinks(s);
      DecodedEscape(s);
      ghost var before := b[..len];
      len := Append(b, len, e.text);
      assert before + (e.text + Decoded(s[e.len..])) == b[..len] + Decoded(s[e.len..]);
      s := s[e.len..];
    }
    NothingDecoded();
    decoded := b[..len];
  }

  lemma {:induction false} NothingDecoded()
    ensures Decoded([]) == []
  {}

  /** A backslash at the end is dropped. */
  lemma {:induction false} LoneBackslash(s: seq<byte>)
    requires |s| < 2 && (s != [] ==> s[0] == BACKSLASH)
    ensures Decoded(s) == []
  {}

  lemma {:induction false} DecodedEscape(s: seq<byte>)
    requires |s| >= 2 && s[0] == BACKSLASH
    ensures Decoded(s) == ReadEscape(s).text + Decoded(s[ReadEscape(s).len..])
  {
    hide ReadEscape;
  }

  /** The inner loop of decodeCSS: the digits of an escape. */
  method ScanHex(s: seq<byte>) returns (j: nat)
    requires |s| >= 2 && IsHex(s[1])
    ensures j == 1 + HexLen(s[1..], 6) && j <= |s| && 2 <= j <= 7
  {
    hide IsHex;
    j := 2;
    ghost var digits := s[1..];
    assert digits[1..] == s[2..];
    while j < |s| && j < 7 && IsHex(s[j])
      invariant 2 <= j <= |s| && j <= 7
      invariant HexLen(digits, 6) == j - 1 + HexLen(s[j..], 7 - j)
    {
      assert s[j..][1..] == s[j + 1..];
      j := j + 1;
    }
  }

  /** The body of the loop of decodeCSS after a backslash. */
  method OneEscape(s: seq<byte>) returns (e: Escape)
    requires |s| >= 2 && s[0] == BACKSLASH
    ensures e == ReadEscape(s)
  {
    hide HexValue, Encode, Decode, IsHex, HexLen;
    if IsHex(s[1]) {
      var j := ScanHex(s);
      assert s[1..][..j - 1] == s[1..j];
      var r := HexDecode(s[1..j]);
      if r > MAX_RUNE {
        r, j := r / 16, j - 1;
      }
      return Escape(Encode(r), j + SpaceLen(s[j..]));
    }
    var n := Decode(s[1..]).1;
    return Escape(s[1..1 + n], 1 + n);
  }

  // ----- the filter -----

  /** The bytes that no filtered value contains. */
  predicate Forbidden(c: byte) {
    c == 0 || c == '\"' as int || c == '\'' as int || c == '(' as int || c == ')' as int || c == '/' as int || c == ';' as int
    || c == '@' as int || c == '[' as int || c == BACKSLASH || c == ']' as int || c == '`' as int || c == '{' as int
    || c == '}' as int || c == '<' as int || c == '>' as int
  }

  const HYPHEN: byte := '-' as int

  /** isCSSNmchar on ASCII bytes other than the hyphen */
  predicate IsNmchar(c: byte) {
    'a' as int <= c <= 'z' as int || 'A' as int <= c <= 'Z' as int || '0' as int <= c <= '9' as int || c == '_' as int
  }

  function LowerByte(c: byte): byte { if 'A' as int <= c <= 'Z' as int then c as int + 32 else c }

  /** The identifier characters of a value, in lower case. */
  function Ident(b: seq<byte>): seq<byte> {
    if b == [] then []
    else Ident(b[..|b| - 1]) + (if IsNmchar(b[|b| - 1]) then [LowerByte(b[|b| - 1])] else [])
  }

  function Ascii(s: string): (b: seq<byte>)
    ensures |b| == |s|
  {
    seq(|s|, i requires 0 <= i < |s| => s[i] as int % 256)
  }

  predicate OccursAt(b: seq<byte>, part: seq<byte>, k: nat) {
    k + |part| <= |b| && b[k..k + |part|] == part
  }

  /** bytes.Contains */
  ghost predicate Contains(b: seq<byte>, part: seq<byte>) {
    exists k :: OccursAt(b, part, k)
  }

  /** What a value in a style attribute must be. */
  ghost predicate SafeValue(b: seq<byte>) {
    && (forall k :: 0 <= k < |b| ==> !Forbidden(b[k]))
    && (forall k :: 0 < k < |b| ==> !(b[k] == HYPHEN && b[k - 1] == HYPHEN))
    && !Contains(Ident(b), Ascii("expression")) && !Contains(Ident(b), Ascii("mozbinding"))
  }

  /** cssFailsafe */
  function Failsafe(): seq<byte> { Ascii("ZgotmplZ") }

  /** What cssValueFilter computes: the decoded value if it is safe. */
  ghost function Filtered(s: seq<byte>): seq<byte> {
    if SafeValue(Decoded(s)) then Decoded(s) else Failsafe()
  }

  method ContainsBytes(b: seq<byte>, part: seq<byte>) returns (found: bool)
    ensures found == Contains(b, part)
  {
    var k := 0;
    while k + |part| <= |b|
      invariant forall j :: 0 <= j < k ==> !OccursAt(b, part, j)
    {
      if OccursAt(b, part, k) {
        return true;
      }
      k := k + 1;
    }
    return false;
  }

  /** cssValueFilter */
  method CssValueFilter(s: seq<byte>) returns (out: seq<byte>)
    ensures out == Filtered(s)
  {
    hide Decoded, Forbidden, Contains, Ascii;
    var b := DecodeCSS(s);
    var id: seq<byte> := [];
    for i := 0 to |b|
      invariant forall k :: 0 <= k < i ==> !Forbidden(b[k])
      invariant forall k :: 0 < k < i ==> !(b[k] == HYPHEN && b[k - 1] == HYPHEN)
      invariant LowerAll(id) == Ident(b[..i])
    {
      assert b[..i + 1][..i] == b[..i];
      var c := b[i];
      if Forbidden(c) {
        return Failsafe();
      }
      if c == HYPHEN {
        if i != 0 && b[i - 1] == HYPHEN {
          return Failsafe();
        }
      } else if IsNmchar(c) {
        LowerStep(id, c);
        id := id + [c];
      }
    }
    assert b[..|b|] == b;
    id := LowerAll(id);
    var expression := ContainsBytes(id, Ascii("expression"));
    var binding := ContainsBytes(id, Ascii("mozbinding"));
    if expression || binding {
      return Failsafe();
    }
    return b;
  }

  function LowerAll(b: seq<byte>): (l: seq<byte>)
    ensures |l| == |b|
  {
    seq(|b|, i requires 0 <= i < |b| => LowerByte(b[i]))
  }

  lemma {:induction false} LowerStep(b: seq<byte>, c: byte)
    ensures LowerAll(b + [c]) == LowerAll(b) + [LowerByte(c)]
  {}

  /** Whatever the input, the output is a safe value without an escape, and no longer than the input
      or the placeholder. */
  lemma {:induction false} FilteredIsSafe(s: seq<byte>)
    ensures SafeValue(Filtered(s)) && BACKSLASH !in Filtered(s)
    ensures |Filtered(s)| <= |s| || Filtered(s) == Failsafe()
  {
    hide Decoded, Contains, Ident, Ascii;
    DecodedIsShorter(s);
    FailsafeIsSafe();
    assert Forbidden(BACKSLASH);
  }

  predicate IsLetter(c: byte) { 'a' as int <= c <= 'z' as int || 'A' as int <= c <= 'Z' as int }

  lemma {:induction false} LettersAreFine(c: byte)
    requires IsLetter(c)
    ensures !Forbidden(c) && c != HYPHEN
  {}

  lemma {:induction false} FailsafeLetters()
    ensures |Failsafe()| == 8 && forall k :: 0 <= k < 8 ==> IsLetter(Failsafe()[k])
  {
    assert forall k :: 0 <= k < 8 ==> Failsafe()[k] == "ZgotmplZ"[k] as int;
  }

  lemma {:induction false} FailsafeIsSafe()
    ensures SafeValue(Failsafe())
  {
    hide Forbidden, IsLetter, Failsafe, Ident;
    FailsafeLetters();
    forall k | 0 <= k < 8
      ensures !Forbidden(Failsafe()[k]) && Failsafe()[k] != HYPHEN
    {
      LettersAreFine(Failsafe()[k]);
    }
    assert |Ascii("expression")| == 10 && |Ascii("mozbinding")| == 10;
    IdentLength(Failsafe());
  }

  lemma {:induction false} IdentLength(b: seq<byte>)
    ensures |Ident(b)| <= |b|
  {
    if b != [] {
      IdentLength(b[..|b| - 1]);
    }
  }

  /** Filtering a filtered value changes nothing. */
  lemma {:induction false} FilterIsIdempotent(s: seq<byte>)
    ensures Filtered(Filtered(s)) == Filtered(s)
  {
    hide Decoded, SafeValue;
    FilteredIsSafe(s);
    DecodedIsShorter(Filtered(s));
  }

  /** The filter keeps a value exactly when it is safe and has no escape, or is the placeholder. */
  lemma {:induction false} FilterKeeps(s: seq<byte>)
    ensures Filtered(s) == s <==> SafeValue(s) && BACKSLASH !in s
  {
    hide Decoded, SafeValue;
    DecodedIsShorter(s);
    FilteredIsSafe(s);
  }
}

/** js.go: escaping text for JavaScript string and template literals. */
module Js {
  import opened Bytes
  import opened Options
  import opened Utf8

  /** A backslash-u escape. */
  function U4(n: nat): (b: seq<byte>)
    requires n < 0x1_0000
    ensures |b| == 6
  {
    [BACKSLASH, 'u' as int, HexChar(n / 4096), HexChar(n / 256 % 16), HexChar(n / 16 % 16), HexChar(n % 16)]
  }

  /** A backslash and a character. */
  function Esc(c: char): (b: seq<byte>)
    requires c as int < 0x80
    ensures |b| == 2
  {
    [BACKSLASH, c as int]
  }

  /** lowUnicodeReplacementTable */
  function Low(r: nat): (b: seq<byte>)
    requires r < 0x20
    ensures b != []
  {
    if r == 9 then Esc('t') else if r == 10 then Esc('n') else if r == 12 then Esc('f') else if r == 13 then Esc('r') else U4(r)
  }

  /** A replacement table; an empty entry replaces nothing. */
  type Table = seq<seq<byte>>

  /** An entry of jsStrReplacementTable. */
  function JsStrEntry(r: nat): seq<byte> {
    if r == 0 || r == 9 || r == 10 || r == 11 || r == 12 || r == 13 then Low(r)
    else if r == '\"' as int || r == '`' as int || r == '&' as int || r == '\'' as int || r == '+' as int
         || r == '<' as int || r == '>' as int then U4(r)
    else if r == '/' as int then Esc('/')
    else if r == '\\' as int then Esc('\\')
    else []
  }

  /** jsStrReplacementTable */
  function JsStr(): Table { seq('`' as int + 1, i requires 0 <= i => JsStrEntry(i)) }

  /** jsBqStrReplacementTable: that of strings, and the special characters of templates. */
  function JsBqStr(): Table {
    seq('}' as int + 1, i requires 0 <= i =>
      if i == '$' as int || i == '{' as int || i == '}' as int then U4(i) else JsStrEntry(i))
  }

  // ----- replace -----

  /** What replace writes for a rune, if not the rune itself. */
  function Replacement(r: rune, table: Table): Option<seq<byte>> {
    if r < 0x20 then Some(Low(r))
    else if r < |table| && table[r] != [] then Some(table[r])
    else if r == 0x2028 then Some(U4(0x2028))
    else if r == 0x2029 then Some(U4(0x2029))
    else None
  }

  /** The text with every rune replaced on its own. */
  function Substituted(s: seq<byte>, table: Table): seq<byte>
    decreases |s|
  {
    if s == [] then []
    else
      var (r, w) := Decode(s);
      (match Replacement(r, table) case None => s[..w] case Some(p) => p) + Substituted(s[w..], table)
  }

  /** The first i bytes are done: b, and the chunk that is not yet copied. */
  ghost predicate Copied(s: seq<byte>, b: seq<byte>, written: nat, i: nat, table: Table) {
    && written <= i <= |s| && (written == 0 ==> b == [])
    && b + (s[written..i] + Substituted(s[i..], table)) == Substituted(s, table)
  }

  /** replace: copies the runs between replacements as chunks. Whatever the table, the result is that
      of replacing rune by rune. */
  method Replace(s: seq<byte>, table: Table) returns (out: seq<byte>)
    ensures out == Substituted(s, table)
  {
    hide Decode, Replacement, Copied, Substituted;
    var b: seq<byte> := [];
    var written, i := 0, 0;
    CopiedStart(s, table);
    while i < |s|
      invariant written <= i <= |s| && Copied(s, b, written, i, table)
      decreases |s| - i
    {
      var (r, w) := Decode(s[i..]);
      var repl := Replacement(r, table);
      CopiedStep(s, b, written, i, table);
      if repl.None? {
        i := i + w;
        continue;
      }
      b := b + s[written..i];
      b := b + repl.value;
      written := i + w;
      i := i + w;
    }
    CopiedEnd(s, b, written, table);
    if written == 0 {
      return s;
    }
    out := b + s[written..];
  }

  lemma {:induction false} CopiedStart(s: seq<byte>, table: Table)
    ensures Copied(s, [], 0, 0, table)
  {
    hide Substituted;
    assert s[0..] == s && s[0..0] == [];
  }

  lemma {:induction false} CopiedEnd(s: seq<byte>, b: seq<byte>, written: nat, table: Table)
    requires Copied(s, b, written, |s|, table)
    ensures Substituted(s, table) == b + s[written..] && (written == 0 ==> Substituted(s, table) == s)
  {
    assert s[|s|..] == [] && s[written..|s|] == s[written..];
  }

  lemma {:induction false} SubstitutedStep(s: seq<byte>, i: nat, table: Table)
    requires i < |s|
    ensures var (r, w) := Decode(s[i..]);
      && i + w <= |s|
      && Substituted(s[i..], table) == (match Replacement(r, table) case None => s[i..i + w] case Some(p) => p) + Substituted(s[i + w..], table)
  {
    hide Decode, Replacement;
    var w := Decode(s[i..]).1;
    assert s[i..][..w] == s[i..i + w] && s[i..][w..] == s[i + w..];
  }

  /** A rune that is kept extends the chunk; another one ends it. */
  lemma {:induction false} CopiedStep(s: seq<byte>, b: seq<byte>, written: nat, i: nat, table: Table)
    requires i < |s| && Copied(s, b, written, i, table)
    ensures var (r, w) := Decode(s[i..]);
      && i + w <= |s|
      && match Replacement(r, table)
         case None => Copied(s, b, written, i + w, table)
         case Some(p) => Copied(s, b + s[written..i] + p, i + w, i + w, table)
  {
    hide Decode, Replacement, Substituted;
    SubstitutedStep(s, i, table);
    var (r, w) := Decode(s[i..]);
    var chunk, rest := s[written..i], Substituted(s[i + w..], table);
    match Replacement(r, table)
    case None =>
      assert s[written..i + w] == chunk + s[i..i + w];
      assert b + (chunk + (s[i..i + w] + rest)) == b + ((chunk + s[i..i + w]) + rest);
    case Some(p) =>
      assert s[i + w..i + w] == [];
      assert b + (chunk + (p + rest)) == b + chunk + p + ([] + rest);
  }

  // ----- the runes of the output -----

  predicate AllAscii(b: seq<byte>) { forall k :: 0 <= k < |b| ==> b[k] < 0x80 }

  /** A table of replacements for ASCII characters, in ASCII. */
  predicate Usable(table: Table) {
    |table| <= 0x80 && forall r :: 0 <= r < |table| ==> AllAscii(table[r])
  }

  function AsciiRunes(b: seq<byte>): (rs: seq<rune>)
    ensures |rs| == |b|
  {
    seq(|b|, i requires 0 <= i < |b| => b[i])
  }

  /** What is written for a rune, as runes. */
  function Written(r: rune, table: Table): seq<rune> {
    match Replacement(r, table) case None => [r] case Some(p) => AsciiRunes(p)
  }

  function Escaped(rs: seq<rune>, table: Table): seq<rune> {
    if rs == [] then [] else Written(rs[0], table) + Escaped(rs[1..], table)
  }

  lemma {:induction false} LowIsAscii(r: nat)
    requires r < 0x20
    ensures AllAscii(Low(r))
  {}

  lemma {:induction false} ReplacementIsAscii(r: rune, table: Table)
    requires Usable(table) && Replacement(r, table).Some?
    ensures AllAscii(Replacement(r, table).value) && Replacement(r, table).value != [] && r != RUNE_ERROR
  {
    hide Low, AllAscii;
    if r < 0x20 {
      LowIsAscii(r);
    }
    SeparatorsAreAscii();
  }

  lemma {:induction false} SeparatorsAreAscii()
    ensures AllAscii(U4(0x2028)) && AllAscii(U4(0x2029))
  {}

  lemma {:induction false} AsciiDecodesOne(b: seq<byte>)
    requires b != [] && b[0] < 0x80
    ensures Runes(b) == [b[0]] + Runes(b[1..])
  {
    TailsAre(b[1..], 3);
  }

  lemma {:induction false} AsciiDecodes(b: seq<byte>, rest: seq<byte>)
    requires AllAscii(b)
    ensures Runes(b + rest) == AsciiRunes(b) + Runes(rest)
  {
    hide Runes;
    if b == [] {
      assert b + rest == rest && AsciiRunes(b) + Runes(rest) == Runes(rest);
    } else {
      AsciiDecodesOne(b + rest);
      assert (b + rest)[1..] == b[1..] + rest;
      AsciiDecodes(b[1..], rest);
      assert AsciiRunes(b) == [b[0]] + AsciiRunes(b[1..]);
    }
  }

  /** A continuation byte on its own is no rune, and is kept. */
  lemma {:induction false} TailIsKept(t: seq<byte>, table: Table)
    requires Usable(table) && t != [] && IsTail(t[0])
    ensures Substituted(t, table) == [t[0]] + Substituted(t[1..], table)
  {
    hide Substituted;
    TailsAre(t[1..], 3);
    assert Decode(t) == (RUNE_ERROR, 1);
    assert t[..1] == [t[0]];
    SubstitutedStep(t, 0, table);
    assert t[0..] == t;
  }

  /** Anything else starts with something that is no continuation byte. */
  lemma {:induction false} OtherIsNoTail(t: seq<byte>, table: Table)
    requires Usable(table) && t != [] && !IsTail(t[0])
    ensures Substituted(t, table) != [] && !IsTail(Substituted(t, table)[0])
  {
    hide Decode, Replacement, AllAscii;
    var (r, w) := Decode(t);
    if Replacement(r, table).Some? {
      ReplacementIsAscii(r, table);
      AsciiIsNoTail(Replacement(r, table).value);
    }
  }

  lemma {:induction false} AsciiIsNoTail(b: seq<byte>)
    requires AllAscii(b) && b != []
    ensures !IsTail(b[0])
  {}

  /** The output goes on with the same continuation bytes as the input. */
  lemma {:induction false} TailsSame(t: seq<byte>, table: Table, max: nat)
    requires Usable(table)
    ensures Tails(Substituted(t, table), max) == Tails(t, max)
  {
    hide Substituted, IsTail, Usable;
    if t == [] {
      NothingSubstituted(table);
    } else if IsTail(t[0]) {
      TailIsKept(t, table);
      assert ([t[0]] + Substituted(t[1..], table))[1..] == Substituted(t[1..], table);
      if max > 0 {
        TailsSame(t[1..], table, max - 1);
      }
    } else {
      OtherIsNoTail(t, table);
    }
  }

  lemma {:induction false} NothingSubstituted(table: Table)
    ensures Substituted([], table) == []
  {}

  lemma {:induction false} TailsCongruent(x: seq<byte>, y: seq<byte>, z: seq<byte>, max: nat)
    requires forall k: nat :: Tails(y, k) == Tails(z, k)
    ensures Tails(x + y, max) == Tails(x + z, max)
  {
    hide IsTail;
    if x == [] {
      assert x + y == y && x + z == z;
    } else {
      assert (x + y)[1..] == x[1..] + y && (x + z)[1..] == x[1..] + z;
      if max > 0 {
        TailsCongruent(x[1..], y, z, max - 1);
      }
    }
  }

  /** A rune that is kept is read again from the output. */
  lemma {:induction false} KeptDecodes(s: seq<byte>, w: nat, table: Table)
    requires Usable(table) && s != [] && w == Decode(s).1
    ensures var out := s[..w] + Substituted(s[w..], table);
      Decode(out) == Decode(s) && out[w..] == Substituted(s[w..], table)
  {
    hide Substituted, DecodeLead, Usable, Tails;
    var t := s[w..];
    var out := s[..w] + Substituted(t, table);
    forall k: nat
      ensures Tails(t, k) == Tails(Substituted(t, table), k)
    {
      TailsSame(t, table, k);
    }
    TailsCongruent(s[1..w], t, Substituted(t, table), 3);
    assert s[1..] == s[1..w] + t && out[1..] == s[1..w] + Substituted(t, table);
    assert out[0] == s[0];
  }

  /** Replacing in the bytes is replacing in the runes, malformed text included. */
  lemma {:induction false} RunesOfOutput(s: seq<byte>, table: Table)
    requires Usable(table)
    ensures Runes(Substituted(s, table)) == Escaped(Runes(s), table)
    decreases |s|
  {
    hide Decode, Replacement, Usable, AllAscii;
    if s != [] {
      var (r, w) := Decode(s);
      RunesOfOutput(s[w..], table);
      var p := Replacement(r, table);
      assert Runes(s)[1..] == Runes(s[w..]);
      if p.Some? {
        ReplacementIsAscii(r, table);
        AsciiDecodes(p.value, Substituted(s[w..], table));
      } else {
        KeptDecodes(s, w, table);
      }
    }
  }
}

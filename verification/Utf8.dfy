/** unicode/utf8, after section 4 of RFC 3629. */
module Utf8 {
  import opened Bytes

  type rune = x: int | 0 <= x <= MAX_RUNE

  const MAX_RUNE := 0x10FFFF

  /** What a byte that starts no well-formed sequence is read as. */
  const RUNE_ERROR: rune := 0xFFFD

  predicate IsTail(c: byte) { 0x80 <= c <= 0xBF }

  /** The continuation bytes that b starts with, at most max of them. */
  function Tails(b: seq<byte>, max: nat): (t: seq<byte>)
    ensures |t| <= |b| && |t| <= max
  {
    if b == [] || max == 0 || !IsTail(b[0]) then [] else [b[0]] + Tails(b[1..], max - 1)
  }

  predicate AllTails(t: seq<byte>) { forall k :: 0 <= k < |t| ==> IsTail(t[k]) }

  lemma {:induction false} TailsAre(b: seq<byte>, max: nat)
    ensures AllTails(Tails(b, max))
  {
    if b != [] && max > 0 && IsTail(b[0]) {
      TailsAre(b[1..], max - 1);
    }
  }

  /** The six bits of a continuation byte. */
  function Low6(c: byte): (n: nat)
    requires IsTail(c)
    ensures n < 64
  {
    c as int - 0x80
  }

  /** The rune that a leading byte and its continuation bytes encode, and how many bytes that takes. */
  function DecodeLead(x: byte, t: seq<byte>): (d: (rune, nat))
    requires AllTails(t)
    ensures 1 <= d.1 <= |t| + 1
  {
    var lead := x as int;
    if lead < 0x80 then (lead, 1)
    else if 0xC2 <= lead <= 0xDF && |t| >= 1 then ((lead - 0xC0) * 64 + Low6(t[0]), 2)
    else if 0xE0 <= lead <= 0xEF && |t| >= 2 && (lead == 0xE0 ==> t[0] >= 0xA0) && (lead == 0xED ==> t[0] <= 0x9F) then
      ((lead - 0xE0) * 4096 + Low6(t[0]) * 64 + Low6(t[1]), 3)
    else if 0xF0 <= lead <= 0xF4 && |t| >= 3 && (lead == 0xF0 ==> t[0] >= 0x90) && (lead == 0xF4 ==> t[0] <= 0x8F) then
      ((lead - 0xF0) * 262144 + Low6(t[0]) * 4096 + Low6(t[1]) * 64 + Low6(t[2]), 4)
    else (RUNE_ERROR, 1)
  }

  /** utf8.DecodeRune of a non-empty text */
  function Decode(b: seq<byte>): (d: (rune, nat))
    requires b != []
    ensures 1 <= d.1 <= |b|
  {
    var t := Tails(b[1..], 3);
    TailsAre(b[1..], 3);
    DecodeLead(b[0], t)
  }

  /** The runes of a text, as a range loop over a Go string yields them. */
  function Runes(b: seq<byte>): seq<rune>
    decreases |b|
  {
    if b == [] then [] else [Decode(b).0] + Runes(b[Decode(b).1..])
  }

  predicate IsSurrogate(r: int) { 0xD800 <= r <= 0xDFFF }

  /** utf8.EncodeRune: what is no code point is written as U+FFFD. */
  function Encode(r: nat): (b: seq<byte>)
    ensures 1 <= |b| <= 4
  {
    if r < 0x80 then [r]
    else if r < 0x800 then [0xC0 + r / 64, 0x80 + r % 64]
    else if IsSurrogate(r) || r > MAX_RUNE then [0xEF, 0xBF, 0xBD]
    else if r < 0x10000 then [0xE0 + r / 4096, 0x80 + r / 64 % 64, 0x80 + r % 64]
    else [0xF0 + r / 262144, 0x80 + r / 4096 % 64, 0x80 + r / 64 % 64, 0x80 + r % 64]
  }

  lemma {:induction false} TailsOf(t: seq<byte>, rest: seq<byte>, max: nat)
    requires AllTails(t) && |t| <= max
    ensures |Tails(t + rest, max)| >= |t| && Tails(t + rest, max)[..|t|] == t
  {
    if t != [] {
      assert (t + rest)[1..] == t[1..] + rest;
      TailsOf(t[1..], rest, max - 1);
      assert t == [t[0]] + t[1..];
    } else {
      assert t + rest == rest;
    }
  }

  /** The bits of a code point, regrouped. */
  lemma {:induction false} Regrouped(r: nat)
    ensures r == r / 64 * 64 + r % 64
    ensures r / 64 == r / 4096 * 64 + r / 64 % 64
    ensures r / 4096 == r / 262144 * 64 + r / 4096 % 64
  {}

  /** The leading byte and the continuation bytes of a code point. */
  lemma {:induction false} LeadOfEncoded(r: rune, t: seq<byte>)
    requires !IsSurrogate(r) && AllTails(t)
    requires |t| >= |Encode(r)| - 1 && forall k :: 0 < k < |Encode(r)| ==> t[k - 1] == Encode(r)[k]
    ensures DecodeLead(Encode(r)[0], t) == (r, |Encode(r)|)
  {
    Regrouped(r);
    var e := Encode(r);
    if |e| > 1 {
      assert t[0] == e[1];
    }
    if |e| > 2 {
      assert t[1] == e[2];
    }
    if |e| > 3 {
      assert t[2] == e[3];
    }
  }

  /** Encoding is undone by decoding, whatever follows. */
  lemma {:induction false} DecodeEncoded(r: rune, rest: seq<byte>)
    requires !IsSurrogate(r)
    ensures Decode(Encode(r) + rest) == (r, |Encode(r)|)
  {
    hide DecodeLead, Tails;
    var e := Encode(r);
    EncodedTails(r);
    TailsOf(e[1..], rest, 3);
    assert (e + rest)[0] == e[0] && (e + rest)[1..] == e[1..] + rest;
    var t := Tails((e + rest)[1..], 3);
    TailsAre((e + rest)[1..], 3);
    forall k | 0 < k < |e|
      ensures t[k - 1] == e[k]
    {
      assert t[..|e| - 1][k - 1] == e[1..][k - 1];
    }
    LeadOfEncoded(r, t);
  }

  lemma {:induction false} EncodedTails(r: nat)
    ensures AllTails(Encode(r)[1..])
  {}
}

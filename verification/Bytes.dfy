/** Byte strings: their order, and big-endian numbers. */
module Bytes {

  type byte = x: int | 0 <= x < 256

  const BACKSLASH: byte := 0x5C

  /** The hexadecimal digits, of bytes and of code points. */
  predicate IsHex(c: int) {
    '0' as int <= c <= '9' as int || 'a' as int <= c <= 'f' as int || 'A' as int <= c <= 'F' as int
  }

  function HexDigit(c: int): (d: nat)
    requires IsHex(c)
    ensures d < 16
  {
    if '0' as int <= c <= '9' as int then c - '0' as int
    else if 'a' as int <= c <= 'f' as int then c - 'a' as int + 10
    else c - 'A' as int + 10
  }

  /** They are the digits and the first six letters in either case, and stand for their places. */
  lemma {:induction false} HexDigitsAre(c: int)
    ensures IsHex(c) <==> exists i :: 0 <= i < 16 && (c == "0123456789abcdef"[i] as int || c == "0123456789ABCDEF"[i] as int)
    ensures IsHex(c) ==> c == "0123456789abcdef"[HexDigit(c)] as int || c == "0123456789ABCDEF"[HexDigit(c)] as int
  {
    if IsHex(c) {
      var d := HexDigit(c);
      assert c == "0123456789abcdef"[d] as int || c == "0123456789ABCDEF"[d] as int;
    }
  }

  /** A lower-case hexadecimal digit. */
  function HexChar(d: nat): (c: byte)
    requires d < 16
    ensures c < 0x80
  {
    if d < 10 then '0' as int + d else 'a' as int + (d - 10)
  }

  lemma {:induction false} HexCharReads(d: nat)
    requires d < 16
    ensures IsHex(HexChar(d)) && HexDigit(HexChar(d)) == d
  {}

  /** The k low bytes of n, most significant first. */
  function BigEndian(n: nat, k: nat): (b: seq<byte>)
    ensures |b| == k
  {
    if k == 0 then [] else BigEndian(n / 256, k - 1) + [n % 256]
  }

  function Number(b: seq<byte>): nat {
    if b == [] then 0 else Number(b[..|b| - 1]) * 256 + b[|b| - 1]
  }

  function Power256(k: nat): nat { if k == 0 then 1 else 256 * Power256(k - 1) }

  lemma {:induction false} NumberBound(b: seq<byte>)
    ensures Number(b) < Power256(|b|)
  {
    if b != [] {
      NumberBound(b[..|b| - 1]);
    }
  }

  lemma {:induction false} NumberOfBigEndian(n: nat, k: nat)
    requires n < Power256(k)
    ensures Number(BigEndian(n, k)) == n
  {
    if k > 0 {
      NumberOfBigEndian(n / 256, k - 1);
      assert BigEndian(n, k)[..k - 1] == BigEndian(n / 256, k - 1);
    }
  }

  lemma {:induction false} BigEndianOfNumber(b: seq<byte>)
    ensures BigEndian(Number(b), |b|) == b
  {
    if b != [] {
      BigEndianOfNumber(b[..|b| - 1]);
      assert Number(b) / 256 == Number(b[..|b| - 1]) && Number(b) % 256 == b[|b| - 1];
      assert b == b[..|b| - 1] + [b[|b| - 1]];
    }
  }

  /** The order of sort.Strings. */
  predicate Less(a: seq<byte>, b: seq<byte>) {
    b != [] && (a == [] || a[0] < b[0] || (a[0] == b[0] && Less(a[1..], b[1..])))
  }

  lemma {:induction false} LessTotal(a: seq<byte>, b: seq<byte>)
    ensures a == b || Less(a, b) || Less(b, a)
  {
    if a != [] && b != [] && a[0] == b[0] {
      LessTotal(a[1..], b[1..]);
      assert a == [a[0]] + a[1..] && b == [b[0]] + b[1..];
    }
  }

  lemma {:induction false} LessTransitive(a: seq<byte>, b: seq<byte>, c: seq<byte>)
    requires Less(a, b) && Less(b, c)
    ensures Less(a, c)
  {
    if a != [] && a[0] == b[0] == c[0] {
      LessTransitive(a[1..], b[1..], c[1..]);
    }
  }

  lemma {:induction false} LessIrreflexive(a: seq<byte>)
    ensures !Less(a, a)
  {
    if a != [] {
      LessIrreflexive(a[1..]);
    }
  }

  /** Strictly ascending. */
  ghost predicate Sorted(names: seq<seq<byte>>) {
    forall i, j :: 0 <= i < j < |names| ==> Less(names[i], names[j])
  }

  ghost predicate Distinct(names: seq<seq<byte>>) {
    forall i, j :: 0 <= i < j < |names| ==> names[i] != names[j]
  }

  /** names lists the members of keys, each once. */
  ghost predicate Lists(names: seq<seq<byte>>, keys: set<seq<byte>>) {
    Distinct(names) && forall n :: n in names <==> n in keys
  }

  lemma {:induction false} SortedDistinct(names: seq<seq<byte>>)
    requires Sorted(names)
    ensures Distinct(names)
  {
    forall i, j | 0 <= i < j < |names|
      ensures names[i] != names[j]
    {
      LessDiffers(names[i], names[j]);
    }
  }

  lemma {:induction false} LessDiffers(a: seq<byte>, b: seq<byte>)
    requires Less(a, b)
    ensures a != b
  {
    LessIrreflexive(a);
  }

  /** There is only one sorted list of a set of names. */
  lemma {:induction false} SortedUnique(x: seq<seq<byte>>, y: seq<seq<byte>>)
    requires Sorted(x) && Sorted(y) && (forall n :: n in x <==> n in y)
    ensures x == y
  {
    if |x| > 0 {
      assert x[0] in y;
    }
    if |y| > 0 {
      assert y[0] in x;
      FirstIsLeast(x, y);
      FirstIsLeast(y, x);
      LessTotal(x[0], y[0]);
      SortedDistinct(x);
      SortedDistinct(y);
      forall n
        ensures n in x[1..] <==> n in y[1..]
      {
        assert n in x <==> n == x[0] || n in x[1..];
        assert n in y <==> n == y[0] || n in y[1..];
        assert x[0] !in x[1..] && y[0] !in y[1..];
      }
      SortedUnique(x[1..], y[1..]);
      assert x == [x[0]] + x[1..] && y == [y[0]] + y[1..];
    }
  }

  lemma {:induction false} FirstIsLeast(x: seq<seq<byte>>, y: seq<seq<byte>>)
    requires Sorted(x) && x != [] && y != [] && y[0] in x
    ensures !Less(y[0], x[0])
  {
    var k :| 0 <= k < |x| && x[k] == y[0];
    if k == 0 {
      LessIrreflexive(x[0]);
    } else {
      LessAsymmetric(x[0], x[k]);
    }
  }

  lemma {:induction false} LessAsymmetric(a: seq<byte>, b: seq<byte>)
    requires Less(a, b)
    ensures !Less(b, a)
  {
    if a != [] && a[0] == b[0] {
      LessAsymmetric(a[1..], b[1..]);
    }
  }

  /** Ranging over the keys of a map, in any order, and sort.Strings. */
  method SortedKeys<V>(m: map<seq<byte>, V>) returns (names: seq<seq<byte>>)
    ensures Sorted(names) && Lists(names, m.Keys)
  {
    names := [];
    var left := m.Keys;
    while left != {}
      invariant left <= m.Keys && Sorted(names)
      invariant forall n :: n in names <==> n in m.Keys - left
      decreases |left|
    {
      var key :| key in left;
      names := Insert(names, key);
      left := left - {key};
    }
    SortedDistinct(names);
  }

  method Insert(names: seq<seq<byte>>, key: seq<byte>) returns (r: seq<seq<byte>>)
    requires Sorted(names) && key !in names
    ensures Sorted(r) && forall n :: n in r <==> n == key || n in names
  {
    var i := 0;
    while i < |names| && Less(names[i], key)
      invariant i <= |names| && forall k :: 0 <= k < i ==> Less(names[k], key)
    {
      i := i + 1;
    }
    r := names[..i] + [key] + names[i..];
    forall k | i <= k < |names|
      ensures Less(key, names[k])
    {
      LessTotal(names[i], key);
      if k > i {
        LessTransitive(key, names[i], names[k]);
      }
    }
    forall n
      ensures n in r <==> n == key || n in names
    {
      assert names == names[..i] + names[i..];
    }
  }
}

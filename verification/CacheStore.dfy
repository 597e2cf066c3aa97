/** gen/cachestore.go: the binary form of one cached directory. */
module CacheStore {
  import opened Bytes
  import opened Options

  newtype uint64 = x: int | 0 <= x < 0x1_0000_0000_0000_0000

  /** Go's int, the type of lengths and indices. */
  newtype goint = x: int | -0x8000_0000_0000_0000 <= x < 0x8000_0000_0000_0000

  const MAX_INT := 0x7FFF_FFFF_FFFF_FFFF

  type Name = seq<byte>

  /** The files of a directory and the warnings reported for it. */
  datatype Entry<W> = Entry(files: map<Name, seq<byte>>, warnings: seq<W>)

  /** What decodeEntry uses of encoding/json and path/filepath: the JSON form of a warning
      list, and the test that a warning may be stored (a warning with local file names). */
  datatype Codec<!W> = Codec(marshal: seq<W> -> seq<byte>, unmarshal: seq<byte> -> Option<seq<W>>, storable: W -> bool)

  // ----- names -----

  const SLASH: byte := '/' as int
  const SUFFIX: Name := ['.' as int, 'x' as int, '.' as int, 'g' as int, 'o' as int]

  function WithoutTrailingSlashes(p: Name): Name {
    if p != [] && p[|p| - 1] == SLASH then WithoutTrailingSlashes(p[..|p| - 1]) else p
  }

  function AfterLastSlash(p: Name): Name {
    if p == [] then [] else if p[|p| - 1] == SLASH then [] else AfterLastSlash(p[..|p| - 1]) + [p[|p| - 1]]
  }

  /** filepath.Base on a Unix system */
  function Base(p: Name): Name {
    if p == [] then ['.' as int]
    else if WithoutTrailingSlashes(p) == [] then [SLASH]
    else AfterLastSlash(WithoutTrailingSlashes(p))
  }

  predicate HasSuffix(name: Name, suffix: Name) {
    |suffix| <= |name| && name[|name| - |suffix|..] == suffix
  }

  /** The names that decodeEntry accepts. */
  predicate ValidName(name: Name) {
    name != [] && 0 !in name && Base(name) == name && HasSuffix(name, SUFFIX)
  }

  /** A valid name is a plain file name with the extension of generated code: it has no slash, so it cannot
      leave its directory. Every such name is valid. */
  lemma {:induction false} ValidNameIsLocal(name: Name)
    ensures ValidName(name) <==>
      0 !in name && SLASH !in name && |name| >= 5 && forall i :: 0 <= i < 5 ==> name[|name| - 5 + i] == ".x.go"[i] as int
  {
    AfterLastSlashHasNone(name);
    if SLASH !in name {
      AfterLastSlashOfPlain(name);
    }
    SuffixBytes(name);
    if HasSuffix(name, SUFFIX) {
      assert name[|name| - 1] == name[|name| - 5..][4];
      assert WithoutTrailingSlashes(name) == name;
    }
  }

  lemma {:induction false} SuffixBytes(name: Name)
    ensures HasSuffix(name, SUFFIX) <==> |name| >= 5 && forall i :: 0 <= i < 5 ==> name[|name| - 5 + i] == ".x.go"[i] as int
  {
    assert forall i :: 0 <= i < 5 ==> SUFFIX[i] == ".x.go"[i] as int;
    if |name| >= 5 {
      var end := name[|name| - 5..];
      assert forall i :: 0 <= i < 5 ==> end[i] == name[|name| - 5 + i];
      if forall i :: 0 <= i < 5 ==> name[|name| - 5 + i] == ".x.go"[i] as int {
        assert end == SUFFIX;
      }
    }
  }

  lemma {:induction false} AfterLastSlashOfPlain(p: Name)
    requires SLASH !in p
    ensures AfterLastSlash(p) == p && WithoutTrailingSlashes(p) == p
  {
    if p != [] {
      AfterLastSlashOfPlain(p[..|p| - 1]);
      assert p == p[..|p| - 1] + [p[|p| - 1]];
    }
  }

  lemma {:induction false} AfterLastSlashHasNone(p: Name)
    ensures SLASH !in AfterLastSlash(p)
  {
    if p != [] && p[|p| - 1] != SLASH {
      AfterLastSlashHasNone(p[..|p| - 1]);
    }
  }

  // ----- the layout -----

  /** binary.BigEndian.PutUint64(uint64(n)): eight bytes, modulo 2^64. */
  function U64(n: nat): (b: seq<byte>)
    ensures |b| == 8
  {
    BigEndian(n % 0x1_0000_0000_0000_0000, 8)
  }

  /** A length and that many bytes. */
  function Chunk(data: seq<byte>): seq<byte> {
    U64(|data|) + data
  }

  function FileLayout(name: Name, data: seq<byte>): seq<byte> {
    Chunk(name) + Chunk(data)
  }

  function FilesLayout(names: seq<Name>, files: map<Name, seq<byte>>): seq<byte>
    requires forall n :: n in names ==> n in files
  {
    if names == [] then [] else FileLayout(names[0], files[names[0]]) + FilesLayout(names[1..], files)
  }

  /** An entry written with its files in the given order and its warnings as the given bytes. */
  function Layout(names: seq<Name>, files: map<Name, seq<byte>>, warnings: seq<byte>): seq<byte>
    requires forall n :: n in names ==> n in files
  {
    U64(|names|) + (FilesLayout(names, files) + Chunk(warnings))
  }

  /** The warnings that the bytes stand for, if they are a list that may be stored. */
  function Warnings<W>(b: seq<byte>, codec: Codec<W>): Option<seq<W>> {
    if b == [] then Some([])
    else match codec.unmarshal(b)
      case None => None
      case Some(ws) => if ws != [] && AllStorable(ws, codec) then Some(ws) else None
  }

  predicate AllStorable<W>(ws: seq<W>, codec: Codec<W>) {
    forall k :: 0 <= k < |ws| ==> codec.storable(ws[k])
  }

  /** The last part of an entry holds nothing for no warnings, and otherwise the JSON form of a list of
      warnings that may all be stored. */
  ghost predicate StandsFor<W>(w: seq<byte>, ws: seq<W>, codec: Codec<W>) {
    if ws == [] then w == [] else w != [] && codec.unmarshal(w) == Some(ws) && forall x :: x in ws ==> codec.storable(x)
  }

  lemma {:induction false} WarningsAre<W>(w: seq<byte>, ws: seq<W>, codec: Codec<W>)
    ensures Warnings(w, codec) == Some(ws) <==> StandsFor(w, ws, codec)
  {}

  /** encodeEntry's bytes for the warnings. */
  function WarningBytes<W>(ws: seq<W>, codec: Codec<W>): seq<byte> {
    if |ws| > 0 then codec.marshal(ws) else []
  }

  /** b is the layout of entry with its files sorted by name. */
  ghost predicate Encodes<W>(b: seq<byte>, entry: Entry<W>, codec: Codec<W>) {
    exists names :: Sorted(names) && Lists(names, entry.files.Keys)
      && b == Layout(names, entry.files, WarningBytes(entry.warnings, codec))
  }

  // ----- decoding -----

  /** readU64 on the rest of the input. */
  function ReadU64(b: seq<byte>): Option<(nat, seq<byte>)> {
    if |b| < 8 then None else Some((Number(b[..8]), b[8..]))
  }

  /** Reads one length and that many bytes. */
  function ReadChunk(b: seq<byte>): Option<(seq<byte>, seq<byte>)> {
    match ReadU64(b)
    case None => None
    case Some((n, rest)) => if n > |rest| then None else Some((rest[..n], rest[n..]))
  }

  function DecodeFiles(b: seq<byte>, count: nat, out: map<Name, seq<byte>>): Option<(map<Name, seq<byte>>, seq<byte>)>
    decreases count
  {
    if count == 0 then Some((out, b))
    else match ReadChunk(b)
      case None => None
      case Some((name, b1)) =>
        if !ValidName(name) || name in out then None
        else match ReadChunk(b1)
          case None => None
          case Some((data, b2)) => DecodeFiles(b2, count - 1, out[name := data])
  }

  /** What decodeEntry accepts, and as what. */
  function Decode<W>(b: seq<byte>, codec: Codec<W>): Option<Entry<W>> {
    match ReadU64(b)
    case None => None
    case Some((count, rest)) =>
      if count > |rest| / 16 then None
      else match DecodeFiles(rest, count, map[])
        case None => None
        case Some((files, tail)) =>
          match ReadU64(tail)
          case None => None
          case Some((n, w)) =>
            if n != |w| then None
            else match Warnings(w, codec)
              case None => None
              case Some(ws) => Some(Entry(files, ws))
  }

  // ----- the methods -----

  lemma {:induction false} EightBytes(b: seq<byte>)
    requires |b| == 8
    ensures Number(b) < 0x1_0000_0000_0000_0000
  {
    NumberBound(b);
    EightPower();
  }

  lemma {:induction false} EightPower()
    ensures Power256(8) == 0x1_0000_0000_0000_0000
  {
    assert Power256(4) == 0x1_0000_0000;
    assert Power256(6) == 256 * 256 * Power256(4);
  }

  /** The readU64 closure: takes eight bytes off the input. */
  method TakeU64(b: seq<byte>) returns (value: uint64, ok: bool, rest: seq<byte>)
    ensures ReadU64(b) == if ok then Some((value as int, rest)) else None
    ensures ok ==> |rest| == |b| - 8
  {
    if |b| < 8 {
      return 0, false, b;
    }
    EightBytes(b[..8]);
    return Number(b[..8]) as uint64, true, b[8..];
  }

  /** Reads one length and that many bytes. The length is compared with what is left before it
      is converted to a Go int and used to slice, so neither can fail. */
  method TakeChunk(b: seq<byte>) returns (chunk: seq<byte>, ok: bool, rest: seq<byte>)
    requires |b| <= MAX_INT
    ensures ReadChunk(b) == if ok then Some((chunk, rest)) else None
    ensures ok ==> |rest| <= |b|
  {
    var n, read, tail := TakeU64(b);
    if !read || n > (|tail| as uint64) {
      return [], false, b;
    }
    return tail[..n as goint], true, tail[n as goint..];
  }

  /** One turn of the loop of decodeEntry. */
  method TakeFile(b: seq<byte>, out: map<Name, seq<byte>>) returns (out': map<Name, seq<byte>>, ok: bool, rest: seq<byte>)
    requires |b| <= MAX_INT
    ensures forall count: nat :: count > 0 ==>
      DecodeFiles(b, count, out) == if ok then DecodeFiles(rest, count - 1, out') else None
    ensures ok ==> |rest| <= |b|
  {
    var name, data;
    name, ok, rest := TakeChunk(b);
    if !ok || !ValidName(name) || name in out {
      return out, false, b;
    }
    data, ok, rest := TakeChunk(rest);
    if !ok {
      return out, false, b;
    }
    return out[name := data], true, rest;
  }

  /** The warnings part of decodeEntry. */
  method TakeWarnings<W>(b: seq<byte>, codec: Codec<W>) returns (ws: Option<seq<W>>)
    ensures ws == Warnings(b, codec)
  {
    if |b| == 0 {
      return Some([]);
    }
    ws := codec.unmarshal(b);
    if ws.None? || |ws.value| == 0 {
      return None;
    }
    for k := 0 to |ws.value|
      invariant forall j :: 0 <= j < k ==> codec.storable(ws.value[j])
    {
      if !codec.storable(ws.value[k]) {
        return None;
      }
    }
  }

  /** decodeEntry, on any input. */
  method DecodeEntry<W>(input: seq<byte>, codec: Codec<W>) returns (entry: Option<Entry<W>>)
    requires |input| <= MAX_INT
    ensures entry == Decode(input, codec)
  {
    hide DecodeFiles, Warnings, ReadChunk;
    var count, ok, b := TakeU64(input);
    if !ok || count > ((|b| / 16) as uint64) {
      return None;
    }
    var out: map<Name, seq<byte>> := map[];
    ghost var files := DecodeFiles(b, count as int, map[]);
    var i: goint := 0;
    while i < count as goint
      invariant |b| <= MAX_INT && 0 <= i <= count as goint
      invariant files == DecodeFiles(b, count as int - i as int, out)
    {
      out, ok, b := TakeFile(b, out);
      if !ok {
        return None;
      }
      i := i + 1;
    }
    NoMoreFiles(b, out);
    var n: uint64;
    n, ok, b := TakeU64(b);
    if !ok || n != (|b| as uint64) {
      return None;
    }
    var warnings := TakeWarnings(b, codec);
    if warnings.None? {
      return None;
    }
    return Some(Entry(out, warnings.value));
  }

  lemma {:induction false} NoMoreFiles(b: seq<byte>, out: map<Name, seq<byte>>)
    ensures DecodeFiles(b, 0, out) == Some((out, b))
  {}

  /** encodeEntry */
  method EncodeEntry<W>(entry: Entry<W>, codec: Codec<W>) returns (b: seq<byte>)
    ensures Encodes(b, entry, codec)
  {
    hide FileLayout, FilesLayout, Layout, U64, Less;
    var names := SortedKeys(entry.files);
    b := U64(|names|);
    ghost var done := [];
    assert names[0..] == names;
    for k := 0 to |names|
      invariant b == U64(|names|) + done
      invariant FilesLayout(names, entry.files) == done + FilesLayout(names[k..], entry.files)
    {
      FilesLayoutStep(names, entry.files, k, done);
      b := AppendFile(b, names[k], entry.files[names[k]]);
      Regroup(U64(|names|), done, FileLayout(names[k], entry.files[names[k]]));
      done := done + FileLayout(names[k], entry.files[names[k]]);
    }
    NoMoreLayout(names, entry.files, done);
    var warnings: seq<byte> := [];
    if |entry.warnings| > 0 {
      warnings := codec.marshal(entry.warnings);
    }
    LayoutEnd(names, entry.files, warnings, b);
    b := b + U64(|warnings|);
    b := b + warnings;
  }

  lemma {:induction false} Regroup(x: seq<byte>, y: seq<byte>, z: seq<byte>)
    ensures x + y + z == x + (y + z)
  {}

  lemma {:induction false} NoMoreLayout(names: seq<Name>, files: map<Name, seq<byte>>, done: seq<byte>)
    ensures done + FilesLayout(names[|names|..], files) == done
  {}

  method AppendFile(b: seq<byte>, n: Name, data: seq<byte>) returns (b': seq<byte>)
    ensures b' == b + FileLayout(n, data)
  {
    b' := b + U64(|n|);
    b' := b' + n;
    b' := b' + U64(|data|);
    b' := b' + data;
  }

  lemma {:induction false} LayoutEnd(names: seq<Name>, files: map<Name, seq<byte>>, w: seq<byte>, b: seq<byte>)
    requires forall n :: n in names ==> n in files
    requires b == U64(|names|) + FilesLayout(names, files)
    ensures b + U64(|w|) + w == Layout(names, files, w)
  {}

  lemma {:induction false} FilesLayoutStep(names: seq<Name>, files: map<Name, seq<byte>>, k: nat, done: seq<byte>)
    requires k < |names| && (forall n :: n in names ==> n in files)
    ensures done + FilesLayout(names[k..], files)
         == done + FileLayout(names[k], files[names[k]]) + FilesLayout(names[k + 1..], files)
  {
    assert names[k..][1..] == names[k + 1..];
  }

  // ----- which inputs are accepted -----

  lemma {:induction false} U64Number(n: nat)
    requires n < 0x1_0000_0000_0000_0000
    ensures Number(U64(n)) == n
  {
    hide BigEndian, Number, Power256;
    EightPower();
    NumberOfBigEndian(n, 8);
  }

  lemma {:induction false} U64Reads(n: nat, rest: seq<byte>)
    requires n < 0x1_0000_0000_0000_0000
    ensures ReadU64(U64(n) + rest) == Some((n, rest))
  {
    hide U64, Number;
    U64Number(n);
    assert (U64(n) + rest)[..8] == U64(n);
    assert (U64(n) + rest)[8..] == rest;
  }

  lemma {:induction false} ChunkReads(chunk: seq<byte>, rest: seq<byte>)
    requires |chunk| <= MAX_INT
    ensures ReadChunk(Chunk(chunk) + rest) == Some((chunk, rest))
  {
    hide U64, ReadU64;
    U64Reads(|chunk|, chunk + rest);
    Regroup(U64(|chunk|), chunk, rest);
    assert (chunk + rest)[..|chunk|] == chunk && (chunk + rest)[|chunk|..] == rest;
  }

  /** A length that was read is written back as the same eight bytes. */
  lemma {:induction false} ReadU64Writes(b: seq<byte>, n: nat, rest: seq<byte>)
    requires ReadU64(b) == Some((n, rest))
    ensures n < 0x1_0000_0000_0000_0000 && b == U64(n) + rest
  {
    hide BigEndian, Number;
    EightBytes(b[..8]);
    BigEndianOfNumber(b[..8]);
    assert b == b[..8] + b[8..];
  }

  lemma {:induction false} ReadChunkWrites(b: seq<byte>, chunk: seq<byte>, rest: seq<byte>)
    requires ReadChunk(b) == Some((chunk, rest))
    ensures b == Chunk(chunk) + rest
  {
    hide U64, ReadU64;
    var r := ReadU64(b).value;
    ReadU64Writes(b, r.0, r.1);
    assert r.1 == chunk + rest;
    Regroup(U64(|chunk|), chunk, rest);
  }

  /** The sizes that a Go program can hold. */
  predicate FitsGo(files: map<Name, seq<byte>>) {
    |files| <= MAX_INT && forall n :: n in files ==> |n| <= MAX_INT && |files[n]| <= MAX_INT
  }

  predicate ValidNames(files: map<Name, seq<byte>>) { forall n :: n in files ==> ValidName(n) }

  /** out extended with the listed files. */
  function Collect(names: seq<Name>, files: map<Name, seq<byte>>, out: map<Name, seq<byte>>): map<Name, seq<byte>>
    requires forall n :: n in names ==> n in files
  {
    if names == [] then out else Collect(names[1..], files, out[names[0] := files[names[0]]])
  }

  lemma {:induction false} CollectAll(names: seq<Name>, files: map<Name, seq<byte>>, out: map<Name, seq<byte>>)
    requires forall n :: n in names ==> n in files
    requires forall n :: n in out ==> n in files && out[n] == files[n]
    ensures var r := Collect(names, files, out);
      forall n :: (n in r <==> n in out || n in names) && (n in r ==> r[n] == files[n])
  {
    if names != [] {
      CollectAll(names[1..], files, out[names[0] := files[names[0]]]);
      assert forall n :: n in names <==> n == names[0] || n in names[1..];
    }
  }

  /** The first file of a layout, and the rest. */
  lemma {:induction false} FirstFile(names: seq<Name>, files: map<Name, seq<byte>>, tail: seq<byte>)
    requires names != [] && forall n :: n in names ==> n in files
    ensures FilesLayout(names, files) + tail
         == Chunk(names[0]) + (Chunk(files[names[0]]) + (FilesLayout(names[1..], files) + tail))
  {
    hide Chunk;
    var c, d, rest := Chunk(names[0]), Chunk(files[names[0]]), FilesLayout(names[1..], files);
    Regroup(c + d, rest, tail);
    Regroup(c, d, rest + tail);
  }

  /** Two chunks of which the first is a new valid name are one turn of the loop. */
  lemma {:induction false} FileDecodes(name: Name, data: seq<byte>, rest: seq<byte>, count: nat, out: map<Name, seq<byte>>)
    requires count > 0 && ValidName(name) && name !in out && |name| <= MAX_INT && |data| <= MAX_INT
    ensures DecodeFiles(Chunk(name) + (Chunk(data) + rest), count, out) == DecodeFiles(rest, count - 1, out[name := data])
  {
    hide Chunk, ReadChunk, ValidName;
    ChunkReads(name, Chunk(data) + rest);
    ChunkReads(data, rest);
  }

  /** Written files are read back, in any order. */
  lemma {:induction false} FilesDecode(names: seq<Name>, files: map<Name, seq<byte>>, tail: seq<byte>, out: map<Name, seq<byte>>)
    requires (forall n :: n in names ==> n in files && n !in out) && Distinct(names)
    requires FitsGo(files) && ValidNames(files)
    ensures DecodeFiles(FilesLayout(names, files) + tail, |names|, out) == Some((Collect(names, files, out), tail))
  {
    hide Chunk, FilesLayout, DecodeFiles, ReadChunk, ValidName;
    if names == [] {
      NoFiles(files, tail);
      NoMoreFiles(tail, out);
    } else {
      var name, data := names[0], files[names[0]];
      FirstFile(names, files, tail);
      FileDecodes(name, data, FilesLayout(names[1..], files) + tail, |names|, out);
      forall n | n in names[1..]
        ensures n in names && n != name
      {
        var k :| 0 < k < |names| && names[k] == n;
      }
      FilesDecode(names[1..], files, tail, out[name := data]);
    }
  }

  lemma {:induction false} NoFiles(files: map<Name, seq<byte>>, tail: seq<byte>)
    ensures FilesLayout([], files) + tail == tail
  {}

  lemma {:induction false} FilesLayoutLength(names: seq<Name>, files: map<Name, seq<byte>>)
    requires forall n :: n in names ==> n in files
    ensures |FilesLayout(names, files)| >= 16 * |names|
  {
    if names != [] {
      FilesLayoutLength(names[1..], files);
    }
  }

  lemma {:induction false} ListLength(names: seq<Name>, keys: set<Name>)
    requires Lists(names, keys)
    ensures |names| == |keys|
  {
    if names == [] {
      assert keys == {};
    } else {
      var rest := keys - {names[0]};
      assert forall n :: n in names <==> n == names[0] || n in names[1..];
      ListLength(names[1..], rest);
    }
  }

  /** Every layout of files with valid names decodes to the files, whatever their order, and to the
      warnings that its last part stands for; it is refused when that part stands for none. */
  lemma {:induction false} LayoutDecodes<W>(names: seq<Name>, files: map<Name, seq<byte>>, w: seq<byte>, codec: Codec<W>)
    requires Lists(names, files.Keys) && FitsGo(files) && |w| <= MAX_INT && ValidNames(files)
    ensures Decode(Layout(names, files, w), codec)
      == match Warnings(w, codec) case None => None case Some(ws) => Some(Entry(files, ws))
  {
    hide U64, ReadU64, FilesLayout, DecodeFiles, ReadChunk, ValidName, Collect, Warnings;
    ListLength(names, files.Keys);
    U64Reads(|names|, FilesLayout(names, files) + Chunk(w));
    FilesLayoutLength(names, files);
    FilesDecode(names, files, Chunk(w), map[]);
    CollectAll(names, files, map[]);
    assert Collect(names, files, map[]) == files;
    U64Reads(|w|, w);
  }

  /** names lists, in the order of the input, the files decoded on top of out. */
  ghost predicate DecodedAs(b: seq<byte>, names: seq<Name>, rest: seq<byte>, out: map<Name, seq<byte>>, r: map<Name, seq<byte>>) {
    && Distinct(names)
    && (forall n :: n in names ==> ValidName(n) && n !in out)
    && (forall n :: n in r <==> n in out || n in names)
    && (forall n :: n in out ==> r[n] == out[n])
    && b == FilesLayout(names, r) + rest
  }

  /** What was decoded can be read off the input: it lists distinct valid names in some order. */
  lemma {:induction false} DecodedFiles(b: seq<byte>, count: nat, out: map<Name, seq<byte>>)
    returns (names: seq<Name>, rest: seq<byte>)
    requires DecodeFiles(b, count, out).Some?
    ensures rest == DecodeFiles(b, count, out).value.1 && |names| == count
    ensures DecodedAs(b, names, rest, out, DecodeFiles(b, count, out).value.0)
    decreases count
  {
    hide ReadChunk, FilesLayout, ValidName;
    if count == 0 {
      names, rest := [], b;
      NoFiles(out, b);
    } else {
      var c1 := ReadChunk(b).value;
      var c2 := ReadChunk(c1.1).value;
      var more;
      more, rest := DecodedFiles(c2.1, count - 1, out[c1.0 := c2.0]);
      ReadChunkWrites(b, c1.0, c1.1);
      ReadChunkWrites(c1.1, c2.0, c2.1);
      names := [c1.0] + more;
      DecodedStep(b, c1.0, c2.0, c2.1, more, rest, out, DecodeFiles(b, count, out).value.0);
    }
  }

  lemma {:induction false} DecodedStep(b: seq<byte>, name: Name, data: seq<byte>, b2: seq<byte>,
      more: seq<Name>, rest: seq<byte>, out: map<Name, seq<byte>>, r: map<Name, seq<byte>>)
    requires b == Chunk(name) + (Chunk(data) + b2) && ValidName(name) && name !in out
    requires DecodedAs(b2, more, rest, out[name := data], r)
    ensures DecodedAs(b, [name] + more, rest, out, r)
  {
    hide Chunk, ValidName, FilesLayout;
    assert out[name := data][name] == data;
    assert ([name] + more)[1..] == more;
    assert forall n :: n in [name] + more <==> n == name || n in more;
    FirstFile([name] + more, r, rest);
  }

  /** b is a layout of e, with its files in some order and its warnings in some form. */
  ghost predicate IsLayout<W>(b: seq<byte>, e: Entry<W>, codec: Codec<W>) {
    exists names, w :: Lists(names, e.files.Keys) && StandsFor(w, e.warnings, codec) && b == Layout(names, e.files, w)
  }

  /** decodeEntry accepts nothing but layouts: nothing is missing and nothing left over. */
  lemma {:induction false} AcceptedIsLayout<W>(b: seq<byte>, codec: Codec<W>)
    requires Decode(b, codec).Some?
    ensures ValidNames(Decode(b, codec).value.files) && IsLayout(b, Decode(b, codec).value, codec)
  {
    hide ReadU64, U64, FilesLayout, DecodeFiles, ValidName, Warnings, StandsFor;
    var e := Decode(b, codec).value;
    var head := ReadU64(b).value;
    ReadU64Writes(b, head.0, head.1);
    var names, tail := DecodedFiles(head.1, head.0, map[]);
    var last := ReadU64(tail).value;
    ReadU64Writes(tail, last.0, last.1);
    WarningsAre(last.1, e.warnings, codec);
    assert forall n :: n in names <==> n in e.files.Keys;
    assert b == Layout(names, e.files, last.1);
  }

  /** An input of Go's size is accepted, as e, exactly when it is a layout of e and the names
      of e are valid. */
  lemma {:induction false} AcceptsExactlyLayouts<W>(b: seq<byte>, e: Entry<W>, codec: Codec<W>)
    requires |b| <= MAX_INT
    ensures Decode(b, codec) == Some(e) <==> ValidNames(e.files) && IsLayout(b, e, codec)
  {
    hide Decode, Layout, ValidName, Warnings, StandsFor;
    if Decode(b, codec) == Some(e) {
      AcceptedIsLayout(b, codec);
    }
    if ValidNames(e.files) && IsLayout(b, e, codec) {
      var names, w :| Lists(names, e.files.Keys) && StandsFor(w, e.warnings, codec) && b == Layout(names, e.files, w);
      WarningsAre(w, e.warnings, codec);
      LayoutFits(names, e.files, w);
      LayoutDecodes(names, e.files, w, codec);
    }
  }

  /** Parts of a layout that fits are of Go's size. */
  lemma {:induction false} LayoutFits(names: seq<Name>, files: map<Name, seq<byte>>, w: seq<byte>)
    requires Lists(names, files.Keys) && |Layout(names, files, w)| <= MAX_INT
    ensures FitsGo(files) && |w| <= MAX_INT
  {
    hide U64, FilesLayout;
    FilesLayoutLength(names, files);
    ListLength(names, files.Keys);
    forall n | n in files
      ensures |n| <= MAX_INT && |files[n]| <= MAX_INT
    {
      assert n in names;
      FileFits(names, files, n);
    }
  }

  lemma {:induction false} FileFits(names: seq<Name>, files: map<Name, seq<byte>>, n: Name)
    requires (forall m :: m in names ==> m in files) && n in names
    ensures |n| + |files[n]| <= |FilesLayout(names, files)|
  {
    hide U64;
    if names[0] != n {
      FileFits(names[1..], files, n);
    }
  }

  /** The warnings may be stored, and their JSON form is read back as what it was. */
  ghost predicate Survive<W>(ws: seq<W>, codec: Codec<W>) {
    var form := codec.marshal(ws);
    ws == [] || (form != [] && codec.unmarshal(form) == Some(ws) && forall x :: x in ws ==> codec.storable(x))
  }

  lemma {:induction false} SurviveIs<W>(ws: seq<W>, codec: Codec<W>)
    ensures Warnings(WarningBytes(ws, codec), codec) == Some(ws) <==> Survive(ws, codec)
  {
    WarningsAre(WarningBytes(ws, codec), ws, codec);
  }

  /** Round trip: an encoded entry decodes to itself, provided its warnings do; otherwise not at all. */
  lemma {:induction false} DecodeOfEncode<W>(b: seq<byte>, entry: Entry<W>, codec: Codec<W>)
    requires Encodes(b, entry, codec)
    requires FitsGo(entry.files) && ValidNames(entry.files)
    requires |WarningBytes(entry.warnings, codec)| <= MAX_INT
    ensures Decode(b, codec) == match Warnings(WarningBytes(entry.warnings, codec), codec)
      case None => None
      case Some(ws) => Some(Entry(entry.files, ws))
    ensures Decode(b, codec) == Some(entry) <==> Survive(entry.warnings, codec)
  {
    hide Decode, Layout, Warnings, ValidName, WarningBytes, Survive;
    SurviveIs(entry.warnings, codec);
    var names :| Sorted(names) && Lists(names, entry.files.Keys)
      && b == Layout(names, entry.files, WarningBytes(entry.warnings, codec));
    LayoutDecodes(names, entry.files, WarningBytes(entry.warnings, codec), codec);
  }

  /** Encoding the files and warnings of a layout gives it back exactly when its names were sorted and
      its warnings were in the codec's own form. */
  lemma {:induction false} LayoutEncodes<W>(names: seq<Name>, w: seq<byte>, entry: Entry<W>, codec: Codec<W>, b: seq<byte>)
    requires Lists(names, entry.files.Keys) && FitsGo(entry.files)
    requires |w| <= MAX_INT && |WarningBytes(entry.warnings, codec)| <= MAX_INT
    requires Encodes(b, entry, codec)
    ensures b == Layout(names, entry.files, w) <==> Sorted(names) && w == WarningBytes(entry.warnings, codec)
  {
    hide Layout;
    var sorted :| Sorted(sorted) && Lists(sorted, entry.files.Keys)
      && b == Layout(sorted, entry.files, WarningBytes(entry.warnings, codec));
    if Sorted(names) {
      SortedUnique(names, sorted);
    }
    if b == Layout(names, entry.files, w) {
      LayoutInjective(names, sorted, entry.files, w, WarningBytes(entry.warnings, codec));
    }
  }

  /** The names of count files, in the order of the input, and what follows the files. */
  function FilesIn(b: seq<byte>, count: nat): (seq<Name>, seq<byte>) {
    if count == 0 then ([], b)
    else match ReadChunk(b)
      case None => ([], b)
      case Some((name, b1)) =>
        match ReadChunk(b1)
        case None => ([], b)
        case Some((_, b2)) => var more := FilesIn(b2, count - 1); ([name] + more.0, more.1)
  }

  /** The input lists its files in the order of their names, and its warnings as the codec writes them. */
  ghost predicate Canonical<W>(b: seq<byte>, codec: Codec<W>) {
    match ReadU64(b)
    case None => false
    case Some((count, rest)) =>
      && Sorted(FilesIn(rest, count).0)
      && match ReadU64(FilesIn(rest, count).1)
         case None => false
         case Some((_, w)) => CanonicalWarnings(w, codec)
  }

  ghost predicate CanonicalWarnings<W>(w: seq<byte>, codec: Codec<W>) {
    w == [] || match codec.unmarshal(w)
      case None => false
      case Some(ws) => ws != [] && StandsFor(w, ws, codec) && w == codec.marshal(ws)
  }

  lemma {:induction false} FilesAreIn(names: seq<Name>, files: map<Name, seq<byte>>, tail: seq<byte>)
    requires (forall n :: n in names ==> n in files) && FitsGo(files)
    ensures FilesIn(FilesLayout(names, files) + tail, |names|) == (names, tail)
  {
    hide Chunk, FilesLayout, ReadChunk;
    if names == [] {
      NoFiles(files, tail);
    } else {
      var rest := FilesLayout(names[1..], files) + tail;
      FirstFile(names, files, tail);
      ChunkReads(names[0], Chunk(files[names[0]]) + rest);
      ChunkReads(files[names[0]], rest);
      FilesAreIn(names[1..], files, tail);
      assert names == [names[0]] + names[1..];
    }
  }

  lemma {:induction false} LayoutIsCanonical<W>(names: seq<Name>, files: map<Name, seq<byte>>, w: seq<byte>, codec: Codec<W>)
    requires Lists(names, files.Keys) && FitsGo(files) && |w| <= MAX_INT
    ensures Canonical(Layout(names, files, w), codec) <==> Sorted(names) && CanonicalWarnings(w, codec)
  {
    hide U64, ReadU64, FilesLayout, FilesIn, CanonicalWarnings, Sorted;
    ListLength(names, files.Keys);
    U64Reads(|names|, FilesLayout(names, files) + Chunk(w));
    FilesAreIn(names, files, Chunk(w));
    U64Reads(|w|, w);
  }

  /** Encoding what an input was accepted as gives the input back if and only if the input is canonical. */
  lemma {:induction false} EncodeOfDecode<W>(b: seq<byte>, b': seq<byte>, e: Entry<W>, codec: Codec<W>)
    requires |b| <= MAX_INT && |b'| <= MAX_INT
    requires Decode(b, codec) == Some(e) && Encodes(b', e, codec)
    ensures b' == b <==> Canonical(b, codec)
  {
    hide Decode, Layout, ValidName, Warnings, WarningBytes, Canonical, CanonicalWarnings, StandsFor;
    AcceptedIsLayout(b, codec);
    var names, w :| Lists(names, e.files.Keys) && StandsFor(w, e.warnings, codec) && b == Layout(names, e.files, w);
    LayoutFits(names, e.files, w);
    EncodedFits(b', e, codec);
    LayoutEncodes(names, w, e, codec, b');
    LayoutIsCanonical(names, e.files, w, codec);
    CanonicalIs(w, e.warnings, codec);
  }

  lemma {:induction false} CanonicalIs<W>(w: seq<byte>, ws: seq<W>, codec: Codec<W>)
    requires StandsFor(w, ws, codec)
    ensures CanonicalWarnings(w, codec) <==> w == WarningBytes(ws, codec)
  {}

  lemma {:induction false} EncodedFits<W>(b: seq<byte>, e: Entry<W>, codec: Codec<W>)
    requires |b| <= MAX_INT && Encodes(b, e, codec)
    ensures |WarningBytes(e.warnings, codec)| <= MAX_INT
  {
    hide Layout, WarningBytes;
    var names :| Sorted(names) && Lists(names, e.files.Keys) && b == Layout(names, e.files, WarningBytes(e.warnings, codec));
    LayoutFits(names, e.files, WarningBytes(e.warnings, codec));
  }

  /** Two layouts of the same files are equal only when they list them in the same order. */
  lemma {:induction false} LayoutInjective(x: seq<Name>, y: seq<Name>, files: map<Name, seq<byte>>, v: seq<byte>, w: seq<byte>)
    requires Lists(x, files.Keys) && Lists(y, files.Keys) && FitsGo(files) && |v| <= MAX_INT && |w| <= MAX_INT
    requires Layout(x, files, v) == Layout(y, files, w)
    ensures x == y && v == w
  {
    hide U64, ReadU64, FilesLayout;
    ListLength(x, files.Keys);
    ListLength(y, files.Keys);
    U64Reads(|x|, FilesLayout(x, files) + Chunk(v));
    U64Reads(|y|, FilesLayout(y, files) + Chunk(w));
    FilesInjective(x, y, files, Chunk(v), Chunk(w));
    U64Reads(|v|, v);
    U64Reads(|w|, w);
  }

  lemma {:induction false} FilesInjective(x: seq<Name>, y: seq<Name>, files: map<Name, seq<byte>>, s: seq<byte>, t: seq<byte>)
    requires |x| == |y| && (forall n :: n in x ==> n in files) && (forall n :: n in y ==> n in files) && FitsGo(files)
    requires FilesLayout(x, files) + s == FilesLayout(y, files) + t
    ensures x == y && s == t
  {
    hide FilesLayout, Chunk, ReadChunk;
    if x == [] {
      NoFiles(files, s);
      NoFiles(files, t);
    } else {
      var r, q := FilesLayout(x[1..], files) + s, FilesLayout(y[1..], files) + t;
      var a, b := files[x[0]], files[y[0]];
      FirstFile(x, files, s);
      FirstFile(y, files, t);
      ChunkReads(x[0], Chunk(a) + r);
      ChunkReads(y[0], Chunk(b) + q);
      ChunkReads(a, r);
      ChunkReads(b, q);
      FilesInjective(x[1..], y[1..], files, s, t);
      assert x == [x[0]] + x[1..] && y == [y[0]] + y[1..];
    }
  }
}

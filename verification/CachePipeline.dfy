/** gen/cache_pipeline.go and gen/cache.go: generating a module with a persistent cache. */
module CachePipeline {
  import opened Options
  import opened Bytes
  import opened CacheStore
  import opened WarningPaths

  type Dir = seq<byte>
  type Key = seq<byte>

  /** An output file: filepath.Join of a directory and a plain file name. */
  type Target = (Dir, Name)

  /** Diagnostics as generated, and as stored. */
  type Found = Diag<Filename, string>
  type Stored = Diag<StoredName, string>

  /** codegen.DirResult, with its files already under their .x.go names. */
  datatype DirResult = DirResult(files: map<Name, seq<byte>>, diags: seq<Found>)

  predicate IsError(d: Found) { d.severity == Error }

  /** anyErrorDiag */
  predicate AnyError(diags: seq<Found>) { exists k :: 0 <= k < |diags| && IsError(diags[k]) }

  lemma {:induction false} AnyErrorIs(diags: seq<Found>)
    ensures AnyError(diags) <==> exists d :: d in diags && d.severity == Error
  {}

  /** The sources and settings of one run, which do not change while it lasts: what generating a
      directory gives, if anything; the poison files for its errors; its cache key, if it has one;
      whether the cache may be used; and whether generation fails as a whole. */
  datatype Run = Run(
    root: seq<string>,
    generate: Dir -> Option<DirResult>,
    poison: (Dir, seq<Found>) -> Option<map<Name, seq<byte>>>,
    key: Dir -> Option<Key>,
    ready: bool,
    fails: bool)

  /** Generation of a directory is a function of its key, in every run. */
  ghost predicate Keyed(run: Run, byKey: Key -> Option<DirResult>) {
    forall d :: run.key(d).Some? ==> run.generate(d) == byKey(run.key(d).value)
  }

  /** What is generated without errors has plain file names and clean paths. */
  ghost predicate Sane(byKey: Key -> Option<DirResult>) {
    forall k :: byKey(k).Some? && !AnyError(byKey(k).value.diags) ==> SaneResult(byKey(k).value)
  }

  ghost predicate SaneResult(r: DirResult) {
    && ValidNames(r.files) && FitsGo(r.files)
    && forall k :: 0 <= k < |r.diags| ==> CleanDiag(r.diags[k])
  }

  /** The JSON form of warnings, when it can be read back, is read back as what was written. */
  ghost predicate Faithful(codec: Codec<Stored>) {
    forall ws: seq<Stored> :: ws != [] ==>
      var b := codec.marshal(ws);
      0 < |b| <= MAX_INT && (codec.unmarshal(b).Some? ==> codec.unmarshal(b).value == ws)
  }

  // ----- what a run is for -----

  /** The files that belong in a directory after the run: its output, or poison for its errors. */
  function Out(run: Run, d: Dir): map<Name, seq<byte>> {
    match run.generate(d)
    case None => map[]
    case Some(r) =>
      if !AnyError(r.diags) then r.files
      else match run.poison(d, r.diags)
        case None => map[]
        case Some(files) => files
  }

  function DiagsOf(run: Run, d: Dir): seq<Found> {
    match run.generate(d)
    case None => []
    case Some(r) => r.diags
  }

  function Content(files: map<Target, seq<byte>>, t: Target): Option<seq<byte>> {
    if t in files then Some(files[t]) else None
  }

  /** The files of the directories in done are as the run wants them; nothing else changed. */
  ghost predicate After(was: map<Target, seq<byte>>, now: map<Target, seq<byte>>, run: Run, done: set<Dir>) {
    forall t: Target :: Content(now, t)
      == if t.0 in done && t.1 in Out(run, t.0) then Some(Out(run, t.0)[t.1]) else Content(was, t)
  }

  /** What a run reports: its diagnostics, and how many output files it accounts for. */
  datatype Totals = Totals(diags: multiset<Found>, files: nat) {
    function Plus(o: Totals): Totals { Totals(diags + o.diags, files + o.files) }
  }

  function TotalOf(run: Run, d: Dir): Totals { Totals(multiset(DiagsOf(run, d)), |Out(run, d)|) }

  function TotalsOf(run: Run, dirs: seq<Dir>): Totals {
    if dirs == [] then Totals(multiset{}, 0)
    else TotalsOf(run, dirs[..|dirs| - 1]).Plus(TotalOf(run, dirs[|dirs| - 1]))
  }

  lemma {:induction false} TotalsConcat(run: Run, x: seq<Dir>, y: seq<Dir>)
    ensures TotalsOf(run, x + y) == TotalsOf(run, x).Plus(TotalsOf(run, y))
  {
    hide TotalOf, Totals.Plus;
    if y == [] {
      assert x + y == x;
      PlusZero(TotalsOf(run, x));
    } else {
      var z := y[..|y| - 1];
      assert (x + y)[..|x + y| - 1] == x + z;
      TotalsConcat(run, x, z);
      PlusAssociative(TotalsOf(run, x), TotalsOf(run, z), TotalOf(run, y[|z|]));
    }
  }

  lemma {:induction false} PlusZero(t: Totals)
    ensures t.Plus(Totals(multiset{}, 0)) == t
  {}

  lemma {:induction false} PlusAssociative(x: Totals, y: Totals, z: Totals)
    ensures x.Plus(y).Plus(z) == x.Plus(y.Plus(z))
  {}

  lemma {:induction false} TotalsOne(run: Run, d: Dir)
    ensures TotalsOf(run, [d]) == TotalOf(run, d)
  {
    hide TotalOf;
    assert [d][..0] == [];
  }

  ghost predicate SameMembers(x: seq<Dir>, y: seq<Dir>) { forall d :: d in x <==> d in y }

  /** The order of the directories does not matter. */
  lemma {:induction false} TotalsPermute(run: Run, x: seq<Dir>, y: seq<Dir>)
    requires Distinct(x) && Distinct(y) && SameMembers(x, y)
    ensures TotalsOf(run, x) == TotalsOf(run, y)
  {
    hide TotalOf, TotalsOf;
    if x == [] {
      NoMembers(y);
    } else {
      var d := x[|x| - 1];
      assert d in y;
      var k :| 0 <= k < |y| && y[k] == d;
      var u, v, w := x[..|x| - 1], y[..k], y[k + 1..];
      assert x == u + [d] && y == v + [d] + w;
      RemoveFrom(x, y, k);
      TotalsPermute(run, u, v + w);
      TotalsConcat(run, u, [d]);
      TotalsConcat(run, v, w);
      TotalsConcat(run, v + [d], w);
      TotalsConcat(run, v, [d]);
    }
  }

  lemma {:induction false} NoMembers(y: seq<Dir>)
    requires SameMembers([], y)
    ensures y == []
  {
    if |y| > 0 {
      HasMember(y);
    }
  }

  lemma {:induction false} HasMember(y: seq<Dir>)
    requires |y| > 0
    ensures exists d :: d in y
  {
    assert y[0] in y;
  }

  lemma {:induction false} RemoveFrom(x: seq<Dir>, y: seq<Dir>, k: nat)
    requires Distinct(x) && Distinct(y) && SameMembers(x, y) && x != [] && k < |y| && y[k] == x[|x| - 1]
    ensures Distinct(x[..|x| - 1]) && Distinct(y[..k] + y[k + 1..])
    ensures SameMembers(x[..|x| - 1], y[..k] + y[k + 1..])
  {
    var d, u, v := x[|x| - 1], x[..|x| - 1], y[..k] + y[k + 1..];
    assert x == u + [d] && d !in u;
    assert y == y[..k] + [d] + y[k + 1..];
    forall e
      ensures e in v <==> e in y && e != d
    {
      if e in y && e != d {
        var i :| 0 <= i < |y| && y[i] == e;
        assert if i < k then v[i] == e else v[i - 1] == e;
      }
    }
  }

  /** Exactly the outputs that were not current are written. */
  ghost predicate WritesOf(written: seq<Target>, was: map<Target, seq<byte>>, run: Run, done: set<Dir>) {
    forall t: Target :: t in written <==> t.0 in done && t.1 in Out(run, t.0) && Content(was, t) != Some(Out(run, t.0)[t.1])
  }

  // ----- the store -----

  /** The entry is the error-free generation r, with its warnings relative to the root. */
  ghost predicate Backed(e: Entry<Stored>, r: Option<DirResult>, root: seq<string>) {
    && r.Some? && !AnyError(r.value.diags)
    && e.files == r.value.files && RelAll(root, r.value.diags) == Some(e.warnings)
  }

  /** Every entry that decodes is the error-free generation of its key. */
  ghost predicate StoreOk(entries: map<Key, seq<byte>>, byKey: Key -> Option<DirResult>, root: seq<string>, codec: Codec<Stored>) {
    forall k :: k in entries && Decode(entries[k], codec).Some? ==> Backed(Decode(entries[k], codec).value, byKey(k), root)
  }

  /** The cache directory; broken keys cannot be read or written. */
  class Store {
    var entries: map<Key, seq<byte>>
    const broken: set<Key>

    /** storePut: the write may fail, and then changes nothing. */
    method Put(key: Key, entry: Entry<Stored>, codec: Codec<Stored>) returns (ok: bool)
      modifies this
      ensures ok <==> key !in broken
      ensures !ok ==> entries == old(entries)
      ensures ok ==> exists b :: Encodes(b, entry, codec) && entries == old(entries)[key := b]
    {
      var b := EncodeEntry(entry, codec);
      if key in broken {
        return false;
      }
      entries := entries[key := b];
      return true;
    }
  }

  /** The module's directories; broken targets cannot be written. */
  class Disk {
    var files: map<Target, seq<byte>>
    const broken: set<Target>
  }

  // ----- classification -----

  /** os.ReadFile cannot return the entry: it is missing, its read fails, or no Go slice can hold it. */
  predicate Unreadable(entries: map<Key, seq<byte>>, broken: set<Key>, key: Key) {
    key in broken || key !in entries || |entries[key]| > MAX_INT
  }

  datatype Status = Hit(key: Key, entry: Entry<Stored>) | Miss(key: Key) | Uncacheable

  /** The decision of classifyCache about one directory. */
  function Lookup(run: Run, d: Dir, entries: map<Key, seq<byte>>, broken: set<Key>, codec: Codec<Stored>): Status {
    if !run.ready || run.key(d).None? then Uncacheable
    else
      var k := run.key(d).value;
      if Unreadable(entries, broken, k) then Miss(k)
      else match Decode(entries[k], codec)
        case None => Miss(k)
        case Some(e) => Hit(k, e)
  }

  datatype Classification = Classification(
    keys: map<Dir, Key>, hits: map<Dir, Entry<Stored>>, misses: seq<Dir>, uncacheable: seq<Dir>)

  /** c treats d as its status says, when it is listed, and otherwise does not know it. */
  predicate Treats(c: Classification, d: Dir, listed: bool, s: Status) {
    && (d in c.hits <==> listed && s.Hit?)
    && (d in c.misses <==> listed && s.Miss?)
    && (d in c.uncacheable <==> listed && s.Uncacheable?)
    && (d in c.keys <==> listed && !s.Uncacheable?)
    && (d in c.hits ==> c.hits[d] == s.entry)
    && (d in c.keys ==> c.keys[d] == s.key)
  }

  ghost predicate Classified(c: Classification, run: Run, dirs: seq<Dir>, entries: map<Key, seq<byte>>, broken: set<Key>, codec: Codec<Stored>) {
    forall d :: Treats(c, d, d in dirs, Lookup(run, d, entries, broken, codec))
  }

  /** storeGet */
  method StoreGet(store: Store, key: Key, codec: Codec<Stored>) returns (e: Option<Entry<Stored>>)
    ensures e == if Unreadable(store.entries, store.broken, key) then None else Decode(store.entries[key], codec)
  {
    if Unreadable(store.entries, store.broken, key) {
      return None;
    }
    e := DecodeEntry(store.entries[key], codec);
  }

  /** The classification with the decision about one more directory. */
  function Add(c: Classification, d: Dir, s: Status): Classification {
    match s
    case Hit(key, entry) => c.(keys := c.keys[d := key], hits := c.hits[d := entry])
    case Miss(key) => c.(keys := c.keys[d := key], misses := c.misses + [d])
    case Uncacheable => c.(uncacheable := c.uncacheable + [d])
  }

  lemma {:induction false} ClassifiedStep(c: Classification, run: Run, dirs: seq<Dir>, i: nat, entries: map<Key, seq<byte>>, broken: set<Key>, codec: Codec<Stored>)
    requires i < |dirs| && Classified(c, run, dirs[..i], entries, broken, codec)
    ensures Classified(Add(c, dirs[i], Lookup(run, dirs[i], entries, broken, codec)), run, dirs[..i + 1], entries, broken, codec)
  {
    hide Lookup, Treats, Add;
    var c' := Add(c, dirs[i], Lookup(run, dirs[i], entries, broken, codec));
    forall d
      ensures Treats(c', d, d in dirs[..i + 1], Lookup(run, d, entries, broken, codec))
    {
      assert d in dirs[..i + 1] <==> d == dirs[i] || d in dirs[..i];
      AddTreats(c, d, d in dirs[..i], Lookup(run, d, entries, broken, codec), dirs[i], Lookup(run, dirs[i], entries, broken, codec));
    }
  }

  lemma {:induction false} AddTreats(c: Classification, d: Dir, listed: bool, s: Status, new_: Dir, status: Status)
    requires Treats(c, d, listed, s) && (d == new_ ==> s == status)
    ensures Treats(Add(c, new_, status), d, listed || d == new_, s)
  {}

  /** One turn of the loop of classifyCache. */
  method ClassifyOne(c: Classification, run: Run, d: Dir, store: Store, codec: Codec<Stored>) returns (c': Classification)
    ensures c' == Add(c, d, Lookup(run, d, store.entries, store.broken, codec))
  {
    hide Decode;
    if !run.ready {
      return c.(uncacheable := c.uncacheable + [d]);
    }
    var key := run.key(d);
    if key.None? {
      return c.(uncacheable := c.uncacheable + [d]);
    }
    c' := c.(keys := c.keys[d := key.value]);
    var cached := StoreGet(store, key.value, codec);
    if cached.Some? {
      return c'.(hits := c'.hits[d := cached.value]);
    }
    return c'.(misses := c'.misses + [d]);
  }

  /** classifyCache */
  method ClassifyCache(run: Run, dirs: seq<Dir>, store: Store, codec: Codec<Stored>) returns (c: Classification)
    ensures Classified(c, run, dirs, store.entries, store.broken, codec)
    ensures Sorted(c.misses) && Sorted(c.uncacheable)
  {
    hide Lookup, Add, Sorted;
    c := Classification(map[], map[], [], []);
    for i := 0 to |dirs|
      invariant Classified(c, run, dirs[..i], store.entries, store.broken, codec)
    {
      ClassifiedStep(c, run, dirs, i, store.entries, store.broken, codec);
      c := ClassifyOne(c, run, dirs[i], store, codec);
    }
    assert dirs[..|dirs|] == dirs;
    var misses := DedupSorted(c.misses);
    var uncacheable := DedupSorted(c.uncacheable);
    c := c.(misses := misses, uncacheable := uncacheable);
  }

  method DedupSorted(names: seq<seq<byte>>) returns (out: seq<seq<byte>>)
    ensures Sorted(out) && Distinct(out) && forall n :: n in out <==> n in names
  {
    var seen: map<seq<byte>, bool> := map[];
    for k := 0 to |names|
      invariant forall n :: n in seen <==> n in names[..k]
    {
      seen := seen[names[k] := true];
    }
    assert names[..|names|] == names;
    out := SortedKeys(seen);
  }

  /** generationDirs */
  method GenerationDirs(c: Classification) returns (dirs: seq<Dir>)
    ensures Distinct(dirs) && forall d :: d in dirs <==> d in c.misses || d in c.uncacheable
  {
    dirs := DedupSorted(c.misses + c.uncacheable);
  }

  // ----- writing outputs -----

  /** out is on disk in directory d. The write of a target that is not current may fail. */
  ghost predicate Laid(was: map<Target, seq<byte>>, now: map<Target, seq<byte>>, d: Dir, out: map<Name, seq<byte>>) {
    forall t: Target :: Content(now, t) == if t.0 == d && t.1 in out then Some(out[t.1]) else Content(was, t)
  }

  ghost predicate Rewrites(written: seq<Target>, was: map<Target, seq<byte>>, d: Dir, out: map<Name, seq<byte>>) {
    forall t: Target :: t in written <==> t.0 == d && t.1 in out && Content(was, t) != Some(out[t.1])
  }

  /** The first k of the sorted names are dealt with. */
  ghost predicate Restoring(was: map<Target, seq<byte>>, now: map<Target, seq<byte>>, written: seq<Target>, d: Dir,
      out: map<Name, seq<byte>>, rels: seq<Name>, k: nat)
    requires k <= |rels|
  {
    Laid(was, now, d, Taken(out, rels[..k])) && Rewrites(written, was, d, Taken(out, rels[..k]))
  }

  /** The files and the written targets after one more name. */
  lemma {:induction false} RestoreStep(was: map<Target, seq<byte>>, now: map<Target, seq<byte>>, written: seq<Target>, d: Dir,
      out: map<Name, seq<byte>>, rels: seq<Name>, k: nat)
    requires k < |rels| && rels[k] in out && Distinct(rels)
    requires Restoring(was, now, written, d, out, rels, k)
    ensures var t := (d, rels[k]);
      if t in now && now[t] == out[rels[k]] then Restoring(was, now, written, d, out, rels, k + 1)
      else Restoring(was, now[t := out[rels[k]]], written + [t], d, out, rels, k + 1)
  {
    var t, data := (d, rels[k]), out[rels[k]];
    TakenStep(out, rels, k);
    assert Content(now, t) == Content(was, t);
    var now' := now[t := data];
    forall u: Target
      ensures Content(now', u) == if u == t then Some(data) else Content(now, u)
    {}
  }

  lemma {:induction false} TakenStep(out: map<Name, seq<byte>>, rels: seq<Name>, k: nat)
    requires k < |rels| && rels[k] in out && Distinct(rels)
    ensures rels[k] !in Taken(out, rels[..k])
    ensures Taken(out, rels[..k + 1]) == Taken(out, rels[..k])[rels[k] := out[rels[k]]]
  {
    assert forall n :: n in rels[..k + 1] <==> n == rels[k] || n in rels[..k];
  }

  /** No target of the directory that is not current is broken. */
  ghost predicate Writable(was: map<Target, seq<byte>>, broken: set<Target>, d: Dir, out: map<Name, seq<byte>>) {
    forall n :: n in out ==> Content(was, (d, n)) == Some(out[n]) || (d, n) !in broken
  }

  /** Nothing outside of the directory has changed. */
  ghost predicate OnlyIn(was: map<Target, seq<byte>>, now: map<Target, seq<byte>>, d: Dir) {
    forall t: Target :: t.0 != d ==> Content(now, t) == Content(was, t)
  }

  /** restore: brings the files of a directory up to date, in the order of their names, skipping
      those whose bytes are current. A target that cannot be written ends it. */
  method Restore(disk: Disk, d: Dir, out: map<Name, seq<byte>>) returns (written: seq<Target>, upToDate: nat, ok: bool)
    modifies disk`files
    ensures ok ==> Laid(old(disk.files), disk.files, d, out) && Rewrites(written, old(disk.files), d, out)
    ensures ok ==> |written| + upToDate == |out|
    ensures ok <==> Writable(old(disk.files), disk.broken, d, out)
    ensures OnlyIn(old(disk.files), disk.files, d)
  {
    hide Less, Sorted, Laid, Rewrites, Taken;
    var rels := SortedKeys(out);
    ListLength(rels, out.Keys);
    ghost var was := disk.files;
    written, upToDate := [], 0;
    NothingRestored(was, d, out, rels);
    for k := 0 to |rels|
      invariant Restoring(was, disk.files, written, d, out, rels, k)
      invariant |written| + upToDate == k
      invariant OnlyIn(was, disk.files, d)
      invariant forall j :: 0 <= j < k ==> Content(was, (d, rels[j])) == Some(out[rels[j]]) || (d, rels[j]) !in disk.broken
    {
      RestoreStep(was, disk.files, written, d, out, rels, k);
      NotYetRestored(was, disk.files, written, d, out, rels, k);
      var target := (d, rels[k]);
      var data := out[rels[k]];
      if target in disk.files && disk.files[target] == data {
        upToDate := upToDate + 1;
        continue;
      }
      if target in disk.broken {
        return written, upToDate, false;
      }
      disk.files := disk.files[target := data];
      written := written + [target];
    }
    AllTaken(out, rels);
    forall n | n in out
      ensures Content(was, (d, n)) == Some(out[n]) || (d, n) !in disk.broken
    {
      assert n in rels;
    }
    ok := true;
  }

  lemma {:induction false} NotYetRestored(was: map<Target, seq<byte>>, now: map<Target, seq<byte>>, written: seq<Target>, d: Dir,
      out: map<Name, seq<byte>>, rels: seq<Name>, k: nat)
    requires k < |rels| && rels[k] in out && Distinct(rels) && Restoring(was, now, written, d, out, rels, k)
    ensures Content(now, (d, rels[k])) == Content(was, (d, rels[k]))
  {
    TakenStep(out, rels, k);
  }

  lemma {:induction false} NothingRestored(was: map<Target, seq<byte>>, d: Dir, out: map<Name, seq<byte>>, rels: seq<Name>)
    ensures Restoring(was, was, [], d, out, rels, 0)
  {}

  lemma {:induction false} AllTaken(out: map<Name, seq<byte>>, rels: seq<Name>)
    requires Lists(rels, out.Keys)
    ensures Taken(out, rels[..|rels|]) == out
  {
    assert rels[..|rels|] == rels;
  }

  function Taken(out: map<Name, seq<byte>>, names: seq<Name>): map<Name, seq<byte>> {
    map n | n in names && n in out :: out[n]
  }

  /** The fields of Result that the pipeline fills; failed stands for a non-empty list of errors. */
  datatype Result = Result(diags: seq<Found>, written: seq<Target>, upToDate: nat, failed: bool)

  /** writeDirOutcome: the output of a directory, or poison for its errors. What it returns is
      stored, so it returns nothing unless the directory is free of errors and its output is on disk. */
  method WriteDirOutcome(disk: Disk, run: Run, d: Dir, dr: DirResult, res: Result) returns (output: Option<map<Name, seq<byte>>>, res': Result)
    requires run.generate(d) == Some(dr)
    modifies disk`files
    ensures output.Some? ==> output.value == dr.files && !AnyError(dr.diags)
    ensures res'.diags == res.diags && (res.failed ==> res'.failed)
    ensures !res'.failed ==> Laid(old(disk.files), disk.files, d, Out(run, d)) && GainsFrom(res, res', old(disk.files), d, Out(run, d))
    ensures disk.broken == {} && (AnyError(dr.diags) ==> run.poison(d, dr.diags).Some?) ==> res'.failed == res.failed
    ensures output.Some? <==> !AnyError(dr.diags) && Writable(old(disk.files), disk.broken, d, dr.files)
    ensures !res'.failed && !AnyError(dr.diags) ==> output.Some?
    ensures OnlyIn(old(disk.files), disk.files, d)
  {
    hide Writable, Laid;
    NoneBroken(disk.files, disk.broken, d);
    var errors := HasError(dr.diags);
    var files;
    if errors {
      var poison := run.poison(d, dr.diags);
      if poison.None? {
        return None, res.(failed := true);
      }
      files := poison.value;
    } else {
      files := dr.files;
    }
    var written, upToDate, ok := Restore(disk, d, files);
    if !ok {
      return None, res.(failed := true);
    }
    res' := res.(written := res.written + written, upToDate := res.upToDate + upToDate);
    output := if errors then None else Some(files);
  }

  lemma {:induction false} NoneBroken(was: map<Target, seq<byte>>, broken: set<Target>, d: Dir)
    ensures broken == {} ==> forall out :: Writable(was, broken, d, out)
  {}

  method HasError(diags: seq<Found>) returns (any: bool)
    ensures any == AnyError(diags)
    ensures any <==> exists d :: d in diags && d.severity == Error
  {
    for k := 0 to |diags|
      invariant forall j :: 0 <= j < k ==> !IsError(diags[j])
    {
      if diags[k].severity == Error {
        assert IsError(diags[k]);
        return true;
      }
    }
    return false;
  }

  /** res' has the writes of one more directory. */
  ghost predicate GainsFrom(res: Result, res': Result, was: map<Target, seq<byte>>, d: Dir, out: map<Name, seq<byte>>) {
    && (forall t: Target :: t in res'.written <==> t in res.written || (t.0 == d && t.1 in out && Content(was, t) != Some(out[t.1])))
    && |res'.written| + res'.upToDate == |res.written| + res.upToDate + |out|
  }

  // ----- progress of a run -----

  function Dirs(done: seq<Dir>): set<Dir> { set d | d in done }

  /** The directories in done are on disk and in the result. */
  ghost predicate Progress(was: map<Target, seq<byte>>, now: map<Target, seq<byte>>, res: Result, run: Run, done: seq<Dir>) {
    && After(was, now, run, Dirs(done)) && WritesOf(res.written, was, run, Dirs(done))
    && Totals(multiset(res.diags), |res.written| + res.upToDate) == TotalsOf(run, done)
  }

  lemma {:induction false} AfterStep(was: map<Target, seq<byte>>, mid: map<Target, seq<byte>>, now: map<Target, seq<byte>>, run: Run, done: seq<Dir>, d: Dir)
    requires After(was, mid, run, Dirs(done)) && Laid(mid, now, d, Out(run, d))
    ensures After(was, now, run, Dirs(done + [d]))
  {
    hide Out;
  }

  lemma {:induction false} WritesStep(was: map<Target, seq<byte>>, mid: map<Target, seq<byte>>, res: Result, res': Result, run: Run, done: seq<Dir>, d: Dir)
    requires d !in done && After(was, mid, run, Dirs(done))
    requires WritesOf(res.written, was, run, Dirs(done)) && GainsFrom(res, res', mid, d, Out(run, d))
    ensures WritesOf(res'.written, was, run, Dirs(done + [d]))
  {
    hide Out;
  }

  /** One more directory. */
  lemma {:induction false} ProgressStep(was: map<Target, seq<byte>>, mid: map<Target, seq<byte>>, now: map<Target, seq<byte>>,
      res: Result, res': Result, run: Run, done: seq<Dir>, d: Dir)
    requires Progress(was, mid, res, run, done) && d !in done
    requires Laid(mid, now, d, Out(run, d)) && GainsFrom(res, res', mid, d, Out(run, d))
    requires multiset(res'.diags) == multiset(res.diags) + multiset(DiagsOf(run, d))
    ensures Progress(was, now, res', run, done + [d])
  {
    hide Out, After, WritesOf, Laid, DiagsOf, TotalsOf;
    AfterStep(was, mid, now, run, done, d);
    WritesStep(was, mid, res, res', run, done, d);
    TotalsConcat(run, done, [d]);
    TotalsOne(run, d);
  }

  /** A directory that gives nothing. */
  lemma {:induction false} ProgressNothing(was: map<Target, seq<byte>>, now: map<Target, seq<byte>>, res: Result, run: Run, done: seq<Dir>, d: Dir)
    requires Progress(was, now, res, run, done) && d !in done && run.generate(d).None?
    ensures Progress(was, now, res, run, done + [d])
  {
    ProgressStep(was, now, now, res, res, run, done, d);
  }

  // ----- restoring hits -----

  datatype Restored = Restored(written: seq<Target>, upToDate: nat, diags: seq<Found>)

  /** Each hit is what generation would give. */
  ghost predicate HitsOk(c: Classification, run: Run) {
    forall d :: d in c.hits ==> c.hits[d].files == Out(run, d) && AbsAll(run.root, c.hits[d].warnings) == DiagsOf(run, d)
  }

  ghost predicate RestoredOk(r: Restored, was: map<Target, seq<byte>>, run: Run, d: Dir) {
    && Rewrites(r.written, was, d, Out(run, d)) && |r.written| + r.upToDate == |Out(run, d)|
    && r.diags == DiagsOf(run, d)
  }

  ghost predicate AllRestored(hits: map<Dir, Restored>, was: map<Target, seq<byte>>, run: Run) {
    forall d :: d in hits ==> RestoredOk(hits[d], was, run, d)
  }

  /** restoreCacheHits */
  method RestoreCacheHits(disk: Disk, run: Run, dirs: seq<Dir>, c: Classification) returns (hits: map<Dir, Restored>, ok: bool)
    requires HitsOk(c, run) && Distinct(dirs)
    modifies disk`files
    ensures ok ==> After(old(disk.files), disk.files, run, hits.Keys) && AllRestored(hits, old(disk.files), run)
    ensures ok ==> forall d :: d in hits <==> d in dirs && d in c.hits
    ensures disk.broken == {} ==> ok
  {
    hide Out, DiagsOf, Laid, Rewrites, RestoredOk, After, Writable, OnlyIn;
    hits := map[];
    ghost var was := disk.files;
    NothingDone(was, run);
    assert hits.Keys == {};
    for k := 0 to |dirs|
      invariant After(was, disk.files, run, hits.Keys) && AllRestored(hits, was, run)
      invariant forall d :: d in hits <==> d in dirs[..k] && d in c.hits
    {
      var d := dirs[k];
      assert forall e :: e in dirs[..k + 1] <==> e == d || e in dirs[..k];
      assert d !in dirs[..k];
      if d !in c.hits {
        continue;
      }
      var entry := c.hits[d];
      ghost var mid := disk.files;
      NoneBroken(disk.files, disk.broken, d);
      var written, upToDate, done := Restore(disk, d, entry.files);
      if !done {
        return hits, false;
      }
      var diags := AbsWarnings(run.root, entry.warnings);
      HitRestored(was, mid, disk.files, run, hits.Keys, d, written, upToDate, diags);
      ghost var keys := hits.Keys;
      hits := hits[d := Restored(written, upToDate, diags)];
      assert hits.Keys == keys + {d};
    }
    assert dirs[..|dirs|] == dirs;
    ok := true;
  }

  lemma {:induction false} NothingDone(was: map<Target, seq<byte>>, run: Run)
    ensures After(was, was, run, {})
  {}

  lemma {:induction false} HitRestored(was: map<Target, seq<byte>>, mid: map<Target, seq<byte>>, now: map<Target, seq<byte>>,
      run: Run, done: set<Dir>, d: Dir, written: seq<Target>, upToDate: nat, diags: seq<Found>)
    requires After(was, mid, run, done) && d !in done
    requires Laid(mid, now, d, Out(run, d)) && Rewrites(written, mid, d, Out(run, d))
    requires |written| + upToDate == |Out(run, d)| && diags == DiagsOf(run, d)
    ensures After(was, now, run, done + {d}) && RestoredOk(Restored(written, upToDate, diags), was, run, d)
  {
    hide Out, DiagsOf;
  }

  // ----- committing -----

  /** cacheStoreCandidate */
  datatype Candidate = Candidate(dir: Dir, key: Key, entry: Entry<Stored>)

  /** The candidate is an error-free generation, under the key of its directory. */
  ghost predicate CandidateOk(c: Candidate, run: Run) {
    run.key(c.dir) == Some(c.key) && Backed(c.entry, run.generate(c.dir), run.root)
  }

  /** What codegen.GenerateDirs returns for these directories. */
  ghost predicate GeneratedFor(generated: map<Dir, DirResult>, run: Run, dirs: seq<Dir>) {
    forall d :: d in dirs ==> (if d in generated then run.generate(d) == Some(generated[d]) else run.generate(d).None?)
  }

  method GenerateDirs(run: Run, dirs: seq<Dir>) returns (generated: map<Dir, DirResult>, ok: bool)
    ensures ok == !run.fails && (ok ==> GeneratedFor(generated, run, dirs))
  {
    generated := map[];
    if run.fails {
      return generated, false;
    }
    for k := 0 to |dirs|
      invariant GeneratedFor(generated, run, dirs[..k])
      invariant forall d :: d in generated ==> run.generate(d) == Some(generated[d])
    {
      assert forall e :: e in dirs[..k + 1] <==> e == dirs[k] || e in dirs[..k];
      var r := run.generate(dirs[k]);
      if r.Some? {
        generated := generated[dirs[k] := r.value];
      }
    }
    assert dirs[..|dirs|] == dirs;
    ok := true;
  }

  /** Every directory that has errors can be poisoned. */
  ghost predicate Poisonable(run: Run, dirs: seq<Dir>) {
    forall d :: d in dirs && run.generate(d).Some? && AnyError(run.generate(d).value.diags)
      ==> run.poison(d, run.generate(d).value.diags).Some?
  }

  /** The classification knows the key of every miss. */
  ghost predicate KeysKnown(c: Classification, run: Run) {
    forall d :: d in c.keys ==> run.key(d) == Some(c.keys[d])
  }

  /** A cacheable miss whose generation is free of errors, with warnings that can be stored. */
  ghost predicate Selectable(c: Classification, run: Run, d: Dir) {
    d in c.misses && d in c.keys && Storable(run, d)
  }

  ghost predicate Storable(run: Run, d: Dir) {
    run.generate(d).Some? && !AnyError(run.generate(d).value.diags) && RelAll(run.root, run.generate(d).value.diags).Some?
  }

  ghost predicate Selected(candidates: seq<Candidate>, d: Dir) {
    exists j :: 0 <= j < |candidates| && candidates[j].dir == d
  }

  /** Of these directories, exactly the selectable ones whose output is on disk are selected; all of them
      when nothing failed. */
  ghost predicate Selection(candidates: seq<Candidate>, run: Run, dirs: seq<Dir>, c: Classification, was: map<Target, seq<byte>>,
      broken: set<Target>, failed: bool) {
    forall d :: d in dirs ==>
      && (Selected(candidates, d) <==> Selectable(c, run, d) && Writable(was, broken, d, run.generate(d).value.files))
      && (!failed && Selectable(c, run, d) ==> Selected(candidates, d))
  }

  /** writeGeneratedOutputs: writes all generated output, and selects what may be stored. It cannot
      touch the store. */
  method WriteGeneratedOutputs(disk: Disk, run: Run, dirs: seq<Dir>, generated: map<Dir, DirResult>, c: Classification, res: Result,
      ghost was: map<Target, seq<byte>>, ghost done: seq<Dir>)
    returns (candidates: seq<Candidate>, res': Result)
    requires Distinct(done + dirs) && GeneratedFor(generated, run, dirs) && KeysKnown(c, run)
    requires !res.failed ==> Progress(was, disk.files, res, run, done)
    modifies disk`files
    ensures forall k :: 0 <= k < |candidates| ==> CandidateOk(candidates[k], run)
    ensures !res'.failed ==> Progress(was, disk.files, res', run, done + dirs)
    ensures disk.broken == {} && Poisonable(run, dirs) ==> res'.failed == res.failed
    ensures Selection(candidates, run, dirs, c, old(disk.files), disk.broken, res'.failed)
  {
    hide Progress, Laid, GainsFrom, Out, DiagsOf, Backed, Selection, Writable, OnlyIn, AnyError, RelAll, ElsewhereSame;
    candidates, res' := [], res;
    assert done + dirs[..0] == done;
    ghost var files0 := disk.files;
    NoSelection(run, dirs, c, files0, disk.broken, res'.failed);
    for k := 0 to |dirs|
      invariant forall j :: 0 <= j < |candidates| ==> CandidateOk(candidates[j], run)
      invariant !res'.failed ==> Progress(was, disk.files, res', run, done + dirs[..k])
      invariant disk.broken == {} && Poisonable(run, dirs) ==> res'.failed == res.failed
      invariant Selection(candidates, run, dirs[..k], c, files0, disk.broken, res'.failed)
      invariant ElsewhereSame(files0, disk.files, dirs[..k]) && NoneBeyond(candidates, dirs[..k])
    {
      var d := dirs[k];
      assert done + dirs[..k + 1] == done + dirs[..k] + [d];
      NotYetDone(done, dirs, k);
      if d !in generated {
        Untouched(disk.files, d);
        NotSelected(candidates, run, dirs, k, c, files0, disk.files, disk.files, disk.broken, res'.failed, res'.failed);
        if !res'.failed {
          ProgressNothing(was, disk.files, res', run, done + dirs[..k], d);
        }
        continue;
      }
      ghost var mid, before := disk.files, res';
      var dirResult := generated[d];
      res' := res'.(diags := res'.diags + dirResult.diags);
      GainsNothing(before, res', mid, d);
      var output;
      output, res' := WriteDirOutcome(disk, run, d, dirResult, res');
      DiagsJoin(run, d, dirResult, before.diags);
      if !res'.failed {
        GainsKept(before, before.(diags := before.diags + dirResult.diags), res', mid, d, Out(run, d));
        ProgressStep(was, mid, disk.files, before, res', run, done + dirs[..k], d);
      }
      SameThere(files0, mid, dirs, k, disk.broken, d, dirResult.files);
      if output.None? || d !in c.misses || d !in c.keys {
        NotSelected(candidates, run, dirs, k, c, files0, mid, disk.files, disk.broken, before.failed, res'.failed);
        continue;
      }
      var warnings := RelWarnings(run.root, dirResult.diags);
      if warnings.None? {
        NotSelected(candidates, run, dirs, k, c, files0, mid, disk.files, disk.broken, before.failed, res'.failed);
        continue;
      }
      var entry := Entry(output.value, warnings.value);
      BackedBy(entry, dirResult, run);
      IsSelected(candidates, Candidate(d, c.keys[d], entry), run, dirs, k, c, files0, mid, disk.files, disk.broken, before.failed, res'.failed);
      candidates := candidates + [Candidate(d, c.keys[d], entry)];
    }
    assert dirs[..|dirs|] == dirs;
  }

  /** Outside of these directories the files are as they were. */
  ghost predicate ElsewhereSame(was: map<Target, seq<byte>>, now: map<Target, seq<byte>>, dirs: seq<Dir>) {
    forall t: Target :: t.0 !in dirs ==> Content(now, t) == Content(was, t)
  }

  ghost predicate NoneBeyond(candidates: seq<Candidate>, dirs: seq<Dir>) {
    forall j :: 0 <= j < |candidates| ==> candidates[j].dir in dirs
  }

  lemma {:induction false} Untouched(files: map<Target, seq<byte>>, d: Dir)
    ensures OnlyIn(files, files, d)
  {}

  lemma {:induction false} NoSelection(run: Run, dirs: seq<Dir>, c: Classification, was: map<Target, seq<byte>>, broken: set<Target>, failed: bool)
    ensures Selection([], run, dirs[..0], c, was, broken, failed) && ElsewhereSame(was, was, dirs[..0]) && NoneBeyond([], dirs[..0])
  {}

  lemma {:induction false} SameThere(was: map<Target, seq<byte>>, mid: map<Target, seq<byte>>, dirs: seq<Dir>, k: nat, broken: set<Target>, d: Dir,
      out: map<Name, seq<byte>>)
    requires k < |dirs| && ElsewhereSame(was, mid, dirs[..k]) && d == dirs[k] && d !in dirs[..k]
    ensures Writable(was, broken, d, out) <==> Writable(mid, broken, d, out)
  {}

  lemma {:induction false} OneMoreDir(was: map<Target, seq<byte>>, mid: map<Target, seq<byte>>, now: map<Target, seq<byte>>, dirs: seq<Dir>, k: nat)
    requires k < |dirs| && ElsewhereSame(was, mid, dirs[..k]) && OnlyIn(mid, now, dirs[k])
    ensures ElsewhereSame(was, now, dirs[..k + 1])
    ensures forall e :: e in dirs[..k + 1] <==> e == dirs[k] || e in dirs[..k]
  {
    assert forall e :: e in dirs[..k + 1] <==> e == dirs[k] || e in dirs[..k];
  }

  lemma {:induction false} NotSelected(candidates: seq<Candidate>, run: Run, dirs: seq<Dir>, k: nat, c: Classification, was: map<Target, seq<byte>>,
      mid: map<Target, seq<byte>>, now: map<Target, seq<byte>>, broken: set<Target>, before: bool, failed: bool)
    requires k < |dirs| && dirs[k] !in dirs[..k] && ElsewhereSame(was, mid, dirs[..k]) && OnlyIn(mid, now, dirs[k]) && (before ==> failed)
    requires Selection(candidates, run, dirs[..k], c, was, broken, before) && NoneBeyond(candidates, dirs[..k])
    requires Selectable(c, run, dirs[k]) ==> failed && !Writable(was, broken, dirs[k], run.generate(dirs[k]).value.files)
    ensures Selection(candidates, run, dirs[..k + 1], c, was, broken, failed)
    ensures ElsewhereSame(was, now, dirs[..k + 1]) && NoneBeyond(candidates, dirs[..k + 1])
  {
    hide Selectable, Writable, ElsewhereSame;
    OneMoreDir(was, mid, now, dirs, k);
  }

  lemma {:induction false} IsSelected(candidates: seq<Candidate>, x: Candidate, run: Run, dirs: seq<Dir>, k: nat, c: Classification, was: map<Target, seq<byte>>,
      mid: map<Target, seq<byte>>, now: map<Target, seq<byte>>, broken: set<Target>, before: bool, failed: bool)
    requires k < |dirs| && x.dir == dirs[k] && dirs[k] !in dirs[..k]
    requires ElsewhereSame(was, mid, dirs[..k]) && OnlyIn(mid, now, dirs[k]) && (before ==> failed)
    requires Selection(candidates, run, dirs[..k], c, was, broken, before) && NoneBeyond(candidates, dirs[..k])
    requires Selectable(c, run, dirs[k]) && Writable(was, broken, dirs[k], run.generate(dirs[k]).value.files)
    ensures Selection(candidates + [x], run, dirs[..k + 1], c, was, broken, failed)
    ensures ElsewhereSame(was, now, dirs[..k + 1]) && NoneBeyond(candidates + [x], dirs[..k + 1])
  {
    hide Selectable, Writable, ElsewhereSame, Selected;
    OneMoreDir(was, mid, now, dirs, k);
    forall d
      ensures Selected(candidates + [x], d) <==> Selected(candidates, d) || d == x.dir
    {
      SelectedAppend(candidates, x, d);
    }
  }

  lemma {:induction false} SelectedAppend(candidates: seq<Candidate>, x: Candidate, d: Dir)
    ensures Selected(candidates + [x], d) <==> Selected(candidates, d) || d == x.dir
  {
    assert (candidates + [x])[|candidates|] == x;
    assert forall j :: 0 <= j < |candidates| ==> (candidates + [x])[j] == candidates[j];
  }

  lemma {:induction false} NotYetDone(done: seq<Dir>, dirs: seq<Dir>, k: nat)
    requires Distinct(done + dirs) && k < |dirs|
    ensures dirs[k] !in done + dirs[..k]
  {
    var all := done + dirs;
    assert all[|done| + k] == dirs[k];
    forall i | 0 <= i < |done| + k
      ensures (done + dirs[..k])[i] == all[i]
    {}
  }

  lemma {:induction false} GainsNothing(res: Result, res': Result, was: map<Target, seq<byte>>, d: Dir)
    requires res' == res.(diags := res'.diags)
    ensures GainsFrom(res, res', was, d, map[])
  {}

  lemma {:induction false} GainsKept(res: Result, mid: Result, res': Result, was: map<Target, seq<byte>>, d: Dir, out: map<Name, seq<byte>>)
    requires mid == res.(diags := mid.diags) && GainsFrom(mid, res', was, d, out)
    ensures GainsFrom(res, res', was, d, out)
  {}

  lemma {:induction false} DiagsJoin(run: Run, d: Dir, r: DirResult, diags: seq<Found>)
    requires run.generate(d) == Some(r)
    ensures multiset(diags + r.diags) == multiset(diags) + multiset(DiagsOf(run, d))
  {}

  lemma {:induction false} BackedBy(entry: Entry<Stored>, r: DirResult, run: Run)
    requires !AnyError(r.diags) && entry.files == r.files && RelAll(run.root, r.diags) == Some(entry.warnings)
    ensures Backed(entry, Some(r), run.root)
  {}

  /** Whatever is written under a key decodes to its error-free generation, or not at all. */
  lemma {:induction false} PutKeepsOk(entries: map<Key, seq<byte>>, key: Key, b: seq<byte>, entry: Entry<Stored>,
      byKey: Key -> Option<DirResult>, root: seq<string>, codec: Codec<Stored>)
    requires StoreOk(entries, byKey, root, codec) && Encodes(b, entry, codec) && Backed(entry, byKey(key), root)
    requires Sane(byKey) && Faithful(codec)
    ensures StoreOk(entries[key := b], byKey, root, codec)
  {
    hide Decode, Encodes, RelAll, ValidNames, FitsGo, AnyError;
    assert SaneResult(byKey(key).value);
    WarningsDecode(entry.warnings, codec);
    DecodeOfEncode(b, entry, codec);
  }

  lemma {:induction false} WarningsDecode(ws: seq<Stored>, codec: Codec<Stored>)
    requires Faithful(codec)
    ensures |WarningBytes(ws, codec)| <= MAX_INT
    ensures var r := Warnings(WarningBytes(ws, codec), codec); r.Some? ==> r.value == ws
  {}

  /** The entry of the last candidate under a key. */
  function LastFor(candidates: seq<Candidate>, key: Key): Option<Entry<Stored>> {
    if candidates == [] then None
    else if candidates[|candidates| - 1].key == key then Some(candidates[|candidates| - 1].entry)
    else LastFor(candidates[..|candidates| - 1], key)
  }

  /** Under every key that can be written there is an encoding of its last candidate; every other key is as it was. */
  ghost predicate StoredLast(was: map<Key, seq<byte>>, now: map<Key, seq<byte>>, broken: set<Key>, candidates: seq<Candidate>, codec: Codec<Stored>) {
    forall k :: StoredUnder(was, now, broken, LastFor(candidates, k), k, codec)
  }

  ghost predicate StoredUnder(was: map<Key, seq<byte>>, now: map<Key, seq<byte>>, broken: set<Key>, entry: Option<Entry<Stored>>, k: Key,
      codec: Codec<Stored>) {
    if entry.Some? && k !in broken then k in now && Encodes(now[k], entry.value, codec)
    else (k in now <==> k in was) && (k in now ==> now[k] == was[k])
  }

  lemma {:induction false} StoreStep(was: map<Key, seq<byte>>, mid: map<Key, seq<byte>>, now: map<Key, seq<byte>>, broken: set<Key>,
      candidates: seq<Candidate>, i: nat, codec: Codec<Stored>)
    requires i < |candidates| && StoredLast(was, mid, broken, candidates[..i], codec)
    requires var x := candidates[i];
      if x.key in broken then now == mid else exists b :: Encodes(b, x.entry, codec) && now == mid[x.key := b]
    ensures StoredLast(was, now, broken, candidates[..i + 1], codec)
  {
    hide Encodes;
    var x, upto := candidates[i], candidates[..i + 1];
    forall k
      ensures StoredUnder(was, now, broken, LastFor(upto, k), k, codec)
    {
      assert StoredUnder(was, mid, broken, LastFor(candidates[..i], k), k, codec);
      assert upto[..i] == candidates[..i];
      assert LastFor(upto, k) == if x.key == k then Some(x.entry) else LastFor(candidates[..i], k);
    }
  }

  /** storeGeneratedOutputs */
  method StoreGeneratedOutputs(store: Store, candidates: seq<Candidate>, codec: Codec<Stored>,
      ghost run: Run, ghost byKey: Key -> Option<DirResult>)
    requires forall k :: 0 <= k < |candidates| ==> CandidateOk(candidates[k], run)
    requires Keyed(run, byKey) && Sane(byKey) && Faithful(codec) && StoreOk(store.entries, byKey, run.root, codec)
    modifies store
    ensures StoreOk(store.entries, byKey, run.root, codec)
    ensures StoredLast(old(store.entries), store.entries, store.broken, candidates, codec)
  {
    hide StoreOk, Encodes, Backed, Sane, Faithful, StoredLast;
    ghost var was0 := store.entries;
    NothingStored(was0, store.broken, candidates, codec);
    for k := 0 to |candidates|
      invariant StoreOk(store.entries, byKey, run.root, codec)
      invariant StoredLast(was0, store.entries, store.broken, candidates[..k], codec)
    {
      var c := candidates[k];
      assert CandidateOk(c, run) && run.key(c.dir) == Some(c.key);
      ghost var was := store.entries;
      var ok := store.Put(c.key, c.entry, codec);
      if ok {
        ghost var b :| Encodes(b, c.entry, codec) && store.entries == was[c.key := b];
        PutKeepsOk(was, c.key, b, c.entry, byKey, run.root, codec);
      }
      StoreStep(was0, was, store.entries, store.broken, candidates, k, codec);
    }
    assert candidates[..|candidates|] == candidates;
  }

  lemma {:induction false} NothingStored(was: map<Key, seq<byte>>, broken: set<Key>, candidates: seq<Candidate>, codec: Codec<Stored>)
    ensures StoredLast(was, was, broken, candidates[..0], codec)
  {}

  // ----- what is stored is found again -----

  /** The entry for the error-free generation of a directory. */
  ghost function EntryOf(run: Run, d: Dir): Entry<Stored>
    requires Storable(run, d)
  {
    Entry(run.generate(d).value.files, RelAll(run.root, run.generate(d).value.diags).value)
  }

  /** A directory with a key that can be used, whose generation can be stored, and read back from any slice of bytes
      that encodes it. */
  ghost predicate Cacheable(run: Run, d: Dir, broken: set<Key>, codec: Codec<Stored>) {
    && run.ready && run.key(d).Some? && run.key(d).value !in broken && Storable(run, d)
    && var e := EntryOf(run, d);
       Survive(e.warnings, codec) && forall b :: Encodes(b, e, codec) ==> |b| <= MAX_INT
  }

  /** Every cacheable directory would now be a hit. */
  ghost predicate AllFound(run: Run, dirs: seq<Dir>, entries: map<Key, seq<byte>>, broken: set<Key>, codec: Codec<Stored>) {
    forall d :: d in dirs && Cacheable(run, d, broken, codec) ==>
      Lookup(run, d, entries, broken, codec) == Hit(run.key(d).value, EntryOf(run, d))
  }

  lemma {:induction false} EncodedIsFound(run: Run, d: Dir, entries: map<Key, seq<byte>>, broken: set<Key>, codec: Codec<Stored>,
      byKey: Key -> Option<DirResult>)
    requires Cacheable(run, d, broken, codec) && Keyed(run, byKey) && Sane(byKey)
    requires run.key(d).value in entries && Encodes(entries[run.key(d).value], EntryOf(run, d), codec)
    ensures Lookup(run, d, entries, broken, codec) == Hit(run.key(d).value, EntryOf(run, d))
  {
    hide Decode, Encodes, RelAll, ValidNames, FitsGo, AnyError, Warnings, WarningBytes;
    var k, e := run.key(d).value, EntryOf(run, d);
    assert SaneResult(byKey(k).value);
    EncodedFits(entries[k], e, codec);
    DecodeOfEncode(entries[k], e, codec);
  }

  lemma {:induction false} BackedIsEntry(e: Entry<Stored>, run: Run, d: Dir)
    requires Backed(e, run.generate(d), run.root)
    ensures Storable(run, d) && e == EntryOf(run, d)
  {
    hide AnyError, RelAll;
  }

  lemma {:induction false} LastIsCandidate(candidates: seq<Candidate>, k: Key, j: nat)
    ensures LastFor(candidates, k).Some? ==> exists i :: 0 <= i < |candidates| && candidates[i].key == k && LastFor(candidates, k) == Some(candidates[i].entry)
    ensures j < |candidates| && candidates[j].key == k ==> LastFor(candidates, k).Some?
  {
    if candidates != [] {
      var init := candidates[..|candidates| - 1];
      LastIsCandidate(init, k, j);
      if LastFor(init, k).Some? {
        var i :| 0 <= i < |init| && init[i].key == k && LastFor(init, k) == Some(init[i].entry);
        assert candidates[i] == init[i];
      }
      assert candidates[|candidates| - 1].key == k ==> LastFor(candidates, k) == Some(candidates[|candidates| - 1].entry);
    }
  }

  /** What lies under the key of a cacheable directory after the candidates were stored. */
  lemma {:induction false} FoundAfter(run: Run, dirs: seq<Dir>, d: Dir, c: Classification, was: map<Key, seq<byte>>, now: map<Key, seq<byte>>,
      broken: set<Key>, candidates: seq<Candidate>, codec: Codec<Stored>, byKey: Key -> Option<DirResult>)
    requires d in dirs && Cacheable(run, d, broken, codec) && Keyed(run, byKey) && Sane(byKey)
    requires Classified(c, run, dirs, was, broken, codec) && StoreOk(was, byKey, run.root, codec)
    requires StoredLast(was, now, broken, candidates, codec)
    requires forall k :: 0 <= k < |candidates| ==> CandidateOk(candidates[k], run)
    requires d in c.misses ==> Selected(candidates, d)
    ensures Lookup(run, d, now, broken, codec) == Hit(run.key(d).value, EntryOf(run, d))
  {
    hide Decode, Encodes, RelAll, AnyError, Backed, Warnings, WarningBytes, Sane, EntryOf;
    var k := run.key(d).value;
    assert Treats(c, d, true, Lookup(run, d, was, broken, codec));
    assert StoredUnder(was, now, broken, LastFor(candidates, k), k, codec);
    LastIsCandidate(candidates, k, 0);
    if LastFor(candidates, k).Some? {
      var i :| 0 <= i < |candidates| && candidates[i].key == k && LastFor(candidates, k) == Some(candidates[i].entry);
      assert CandidateOk(candidates[i], run);
      assert run.generate(candidates[i].dir) == byKey(k) == run.generate(d);
      BackedIsEntry(candidates[i].entry, run, d);
      EncodedIsFound(run, d, now, broken, codec, byKey);
    } else {
      if d in c.misses {
        var j :| 0 <= j < |candidates| && candidates[j].dir == d;
        assert CandidateOk(candidates[j], run);
        LastIsCandidate(candidates, k, j);
      }
      assert run.generate(d) == byKey(k);
      BackedIsEntry(Decode(was[k], codec).value, run, d);
    }
  }

  /** Nothing operational goes wrong in this run. */
  ghost predicate Smooth(run: Run, disk: Disk, dirs: seq<Dir>) {
    !run.fails && disk.broken == {} && Poisonable(run, dirs)
  }

  /** The hits of a sound store are what generation would give: their files, and their warnings
      with their paths. */
  lemma {:induction false} HitsAreGenerated(c: Classification, run: Run, dirs: seq<Dir>, entries: map<Key, seq<byte>>, broken: set<Key>,
      codec: Codec<Stored>, byKey: Key -> Option<DirResult>)
    requires Classified(c, run, dirs, entries, broken, codec) && StoreOk(entries, byKey, run.root, codec)
    requires Keyed(run, byKey) && Sane(byKey) && IsClean(run.root)
    ensures HitsOk(c, run) && KeysKnown(c, run)
    ensures forall d :: d in c.hits ==> forall x :: x in DiagsOf(run, d) ==> x.severity != Error
  {
    forall d | d in c.keys
      ensures run.key(d) == Some(c.keys[d])
    {
      assert Treats(c, d, d in dirs, Lookup(run, d, entries, broken, codec));
    }
    hide Decode, RelAll, AbsAll, AnyError, ValidNames, FitsGo, IsClean;
    forall d | d in c.hits
      ensures !AnyError(DiagsOf(run, d))
      ensures c.hits[d].files == Out(run, d) && AbsAll(run.root, c.hits[d].warnings) == DiagsOf(run, d)
    {
      assert Treats(c, d, d in dirs, Lookup(run, d, entries, broken, codec));
      var k := run.key(d).value;
      assert Backed(c.hits[d], byKey(k), run.root) && SaneResult(byKey(k).value);
      WarningsRoundTrip(run.root, byKey(k).value.diags);
    }
    forall d | d in c.hits
      ensures forall x :: x in DiagsOf(run, d) ==> x.severity != Error
    {
      AnyErrorIs(DiagsOf(run, d));
    }
  }

  /** commitCache, for a run in which the Go command context is still valid. */
  method CommitCache(disk: Disk, store: Store, run: Run, dirs: seq<Dir>, c: Classification, codec: Codec<Stored>,
      ghost byKey: Key -> Option<DirResult>)
    returns (res: Result)
    requires Distinct(dirs) && Classified(c, run, dirs, store.entries, store.broken, codec)
    requires Keyed(run, byKey) && Sane(byKey) && Faithful(codec) && IsClean(run.root)
    requires StoreOk(store.entries, byKey, run.root, codec)
    modifies disk`files, store
    ensures StoreOk(store.entries, byKey, run.root, codec)
    ensures !res.failed ==> exists done :: SameMembers(done, dirs) && Distinct(done) && Progress(old(disk.files), disk.files, res, run, done)
    ensures Smooth(run, disk, dirs) ==> !res.failed
    ensures !res.failed ==> AllFound(run, dirs, store.entries, store.broken, codec)
  {
    hide Progress, StoreOk, Sane, Faithful, Keyed, IsClean, After, Selection, StoredLast, AllFound, Cacheable, AllRestored, HitsOk, KeysKnown, Lookup, CandidateOk, GeneratedFor, Distinct;
    ghost var was := disk.files;
    HitsAreGenerated(c, run, dirs, store.entries, store.broken, codec, byKey);
    var hits, restored := RestoreCacheHits(disk, run, dirs, c);
    ghost var done;
    res, done := CollectHits(dirs, hits, run, was, disk.files, restored);
    if !restored {
      res := res.(failed := true);
      return;
    }
    var generationDirs := GenerationDirs(c);
    HitsAndRest(c, run, dirs, store.entries, store.broken, codec, done, generationDirs);
    if |generationDirs| == 0 {
      assert done + generationDirs == done;
      FoundAlready(run, dirs, generationDirs, c, store.entries, store.broken, codec, byKey);
      return;
    }
    var generated, ok := GenerateDirs(run, generationDirs);
    if !ok {
      res := res.(failed := true);
      return;
    }
    ghost var before := disk.files;
    var candidates;
    candidates, res := WriteGeneratedOutputs(disk, run, generationDirs, generated, c, res, was, done);
    ghost var entries := store.entries;
    StoreGeneratedOutputs(store, candidates, codec, run, byKey);
    if !res.failed {
      NowFound(run, dirs, generationDirs, c, entries, store.entries, store.broken, candidates, before, disk.broken, codec, byKey);
    }
  }

  lemma {:induction false} NowFound(run: Run, dirs: seq<Dir>, generationDirs: seq<Dir>, c: Classification, was: map<Key, seq<byte>>, now: map<Key, seq<byte>>,
      broken: set<Key>, candidates: seq<Candidate>, files: map<Target, seq<byte>>, brokenTargets: set<Target>, codec: Codec<Stored>,
      byKey: Key -> Option<DirResult>)
    requires Keyed(run, byKey) && Sane(byKey) && StoreOk(was, byKey, run.root, codec)
    requires Classified(c, run, dirs, was, broken, codec) && StoredLast(was, now, broken, candidates, codec)
    requires forall k :: 0 <= k < |candidates| ==> CandidateOk(candidates[k], run)
    requires forall d :: d in generationDirs <==> d in c.misses || d in c.uncacheable
    requires Selection(candidates, run, generationDirs, c, files, brokenTargets, false)
    ensures AllFound(run, dirs, now, broken, codec)
  {
    hide Keyed, Sane, StoreOk, Classified, StoredLast, CandidateOk, Lookup, Storable, EntryOf, Selected, Writable;
    forall d | d in dirs && Cacheable(run, d, broken, codec)
      ensures Lookup(run, d, now, broken, codec) == Hit(run.key(d).value, EntryOf(run, d))
    {
      MissHasKey(c, run, dirs, d, was, broken, codec);
      FoundAfter(run, dirs, d, c, was, now, broken, candidates, codec, byKey);
    }
  }

  lemma {:induction false} MissHasKey(c: Classification, run: Run, dirs: seq<Dir>, d: Dir, was: map<Key, seq<byte>>, broken: set<Key>, codec: Codec<Stored>)
    requires Classified(c, run, dirs, was, broken, codec)
    ensures d in c.misses ==> d in c.keys
  {
    hide Lookup;
    assert Treats(c, d, d in dirs, Lookup(run, d, was, broken, codec));
  }

  lemma {:induction false} FoundAlready(run: Run, dirs: seq<Dir>, generationDirs: seq<Dir>, c: Classification, entries: map<Key, seq<byte>>,
      broken: set<Key>, codec: Codec<Stored>, byKey: Key -> Option<DirResult>)
    requires Keyed(run, byKey) && Sane(byKey) && StoreOk(entries, byKey, run.root, codec)
    requires Classified(c, run, dirs, entries, broken, codec) && generationDirs == []
    requires forall d :: d in generationDirs <==> d in c.misses || d in c.uncacheable
    ensures AllFound(run, dirs, entries, broken, codec)
  {
    hide Keyed, Sane, StoreOk, Classified, StoredLast, Lookup, Storable, EntryOf;
    var none: seq<Candidate> := [];
    NothingStored(entries, broken, none, codec);
    assert none[..0] == none;
    forall d | d in dirs && Cacheable(run, d, broken, codec)
      ensures Lookup(run, d, entries, broken, codec) == Hit(run.key(d).value, EntryOf(run, d))
    {
      FoundAfter(run, dirs, d, c, entries, entries, broken, none, codec, byKey);
    }
  }

  /** The loop of commitCache that takes over the restored hits, in the order of the directories. */
  method CollectHits(dirs: seq<Dir>, hits: map<Dir, Restored>, run: Run, ghost was: map<Target, seq<byte>>, ghost now: map<Target, seq<byte>>, ghost all: bool)
    returns (res: Result, ghost done: seq<Dir>)
    requires Distinct(dirs)
    requires all ==> After(was, now, run, hits.Keys) && AllRestored(hits, was, run) && forall d :: d in hits ==> d in dirs
    ensures Distinct(done) && (all ==> forall d :: d in done <==> d in hits)
    ensures !res.failed && (all ==> Progress(was, now, res, run, done))
  {
    hide After, Out, DiagsOf, TotalsOf;
    res, done := Result([], [], 0, false), [];
    NoTotals(run);
    for k := 0 to |dirs|
      invariant !res.failed && Distinct(done) && forall d :: d in done <==> d in dirs[..k] && d in hits
      invariant all ==> WritesOf(res.written, was, run, Dirs(done))
      invariant all ==> Totals(multiset(res.diags), |res.written| + res.upToDate) == TotalsOf(run, done)
    {
      var d := dirs[k];
      assert forall e :: e in dirs[..k + 1] <==> e == d || e in dirs[..k];
      assert d !in dirs[..k];
      if d !in hits {
        continue;
      }
      var hit := hits[d];
      if all {
        assert RestoredOk(hit, was, run, d);
        CollectStep(was, res, run, done, d, hit);
      }
      res := res.(diags := res.diags + hit.diags, written := res.written + hit.written, upToDate := res.upToDate + hit.upToDate);
      done := done + [d];
    }
    assert dirs[..|dirs|] == dirs;
    assert all ==> Dirs(done) == hits.Keys;
  }

  lemma {:induction false} NoTotals(run: Run)
    ensures TotalsOf(run, []) == Totals(multiset{}, 0)
  {}

  lemma {:induction false} CollectStep(was: map<Target, seq<byte>>, res: Result, run: Run, done: seq<Dir>, d: Dir, hit: Restored)
    requires WritesOf(res.written, was, run, Dirs(done)) && RestoredOk(hit, was, run, d)
    requires Totals(multiset(res.diags), |res.written| + res.upToDate) == TotalsOf(run, done)
    ensures WritesOf(res.written + hit.written, was, run, Dirs(done + [d]))
    ensures Totals(multiset(res.diags + hit.diags), |res.written + hit.written| + res.upToDate + hit.upToDate) == TotalsOf(run, done + [d])
  {
    hide Out, DiagsOf, TotalsOf;
    TotalsConcat(run, done, [d]);
    TotalsOne(run, d);
  }

  /** Hits and the directories to generate are all directories, each once. */
  lemma {:induction false} HitsAndRest(c: Classification, run: Run, dirs: seq<Dir>, entries: map<Key, seq<byte>>, broken: set<Key>,
      codec: Codec<Stored>, done: seq<Dir>, rest: seq<Dir>)
    requires Classified(c, run, dirs, entries, broken, codec)
    requires Distinct(done) && (forall d :: d in done <==> d in dirs && d in c.hits)
    requires Distinct(rest) && (forall d :: d in rest <==> d in c.misses || d in c.uncacheable)
    ensures Distinct(done + rest) && SameMembers(done + rest, dirs)
  {
    hide Lookup;
    forall i, j | 0 <= i < j < |done + rest|
      ensures (done + rest)[i] != (done + rest)[j]
    {
      if i < |done| <= j {
        assert done[i] in done && rest[j - |done|] in rest;
      }
    }
  }

  // ----- the cache does not matter -----

  /** What a run over dirs leaves and reports, read off the run alone: there is no store in it. */
  ghost predicate Finished(was: map<Target, seq<byte>>, now: map<Target, seq<byte>>, res: Result, run: Run, dirs: seq<Dir>) {
    && After(was, now, run, Dirs(dirs)) && WritesOf(res.written, was, run, Dirs(dirs))
    && Totals(multiset(res.diags), |res.written| + res.upToDate) == TotalsOf(run, dirs)
  }

  lemma {:induction false} ProgressFinishes(was: map<Target, seq<byte>>, now: map<Target, seq<byte>>, res: Result, run: Run, done: seq<Dir>, dirs: seq<Dir>)
    requires Progress(was, now, res, run, done) && Distinct(done) && Distinct(dirs) && SameMembers(done, dirs)
    ensures Finished(was, now, res, run, dirs)
  {
    hide After, WritesOf, TotalsOf, Distinct;
    TotalsPermute(run, done, dirs);
    assert Dirs(done) == Dirs(dirs);
  }

  /** generateModule, from classification on. Whatever sound store it starts from, and whether or not
      it may use it, it leaves the same files and reports the same diagnostics, and the store stays sound. */
  method GenerateModule(disk: Disk, store: Store, run: Run, dirs: seq<Dir>, codec: Codec<Stored>, ghost byKey: Key -> Option<DirResult>)
    returns (res: Result)
    requires Distinct(dirs)
    requires Keyed(run, byKey) && Sane(byKey) && Faithful(codec) && IsClean(run.root)
    requires StoreOk(store.entries, byKey, run.root, codec)
    modifies disk`files, store
    ensures StoreOk(store.entries, byKey, run.root, codec)
    ensures !res.failed ==> Finished(old(disk.files), disk.files, res, run, dirs)
    ensures Smooth(run, disk, dirs) ==> !res.failed
    ensures !res.failed ==> AllFound(run, dirs, store.entries, store.broken, codec)
  {
    hide StoreOk, Sane, Faithful, Keyed, Classified, Progress, Finished, Smooth, Distinct, AllFound;
    ghost var was := disk.files;
    var c := ClassifyCache(run, dirs, store, codec);
    res := CommitCache(disk, store, run, dirs, c, codec, byKey);
    if !res.failed {
      ghost var done :| SameMembers(done, dirs) && Distinct(done) && Progress(was, disk.files, res, run, done);
      ProgressFinishes(was, disk.files, res, run, done, dirs);
    }
  }

  /** The cache is of use: after a run without failures, another run with the same sources finds every directory whose
      generation can be stored. */
  method SecondRunHits(disk: Disk, store: Store, run: Run, dirs: seq<Dir>, codec: Codec<Stored>, ghost byKey: Key -> Option<DirResult>)
    returns (res: Result, c: Classification)
    requires Distinct(dirs)
    requires Keyed(run, byKey) && Sane(byKey) && Faithful(codec) && IsClean(run.root)
    requires StoreOk(store.entries, byKey, run.root, codec)
    modifies disk`files, store
    ensures Smooth(run, disk, dirs) ==> forall d :: d in dirs && Cacheable(run, d, store.broken, codec) ==>
      d in c.hits && c.hits[d] == EntryOf(run, d) && d !in c.misses
  {
    hide StoreOk, Sane, Faithful, Keyed, Finished, Smooth, Distinct, IsClean, Cacheable, EntryOf, Lookup;
    res := GenerateModule(disk, store, run, dirs, codec, byKey);
    c := ClassifyCache(run, dirs, store, codec);
    forall d | d in dirs
      ensures Treats(c, d, true, Lookup(run, d, store.entries, store.broken, codec))
    {}
  }

  /** Two runs that differ only in the use of the cache agree, from the same files. */
  lemma {:induction false} SameOutcome(was: map<Target, seq<byte>>, on: map<Target, seq<byte>>, off: map<Target, seq<byte>>,
      resOn: Result, resOff: Result, run: Run, dirs: seq<Dir>)
    requires Finished(was, on, resOn, run, dirs) && Finished(was, off, resOff, run.(ready := false), dirs)
    ensures on == off && multiset(resOn.diags) == multiset(resOff.diags)
    ensures forall t :: t in resOn.written <==> t in resOff.written
  {
    hide TotalsOf, Out;
    var run' := run.(ready := false);
    forall d
      ensures Out(run, d) == Out(run', d)
    {
      OutIgnoresReady(run, d);
    }
    TotalsIgnoreReady(run, dirs);
    forall t: Target
      ensures Content(on, t) == Content(off, t)
    {}
    ContentDecides(on, off);
  }

  lemma {:induction false} OutIgnoresReady(run: Run, d: Dir)
    ensures Out(run.(ready := false), d) == Out(run, d) && DiagsOf(run.(ready := false), d) == DiagsOf(run, d)
  {}

  lemma {:induction false} TotalsIgnoreReady(run: Run, dirs: seq<Dir>)
    ensures TotalsOf(run.(ready := false), dirs) == TotalsOf(run, dirs)
  {
    if dirs != [] {
      TotalsIgnoreReady(run, dirs[..|dirs| - 1]);
      OutIgnoresReady(run, dirs[|dirs| - 1]);
    }
  }

  lemma {:induction false} ContentDecides(x: map<Target, seq<byte>>, y: map<Target, seq<byte>>)
    requires forall t: Target :: Content(x, t) == Content(y, t)
    ensures x == y
  {
    forall t: Target
      ensures t in x <==> t in y
      ensures t in x && t in y ==> x[t] == y[t]
    {
      assert Content(x, t) == Content(y, t);
    }
  }

  // ----- over a history of runs -----

  /** What can happen to a module and its cache. */
  datatype Event =
    | Generate(run: Run, dirs: seq<Dir>)
    | Edit(target: Target, content: Option<seq<byte>>)  // someone writes or deletes an output
    | Lose(keys: set<Key>)                              // entries disappear
    | Corrupt(key: Key, bytes: seq<byte>)               // an entry is replaced by bytes that do not decode

  datatype Report = Report(totals: Totals, written: set<Target>)

  function Written(files: map<Target, seq<byte>>, run: Run, dirs: seq<Dir>): set<Target> {
    set d, n | d in dirs && n in Out(run, d) && Content(files, (d, n)) != Some(Out(run, d)[n]) :: (d, n)
  }

  function Overlay(files: map<Target, seq<byte>>, d: Dir, out: map<Name, seq<byte>>): map<Target, seq<byte>> {
    files + map n | n in out :: (d, n) := out[n]
  }

  function Generated(files: map<Target, seq<byte>>, run: Run, dirs: seq<Dir>): map<Target, seq<byte>> {
    if dirs == [] then files
    else Overlay(Generated(files, run, dirs[..|dirs| - 1]), dirs[|dirs| - 1], Out(run, dirs[|dirs| - 1]))
  }

  /** The files after one event, in a world without a cache. */
  function Without(files: map<Target, seq<byte>>, e: Event): map<Target, seq<byte>> {
    match e
    case Generate(run, dirs) => Generated(files, run, dirs)
    case Edit(t, content) => if content.Some? then files[t := content.value] else files - {t}
    case _ => files
  }

  /** The files and reports after the events, in a world without a cache. */
  function FilesAfter(files: map<Target, seq<byte>>, events: seq<Event>): map<Target, seq<byte>> {
    if events == [] then files else Without(FilesAfter(files, events[..|events| - 1]), events[|events| - 1])
  }

  function ReportsAfter(files: map<Target, seq<byte>>, events: seq<Event>): seq<Report> {
    if events == [] then []
    else
      var rest, last := events[..|events| - 1], events[|events| - 1];
      ReportsAfter(files, rest) + match last
        case Generate(run, dirs) => [Report(TotalsOf(run, dirs), Written(FilesAfter(files, rest), run, dirs))]
        case _ => []
  }

  lemma {:induction false} GeneratedIs(was: map<Target, seq<byte>>, run: Run, dirs: seq<Dir>)
    ensures After(was, Generated(was, run, dirs), run, Dirs(dirs))
  {
    hide Out;
    if dirs != [] {
      var rest, d := dirs[..|dirs| - 1], dirs[|dirs| - 1];
      GeneratedIs(was, run, rest);
      var mid := Generated(was, run, rest);
      OverlayIs(mid, d, Out(run, d));
      AfterStep(was, mid, Overlay(mid, d, Out(run, d)), run, rest, d);
      assert dirs == rest + [d];
    }
  }

  lemma {:induction false} OverlayIs(was: map<Target, seq<byte>>, d: Dir, out: map<Name, seq<byte>>)
    ensures Laid(was, Overlay(was, d, out), d, out)
  {
    forall t: Target
      ensures Content(Overlay(was, d, out), t) == if t.0 == d && t.1 in out then Some(out[t.1]) else Content(was, t)
    {
      assert t == (t.0, t.1);
    }
  }

  /** A finished run leaves what the world without a cache has, and reports the same. */
  lemma {:induction false} FinishedIs(was: map<Target, seq<byte>>, now: map<Target, seq<byte>>, res: Result, run: Run, dirs: seq<Dir>)
    requires Finished(was, now, res, run, dirs)
    ensures now == Generated(was, run, dirs)
    ensures Report(Totals(multiset(res.diags), |res.written| + res.upToDate), set t | t in res.written)
      == Report(TotalsOf(run, dirs), Written(was, run, dirs))
  {
    hide Out, TotalsOf, Generated;
    GeneratedIs(was, run, dirs);
    forall t: Target
      ensures Content(now, t) == Content(Generated(was, run, dirs), t)
    {}
    ContentDecides(now, Generated(was, run, dirs));
    forall t: Target
      ensures t in res.written <==> t in Written(was, run, dirs)
    {
      assert t == (t.0, t.1);
    }
  }

  /** The events are possible: runs are over distinct directories of the module, go smoothly, and
      generation depends on the key only; damage leaves nothing that decodes. */
  ghost predicate Possible(e: Event, disk: Disk, root: seq<string>, codec: Codec<Stored>, byKey: Key -> Option<DirResult>) {
    match e
    case Generate(run, dirs) => Distinct(dirs) && Keyed(run, byKey) && run.root == root && Smooth(run, disk, dirs)
    case Corrupt(_, bytes) => Decode(bytes, codec).None?
    case _ => true
  }

  lemma {:induction false} DamageKeepsOk(entries: map<Key, seq<byte>>, keys: set<Key>, key: Key, bytes: seq<byte>,
      byKey: Key -> Option<DirResult>, root: seq<string>, codec: Codec<Stored>)
    requires StoreOk(entries, byKey, root, codec)
    ensures StoreOk(entries - keys, byKey, root, codec)
    ensures Decode(bytes, codec).None? ==> StoreOk(entries[key := bytes], byKey, root, codec)
  {
    hide Decode, Backed;
  }

  /** What an event that is no run does to the entries. */
  function Damaged(entries: map<Key, seq<byte>>, e: Event): map<Key, seq<byte>> {
    match e
    case Lose(keys) => entries - keys
    case Corrupt(key, bytes) => entries[key := bytes]
    case _ => entries
  }

  /** One event in the world with the cache. */
  method Happen(disk: Disk, store: Store, e: Event, codec: Codec<Stored>, ghost byKey: Key -> Option<DirResult>, ghost root: seq<string>)
    returns (reports: seq<Report>)
    requires Possible(e, disk, root, codec, byKey)
    requires Sane(byKey) && Faithful(codec) && IsClean(root) && StoreOk(store.entries, byKey, root, codec)
    modifies disk`files, store
    ensures StoreOk(store.entries, byKey, root, codec)
    ensures !e.Generate? ==> store.entries == Damaged(old(store.entries), e)
    ensures disk.files == Without(old(disk.files), e)
    ensures reports == match e
      case Generate(run, dirs) => [Report(TotalsOf(run, dirs), Written(old(disk.files), run, dirs))]
      case _ => []
  {
    hide StoreOk, Sane, Faithful, Keyed, Decode, Smooth, Distinct, Finished, TotalsOf, Generated, Written;
    match e
    case Generate(run, dirs) =>
      ghost var was := disk.files;
      var res := GenerateModule(disk, store, run, dirs, codec, byKey);
      FinishedIs(was, disk.files, res, run, dirs);
      reports := [Report(Totals(multiset(res.diags), |res.written| + res.upToDate), set t | t in res.written)];
    case Edit(t, content) =>
      disk.files := if content.Some? then disk.files[t := content.value] else disk.files - {t};
      reports := [];
    case Lose(keys) =>
      DamageKeepsOk(store.entries, keys, [], [], byKey, root, codec);
      store.entries := store.entries - keys;
      reports := [];
    case Corrupt(key, bytes) =>
      DamageKeepsOk(store.entries, {}, key, bytes, byKey, root, codec);
      store.entries := store.entries[key := bytes];
      reports := [];
  }

  /** Over any history of runs, edits of the outputs and damage to the cache, the files and the reports
      are those of a world without a cache. */
  method History(disk: Disk, store: Store, events: seq<Event>, codec: Codec<Stored>, ghost byKey: Key -> Option<DirResult>, ghost root: seq<string>)
    returns (reports: seq<Report>)
    requires forall k :: 0 <= k < |events| ==> Possible(events[k], disk, root, codec, byKey)
    requires Sane(byKey) && Faithful(codec) && IsClean(root) && StoreOk(store.entries, byKey, root, codec)
    modifies disk`files, store
    ensures StoreOk(store.entries, byKey, root, codec)
    ensures disk.files == FilesAfter(old(disk.files), events)
    ensures reports == ReportsAfter(old(disk.files), events)
  {
    hide StoreOk, Sane, Faithful, Possible, Without, TotalsOf, Written, Decode;
    reports := [];
    for k := 0 to |events|
      invariant StoreOk(store.entries, byKey, root, codec)
      invariant disk.files == FilesAfter(old(disk.files), events[..k])
      invariant reports == ReportsAfter(old(disk.files), events[..k])
    {
      assert events[..k + 1][..k] == events[..k];
      var more := Happen(disk, store, events[k], codec, byKey, root);
      reports := reports + more;
    }
    assert events[..|events|] == events;
  }
}

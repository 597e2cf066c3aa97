/** gen/cache.go: the file names of cached warnings, stored relative to the module root. */
module WarningPaths {
  import opened Options

  /** A file name on a Unix system: absent, relative, or absolute, given by the parts between its slashes. */
  datatype Filename = NoName | Relative(text: string) | Absolute(parts: seq<string>)

  /** A stored name: absent, or a path below the module root; no parts stand for ".". */
  datatype StoredName = NoFile | Local(parts: seq<string>)

  datatype Severity = Error | Warning | Info

  /** A diagnostic with names of either kind; text is everything else. */
  datatype Diag<N, T> = Diag(severity: Severity, start: N, end: N, text: T)

  // ----- filepath -----

  function CleanOnto(acc: seq<string>, parts: seq<string>): seq<string>
    decreases |parts|
  {
    if parts == [] then acc
    else if parts[0] == "" || parts[0] == "." then CleanOnto(acc, parts[1..])
    else if parts[0] == ".." then CleanOnto(if acc == [] then acc else acc[..|acc| - 1], parts[1..])
    else CleanOnto(acc + [parts[0]], parts[1..])
  }

  /** filepath.Clean of an absolute path */
  function Clean(parts: seq<string>): seq<string> { CleanOnto([], parts) }

  predicate PlainPart(p: string) { p != "" && p != "." && p != ".." }

  predicate IsClean(parts: seq<string>) {
    forall k :: 0 <= k < |parts| ==> PlainPart(parts[k])
  }

  function Common(a: seq<string>, b: seq<string>): (k: nat)
    ensures k <= |a| && k <= |b|
  {
    if a == [] || b == [] || a[0] != b[0] then 0 else 1 + Common(a[1..], b[1..])
  }

  /** filepath.Rel between clean absolute paths: up from the base to the common directory, and down. */
  function RelParts(base: seq<string>, target: seq<string>): seq<string> {
    var k := Common(base, target);
    seq(|base| - k, _ => "..") + target[k..]
  }

  /** filepath.IsLocal of such a path */
  predicate IsLocal(parts: seq<string>) { parts == [] || parts[0] != ".." }

  // ----- the two directions -----

  /** The closure rel of relWarnings. */
  function RelName(root: seq<string>, name: Filename): Option<StoredName> {
    match name
    case NoName => Some(NoFile)
    case Relative(_) => None
    case Absolute(parts) =>
      var r := RelParts(Clean(root), Clean(parts));
      if IsLocal(r) then Some(Local(r)) else None
  }

  /** absWarnings on one name: filepath.Join with the root */
  function AbsName(root: seq<string>, name: StoredName): Filename {
    match name
    case NoFile => NoName
    case Local(parts) => Absolute(Clean(root + parts))
  }

  function RelDiag<T>(root: seq<string>, d: Diag<Filename, T>): Option<Diag<StoredName, T>> {
    match (RelName(root, d.start), RelName(root, d.end))
    case (Some(s), Some(e)) => Some(Diag(d.severity, s, e, d.text))
    case _ => None
  }

  function AbsDiag<T>(root: seq<string>, d: Diag<StoredName, T>): Diag<Filename, T> {
    Diag(d.severity, AbsName(root, d.start), AbsName(root, d.end), d.text)
  }

  function RelAll<T>(root: seq<string>, diags: seq<Diag<Filename, T>>): Option<seq<Diag<StoredName, T>>> {
    if diags == [] then Some([])
    else match (RelAll(root, diags[..|diags| - 1]), RelDiag(root, diags[|diags| - 1]))
      case (Some(rest), Some(d)) => Some(rest + [d])
      case _ => None
  }

  function AbsAll<T>(root: seq<string>, warnings: seq<Diag<StoredName, T>>): (diags: seq<Diag<Filename, T>>)
    ensures |diags| == |warnings|
  {
    seq(|warnings|, i requires 0 <= i < |warnings| => AbsDiag(root, warnings[i]))
  }

  /** relWarnings */
  method RelWarnings<T>(root: seq<string>, diags: seq<Diag<Filename, T>>) returns (warnings: Option<seq<Diag<StoredName, T>>>)
    ensures warnings == RelAll(root, diags)
  {
    hide RelName;
    var out := [];
    for k := 0 to |diags|
      invariant RelAll(root, diags[..k]) == Some(out)
    {
      assert diags[..k + 1][..k] == diags[..k];
      var start := RelName(root, diags[k].start);
      var end := RelName(root, diags[k].end);
      if start.None? || end.None? {
        FailureStays(root, diags, k + 1);
        return None;
      }
      out := out + [Diag(diags[k].severity, start.value, end.value, diags[k].text)];
    }
    assert diags[..|diags|] == diags;
    return Some(out);
  }

  lemma {:induction false} FailureStays<T>(root: seq<string>, diags: seq<Diag<Filename, T>>, k: nat)
    requires k <= |diags| && RelAll(root, diags[..k]).None?
    ensures RelAll(root, diags).None?
    decreases |diags|
  {
    if k == |diags| {
      assert diags[..k] == diags;
    } else {
      assert diags[..|diags| - 1][..k] == diags[..k];
      FailureStays(root, diags[..|diags| - 1], k);
    }
  }

  /** absWarnings */
  method AbsWarnings<T>(root: seq<string>, warnings: seq<Diag<StoredName, T>>) returns (diags: seq<Diag<Filename, T>>)
    ensures diags == AbsAll(root, warnings)
  {
    if |warnings| == 0 {
      return [];
    }
    diags := [];
    for k := 0 to |warnings|
      invariant |diags| == k && forall j :: 0 <= j < k ==> diags[j] == AbsDiag(root, warnings[j])
    {
      var d := warnings[k];
      var start := match d.start case NoFile => NoName case Local(parts) => Absolute(Clean(root + parts));
      var end := match d.end case NoFile => NoName case Local(parts) => Absolute(Clean(root + parts));
      diags := diags + [Diag(d.severity, start, end, d.text)];
    }
  }

  // ----- round trips -----

  lemma {:induction false} CleanStep(acc: seq<string>, parts: seq<string>)
    requires IsClean(parts)
    ensures CleanOnto(acc, parts) == acc + parts
    decreases |parts|
  {
    if parts != [] {
      assert PlainPart(parts[0]);
      forall k | 0 <= k < |parts[1..]|
        ensures PlainPart(parts[1..][k])
      {
        assert PlainPart(parts[k + 1]);
      }
      CleanStep(acc + [parts[0]], parts[1..]);
      assert acc + [parts[0]] + parts[1..] == acc + parts;
    }
  }

  lemma {:induction false} CleanIsClean(acc: seq<string>, parts: seq<string>)
    requires IsClean(acc)
    ensures IsClean(CleanOnto(acc, parts))
    decreases |parts|
  {
    hide IsClean;
    if parts != [] {
      PlainAppend(acc, parts[0]);
      CleanIsClean(if parts[0] == "" || parts[0] == "." then acc
        else if parts[0] == ".." then (if acc == [] then acc else acc[..|acc| - 1])
        else acc + [parts[0]], parts[1..]);
    }
  }

  lemma {:induction false} PlainAppend(acc: seq<string>, p: string)
    requires IsClean(acc)
    ensures PlainPart(p) ==> IsClean(acc + [p])
    ensures acc != [] ==> IsClean(acc[..|acc| - 1])
  {}

  /** Clean changes exactly the paths that are not clean. */
  lemma {:induction false} CleanIffFixed(parts: seq<string>)
    ensures Clean(parts) == parts <==> IsClean(parts)
  {
    CleanIsClean([], parts);
    if IsClean(parts) {
      CleanStep([], parts);
    }
  }

  lemma {:induction false} CleanConcat(acc: seq<string>, x: seq<string>, y: seq<string>)
    ensures CleanOnto(acc, x + y) == CleanOnto(CleanOnto(acc, x), y)
    decreases |x|
  {
    if x == [] {
      assert x + y == y;
    } else {
      assert (x + y)[1..] == x[1..] + y;
      CleanConcat(if x[0] == "" || x[0] == "." then acc
        else if x[0] == ".." then (if acc == [] then acc else acc[..|acc| - 1])
        else acc + [x[0]], x[1..], y);
    }
  }

  lemma {:induction false} CleanOne(acc: seq<string>, p: string)
    ensures PlainPart(p) ==> CleanOnto(acc, [p]) == acc + [p]
    ensures !PlainPart(p) ==> CleanOnto(acc, [p]) == if p == ".." && acc != [] then acc[..|acc| - 1] else acc
  {
    assert [p][1..] == [];
  }

  /** The four rules of cleaning: an empty part and "." count for nothing, ".." takes off the plain part
      before it, and above the root there is only the root. They make a path clean step by step, so with
      CleanIffFixed they say what every path is cleaned to. */
  lemma {:induction false} CleanRules(x: seq<string>, p: string, y: seq<string>)
    ensures Clean(x + [""] + y) == Clean(x + y) == Clean(x + ["."] + y)
    ensures PlainPart(p) ==> Clean(x + [p, ".."] + y) == Clean(x + y)
    ensures Clean([".."] + y) == Clean(y)
  {
    hide CleanOnto;
    CleanConcat([], x, y);
    Inserted(x, [""], y);
    Inserted(x, ["."], y);
    Inserted(x, [p, ".."], y);
    Inserted([], [".."], y);
    var acc := Clean(x);
    CleanOne(acc, "");
    CleanOne(acc, ".");
    CleanOne([], "..");
    assert [] + [".."] + y == [".."] + y && [] + y == y;
    CleanNothing([]);
    CleanOne(acc, p);
    CleanOne(acc + [p], "..");
    CleanConcat(acc, [p], [".."]);
    assert [p] + [".."] == [p, ".."] && (acc + [p])[..|acc|] == acc;
  }

  lemma {:induction false} CleanNothing(acc: seq<string>)
    ensures CleanOnto(acc, []) == acc
  {}

  lemma {:induction false} Inserted(x: seq<string>, parts: seq<string>, y: seq<string>)
    ensures Clean(x + parts + y) == CleanOnto(CleanOnto(Clean(x), parts), y)
  {
    hide CleanOnto;
    CleanConcat([], x + parts, y);
    CleanConcat([], x, parts);
  }

  lemma {:induction false} CommonIsPrefix(a: seq<string>, b: seq<string>)
    ensures Common(a, b) == |a| <==> |a| <= |b| && b[..|a|] == a
    decreases |a|
  {
    if a != [] && b != [] && a[0] == b[0] {
      CommonIsPrefix(a[1..], b[1..]);
      if |a| <= |b| {
        assert b[..|a|] == [b[0]] + b[1..][..|a| - 1] && a == [a[0]] + a[1..];
      }
    } else if a != [] && |a| <= |b| && b != [] {
      assert b[..|a|][0] == b[0];
    }
  }

  predicate Below(root: seq<string>, path: seq<string>) {
    |root| <= |path| && path[..|root|] == root
  }

  /** A relative path is local exactly when the target is the base or below it. */
  lemma {:induction false} LocalIffBelow(base: seq<string>, target: seq<string>)
    requires IsClean(target)
    ensures IsLocal(RelParts(base, target)) <==> Below(base, target)
    ensures Below(base, target) ==> RelParts(base, target) == target[|base|..]
  {
    CommonIsPrefix(base, target);
    var k := Common(base, target);
    if k == |base| {
      assert RelParts(base, target) == target[k..];
      if k < |target| {
        assert PlainPart(target[k]);
      }
    } else {
      assert RelParts(base, target)[0] == "..";
    }
  }

  /** A name that can be stored is the root, or below it, or absent. */
  predicate Storable(root: seq<string>, name: Filename) {
    match name
    case NoName => true
    case Relative(_) => false
    case Absolute(parts) => Below(root, Clean(parts))
  }

  predicate CleanName(name: Filename) { name.Absolute? ==> IsClean(name.parts) }

  /** A name is refused exactly when it is outside the root, and a stored name comes back cleaned:
      unchanged exactly when it was clean. */
  lemma {:induction false} NameRoundTrip(root: seq<string>, name: Filename)
    requires IsClean(root)
    ensures RelName(root, name).Some? <==> Storable(root, name)
    ensures RelName(root, name).Some? ==> (AbsName(root, RelName(root, name).value) == name <==> CleanName(name))
  {
    hide IsLocal, RelParts, Clean, IsClean;
    if name.Absolute? {
      var c := Clean(name.parts);
      CleanIffFixed(root);
      CleanPathIsClean(name.parts);
      LocalIffBelow(root, c);
      CleanIffFixed(name.parts);
      if Below(root, c) {
        CleanIffFixed(c);
        assert root + c[|root|..] == c;
      }
    }
  }

  lemma {:induction false} CleanPathIsClean(parts: seq<string>)
    ensures IsClean(Clean(parts))
  {
    CleanIsClean([], parts);
  }

  predicate CleanDiag<T>(d: Diag<Filename, T>) { CleanName(d.start) && CleanName(d.end) }

  predicate StorableDiag<T>(root: seq<string>, d: Diag<Filename, T>) { Storable(root, d.start) && Storable(root, d.end) }

  ghost predicate Pointwise<T>(root: seq<string>, diags: seq<Diag<Filename, T>>, warnings: seq<Diag<StoredName, T>>) {
    |warnings| == |diags| && forall k :: 0 <= k < |diags| ==> RelDiag(root, diags[k]) == Some(warnings[k])
  }

  /** relWarnings refuses exactly the lists with a name outside the root. */
  lemma {:induction false} RelWarningsAccepts<T>(root: seq<string>, diags: seq<Diag<Filename, T>>)
    requires IsClean(root)
    ensures RelAll(root, diags).Some? <==> forall k :: 0 <= k < |diags| ==> StorableDiag(root, diags[k])
    ensures RelAll(root, diags).Some? ==> Pointwise(root, diags, RelAll(root, diags).value)
  {
    hide RelName, Storable;
    if diags != [] {
      var rest, d := diags[..|diags| - 1], diags[|diags| - 1];
      RelWarningsAccepts(root, rest);
      NameRoundTrip(root, d.start);
      NameRoundTrip(root, d.end);
      assert forall k :: 0 <= k < |rest| ==> rest[k] == diags[k];
    }
  }

  /** absWarnings undoes relWarnings exactly when every file name was clean. */
  lemma {:induction false} WarningsRoundTrip<T>(root: seq<string>, diags: seq<Diag<Filename, T>>)
    requires IsClean(root) && RelAll(root, diags).Some?
    ensures AbsAll(root, RelAll(root, diags).value) == diags <==> forall k :: 0 <= k < |diags| ==> CleanDiag(diags[k])
  {
    hide RelName, AbsName, RelAll, CleanName, StorableDiag;
    RelWarningsAccepts(root, diags);
    var out := AbsAll(root, RelAll(root, diags).value);
    forall k | 0 <= k < |diags|
      ensures out[k] == diags[k] <==> CleanDiag(diags[k])
    {
      NameRoundTrip(root, diags[k].start);
      NameRoundTrip(root, diags[k].end);
    }
  }

  /** A file name with a part that cleaning drops comes back without it. */
  lemma {:induction false} DotPartIsLost<T>(text: T)
    ensures var root, d := ["m"], Diag(Warning, Absolute(["m", ".", "a"]), NoName, text);
      && RelAll(root, [d]) == Some([Diag(Warning, Local(["a"]), NoFile, text)])
      && AbsAll(root, RelAll(root, [d]).value) == [d.(start := Absolute(["m", "a"]))]
  {
    hide CleanOnto, IsLocal, RelParts;
    var root, d := ["m"], Diag(Warning, Absolute(["m", ".", "a"]), NoName, text);
    DotPath();
    assert IsClean(root) && IsClean(["m", "a"]);
    CleanIffFixed(root);
    CleanIffFixed(["m", "a"]);
    LocalIffBelow(root, ["m", "a"]);
    assert ["m", "a"][..1] == root && ["m", "a"][1..] == ["a"] && root + ["a"] == ["m", "a"];
    assert Below(root, ["m", "a"]);
    assert RelName(root, d.start) == Some(Local(["a"])) && RelName(root, d.end) == Some(NoFile);
    assert RelDiag(root, d) == Some(Diag(Warning, Local(["a"]), NoFile, text));
    RelOne(root, [d], Diag(Warning, Local(["a"]), NoFile, text));
  }

  lemma {:induction false} RelOne<T>(root: seq<string>, diags: seq<Diag<Filename, T>>, w: Diag<StoredName, T>)
    requires |diags| == 1 && RelDiag(root, diags[0]) == Some(w)
    ensures RelAll(root, diags) == Some([w])
  {
    hide RelDiag;
    assert diags[..0] == [] && [] + [w] == [w];
  }

  lemma {:induction false} DotPath()
    ensures Clean(["m", ".", "a"]) == ["m", "a"]
  {
    assert ["m", ".", "a"][1..] == [".", "a"] && [".", "a"][1..] == ["a"] && ["a"][1..] == [];
    assert CleanOnto(["m"] + ["a"], []) == ["m", "a"];
    assert CleanOnto(["m"], ["a"]) == ["m", "a"];
    assert CleanOnto(["m"], [".", "a"]) == ["m", "a"];
    assert [] + ["m"] == ["m"];
  }

  predicate StoredClean(name: StoredName) { name.Local? ==> IsClean(name.parts) }

  /** Stored warnings can be read below any root, and stored from there again. */
  lemma {:induction false} Relocatable<T>(root: seq<string>, warnings: seq<Diag<StoredName, T>>)
    requires IsClean(root)
    requires forall k :: 0 <= k < |warnings| ==> StoredClean(warnings[k].start) && StoredClean(warnings[k].end)
    ensures RelAll(root, AbsAll(root, warnings)) == Some(warnings)
  {
    hide RelName, AbsName, StoredClean;
    if warnings != [] {
      var rest, w := warnings[..|warnings| - 1], warnings[|warnings| - 1];
      Relocatable(root, rest);
      assert AbsAll(root, warnings)[..|rest|] == AbsAll(root, rest);
      StoredNameRoundTrip(root, w.start);
      StoredNameRoundTrip(root, w.end);
      assert rest + [w] == warnings;
    }
  }

  lemma {:induction false} StoredNameRoundTrip(root: seq<string>, name: StoredName)
    requires IsClean(root) && StoredClean(name)
    ensures RelName(root, AbsName(root, name)) == Some(name)
  {
    hide RelParts, Clean, IsLocal;
    if name.Local? {
      var path := root + name.parts;
      assert IsClean(path);
      CleanIffFixed(path);
      CleanIffFixed(root);
      LocalIffBelow(root, path);
      assert path[|root|..] == name.parts && path[..|root|] == root;
    }
  }
}

/** gen/watch_dirty.go: the uncommitted source state of a watch loop. */
module WatchDirty {
  import opened Bytes
  import opened Options

  type Path = seq<byte>

  /** cycleResult: what one cycle did in one directory. D are diagnostics, E errors. */
  datatype Result<D, E> = Result(dir: Path, written: seq<Path>, removed: seq<Path>, ok: bool, diags: seq<D>, err: Option<E>)

  /** Files written and removed in a directory. */
  datatype Effects = Effects(written: set<Path>, removed: set<Path>) {
    function Plus(other: Effects): Effects { Effects(written + other.written, removed + other.removed) }
  }

  const NOTHING := Effects({}, {})

  function EffectsOf<D, E>(r: Result<D, E>): Effects {
    Effects(set p | p in r.written, set p | p in r.removed)
  }

  /** All effects that the results have in dir. */
  function EffectsIn<D, E>(results: seq<Result<D, E>>, dir: Path): Effects {
    if results == [] then NOTHING
    else
      var last := results[|results| - 1];
      var before := EffectsIn(results[..|results| - 1], dir);
      if last.dir == dir then before.Plus(EffectsOf(last)) else before
  }

  /** cycleOperationalError */
  predicate Failed<D, E>(results: seq<Result<D, E>>) {
    exists k :: 0 <= k < |results| && results[k].err.Some?
  }

  lemma {:induction false} SomeEffects<D, E>(r: Result<D, E>)
    ensures EffectsOf(r) == NOTHING <==> |r.written| == 0 && |r.removed| == 0
  {
    assert r.written != [] ==> r.written[0] in EffectsOf(r).written;
    assert r.removed != [] ==> r.removed[0] in EffectsOf(r).removed;
  }

  lemma {:induction false} EffectsAppend<D, E>(results: seq<Result<D, E>>, r: Result<D, E>, dir: Path)
    ensures EffectsIn(results + [r], dir)
      == if r.dir == dir then EffectsIn(results, dir).Plus(EffectsOf(r)) else EffectsIn(results, dir)
  {
    assert (results + [r])[..|results|] == results;
  }

  lemma {:induction false} EffectsConcat<D, E>(x: seq<Result<D, E>>, y: seq<Result<D, E>>, dir: Path)
    ensures EffectsIn(x + y, dir) == EffectsIn(x, dir).Plus(EffectsIn(y, dir))
  {
    hide EffectsOf, EffectsIn, Effects.Plus;
    if y == [] {
      assert x + y == x;
      NoRowNoEffects(y, dir);
      PlusNothing(EffectsIn(x, dir));
    } else {
      var z := y[..|y| - 1];
      EffectsConcat(x, z, dir);
      EffectsAppend(x + z, y[|z|], dir);
      EffectsAppend(z, y[|z|], dir);
      assert x + y == x + z + [y[|z|]] && y == z + [y[|z|]];
      PlusAssociative(EffectsIn(x, dir), EffectsIn(z, dir), EffectsOf(y[|z|]));
    }
  }

  lemma {:induction false} PlusAssociative(x: Effects, y: Effects, z: Effects)
    ensures x.Plus(y).Plus(z) == x.Plus(y.Plus(z))
  {}

  lemma {:induction false} PlusCommutes(x: Effects, y: Effects)
    ensures x.Plus(y) == y.Plus(x)
  {}

  lemma {:induction false} PlusSomething(x: Effects, y: Effects)
    requires y != NOTHING
    ensures x.Plus(y) != NOTHING
  {
    assert y.written != {} || y.removed != {};
  }

  lemma {:induction false} PlusNothing(x: Effects)
    ensures x.Plus(NOTHING) == x == NOTHING.Plus(x)
  {}

  /** Adding effects to one row adds them to its directory. */
  lemma {:induction false} EffectsUpdate<D, E>(results: seq<Result<D, E>>, i: nat, r: Result<D, E>, more: Effects, dir: Path)
    requires i < |results| && r.dir == results[i].dir && EffectsOf(r) == EffectsOf(results[i]).Plus(more)
    ensures EffectsIn(results[i := r], dir)
      == if r.dir == dir then EffectsIn(results, dir).Plus(more) else EffectsIn(results, dir)
  {
    hide EffectsOf, EffectsIn, Effects.Plus;
    var x, y := results[..i], results[i + 1..];
    assert results == x + [results[i]] + y && results[i := r] == x + [r] + y;
    EffectsConcat(x + [results[i]], y, dir);
    EffectsConcat(x + [r], y, dir);
    EffectsAppend(x, results[i], dir);
    EffectsAppend(x, r, dir);
    var a, b, c := EffectsIn(x, dir), EffectsOf(results[i]), EffectsIn(y, dir);
    PlusSwap(a, b, more, c);
  }

  lemma {:induction false} PlusSwap(a: Effects, b: Effects, more: Effects, c: Effects)
    ensures a.Plus(b.Plus(more)).Plus(c) == a.Plus(b).Plus(c).Plus(more)
  {}

  /** A directory without a row has no effects. */
  lemma {:induction false} NoRowNoEffects<D, E>(results: seq<Result<D, E>>, dir: Path)
    requires forall k :: 0 <= k < |results| ==> results[k].dir != dir
    ensures EffectsIn(results, dir) == NOTHING
  {
    if results != [] {
      NoRowNoEffects(results[..|results| - 1], dir);
    }
  }

  /** appendSet */
  method AppendSet(paths: seq<Path>, retained: set<Path>) returns (out: seq<Path>)
    ensures Sorted(out) && Distinct(out)
    ensures forall p :: p in out <==> p in paths || p in retained
  {
    var paths_: map<Path, bool> := map[];
    for k := 0 to |paths|
      invariant forall p :: p in paths_ <==> p in paths[..k]
    {
      paths_ := paths_[paths[k] := true];
    }
    assert paths[..|paths|] == paths;
    var all := paths_ + (map p | p in retained :: true);
    out := SortedKeys(all);
  }

  /** publishableStartupResults */
  method PublishableStartupResults<D, E>(results: seq<Result<D, E>>) returns (published: seq<Result<D, E>>)
    ensures !Failed(results) ==> published == results
    ensures Failed(results) ==> published == Reports(results)
  {
    var failed := OperationalError(results);
    if !failed {
      return results;
    }
    published := [];
    for k := 0 to |results|
      invariant published == Reports(results[..k])
    {
      assert results[..k + 1][..k] == results[..k];
      var r := results[k];
      if r.err.None? && r.ok && |r.diags| == 0 {
        continue;
      }
      published := published + [r.(written := [], removed := [])];
    }
    assert results[..|results|] == results;
  }

  method OperationalError<D, E>(results: seq<Result<D, E>>) returns (failed: bool)
    ensures failed == Failed(results)
    ensures failed <==> exists r :: r in results && r.err.Some?
  {
    for k := 0 to |results|
      invariant forall j :: 0 <= j < k ==> results[j].err.None?
    {
      if results[k].err.Some? {
        return true;
      }
    }
    return false;
  }

  /** The rows of a failed startup that say something, without their effects. */
  function Reports<D, E>(results: seq<Result<D, E>>): seq<Result<D, E>> {
    if results == [] then []
    else
      var r := results[|results| - 1];
      Reports(results[..|results| - 1])
      + (if r.err.None? && r.ok && |r.diags| == 0 then [] else [r.(written := [], removed := [])])
  }

  /** A failed startup publishes no effect. */
  lemma {:induction false} ReportsHideEffects<D, E>(results: seq<Result<D, E>>, dir: Path)
    ensures EffectsIn(Reports(results), dir) == NOTHING
  {
    if results != [] {
      var rest, r := results[..|results| - 1], results[|results| - 1];
      ReportsHideEffects(rest, dir);
      EffectsAppend(Reports(rest), r.(written := [], removed := []), dir);
      assert EffectsOf(r.(written := [], removed := [])) == NOTHING;
      PlusNothing(NOTHING);
      assert Reports(rest) + [] == Reports(rest);
    }
  }

  /** A failed startup publishes every row with an error, a diagnostic or a failed file, without its effects. */
  lemma {:induction false} ReportsAreComplete<D, E>(results: seq<Result<D, E>>, k: nat)
    requires k < |results| && (results[k].err.Some? || !results[k].ok || results[k].diags != [])
    ensures results[k].(written := [], removed := []) in Reports(results)
  {
    if k < |results| - 1 {
      ReportsAreComplete(results[..|results| - 1], k);
    }
  }

  // ----- committing -----

  predicate NoRow<D, E>(results: seq<Result<D, E>>, dir: Path) {
    forall k :: 0 <= k < |results| ==> results[k].dir != dir
  }

  /** A row that says nothing but effects. */
  predicate Plain<D, E>(r: Result<D, E>) { r.ok && |r.diags| == 0 && r.err.None? }

  function KeptIn(kept: map<Path, Effects>, done: set<Path>, dir: Path): Effects {
    if dir in done && dir in kept then kept[dir] else NOTHING
  }

  /** The rows of out are those of results but for their effects, and plain rows of directories
      in done that had none. */
  ghost predicate SameRows<D, E>(out: seq<Result<D, E>>, results: seq<Result<D, E>>, done: set<Path>) {
    && |results| <= |out|
    && (forall k :: 0 <= k < |results| ==> out[k] == results[k].(written := out[k].written, removed := out[k].removed))
    && (forall k :: |results| <= k < |out| ==> Plain(out[k]) && out[k].dir in done && NoRow(results, out[k].dir))
  }

  /** The effects of out are those of results and, for the directories in done, those kept. */
  ghost predicate AddsKept<D, E>(out: seq<Result<D, E>>, results: seq<Result<D, E>>, done: set<Path>, kept: map<Path, Effects>) {
    forall d :: EffectsIn(out, d) == EffectsIn(results, d).Plus(KeptIn(kept, done, d))
  }

  lemma {:induction false} AddsKeptStep<D, E>(was: seq<Result<D, E>>, i: nat, r: Result<D, E>,
      results: seq<Result<D, E>>, done: set<Path>, kept: map<Path, Effects>)
    requires AddsKept(was, results, done, kept)
    requires i < |was| && r.dir == was[i].dir && r.dir in kept && r.dir !in done
    requires EffectsOf(r) == EffectsOf(was[i]).Plus(kept[r.dir])
    ensures AddsKept(was[i := r], results, done + {r.dir}, kept)
  {
    hide EffectsIn, EffectsOf, Effects.Plus;
    forall d
      ensures EffectsIn(was[i := r], d) == EffectsIn(results, d).Plus(KeptIn(kept, done + {r.dir}, d))
    {
      EffectsUpdate(was, i, r, kept[r.dir], d);
      if d == r.dir {
        PlusNothing(EffectsIn(results, d));
      }
    }
  }

  /** An empty row adds nothing. */
  lemma {:induction false} EmptyRow<D, E>(was: seq<Result<D, E>>, r: Result<D, E>, d: Path)
    requires r.written == [] && r.removed == []
    ensures EffectsIn(was + [r], d) == EffectsIn(was, d)
  {
    EffectsAppend(was, r, d);
    assert EffectsOf(r) == NOTHING;
    PlusNothing(EffectsIn(was, d));
  }

  // ----- the dirty set -----

  class WatchEffects {
    var written: set<Path>
    var removed: set<Path>

    constructor ()
      ensures written == {} && removed == {}
    {
      written, removed := {}, {};
    }
  }

  /** What a regeneration returned: its results, and a fatal error if there was one. */
  datatype Outcome<D, E> = Outcome(results: seq<Result<D, E>>, fatal: bool)

  class DirtySet<D, E> {
    var dirs: set<Path>
    var goDirs: set<Path>
    var depDirty: bool
    var goDirty: bool
    var effects: map<Path, WatchEffects>
    /** Every result of every attempt since the last commit. */
    ghost var attempts: seq<Result<D, E>>

    /** The effects retained for a directory. */
    ghost function Retained(dir: Path): Effects
      reads this, effects.Values
    {
      if dir in effects then Effects(effects[dir].written, effects[dir].removed) else NOTHING
    }

    /** The entries are objects of their own. */
    ghost predicate Separate()
      reads this
    {
      forall d, e :: d in effects && e in effects && d != e ==> effects[d] != effects[e]
    }

    ghost predicate Valid()
      reads this, effects.Values
    {
      && Separate()
      && (forall d :: d in effects ==> Retained(d) != NOTHING)
      && (forall d :: Retained(d) == EffectsIn(attempts, d))
    }

    constructor ()
      ensures Valid() && attempts == [] && effects == map[]
      ensures dirs == {} && goDirs == {} && !depDirty && !goDirty
    {
      dirs, goDirs, depDirty, goDirty, effects, attempts := {}, {}, false, false, map[], [];
    }

    /** retainEffects: writes into the entry of the directory. */
    method RetainEffects(r: Result<D, E>)
      requires Valid()
      modifies this`effects, this`attempts, effects.Values
      ensures Valid() && attempts == old(attempts) + [r]
      ensures fresh(effects.Values - old(effects.Values))
    {
      hide EffectsIn, EffectsOf, Effects.Plus;
      attempts := attempts + [r];
      forall d
        ensures EffectsIn(attempts, d) == if r.dir == d then EffectsIn(old(attempts), d).Plus(EffectsOf(r)) else EffectsIn(old(attempts), d)
      {
        EffectsAppend(old(attempts), r, d);
      }
      if |r.written| == 0 && |r.removed| == 0 {
        SomeEffects(r);
        PlusNothing(EffectsIn(old(attempts), r.dir));
        return;
      }
      var entry: WatchEffects;
      if r.dir in effects {
        entry := effects[r.dir];
      } else {
        entry := new WatchEffects();
        effects := effects[r.dir := entry];
      }
      AddPaths(entry, r);
      SomeEffects(r);
      assert Separate();
      assert Retained(r.dir) == old(Retained(r.dir)).Plus(EffectsOf(r));
      PlusSomething(old(Retained(r.dir)), EffectsOf(r));
      hide Separate;
      forall d | d != r.dir
        ensures Retained(d) == old(Retained(d))
      {}
    }

    /** The two loops of retainEffects. */
    method AddPaths(entry: WatchEffects, r: Result<D, E>)
      modifies entry
      ensures Effects(entry.written, entry.removed) == Effects(old(entry.written), old(entry.removed)).Plus(EffectsOf(r))
    {
      for k := 0 to |r.written|
        invariant entry.removed == old(entry.removed)
        invariant entry.written == old(entry.written) + set p | p in r.written[..k]
      {
        assert r.written[..k + 1] == r.written[..k] + [r.written[k]];
        entry.written := entry.written + {r.written[k]};
      }
      assert r.written[..|r.written|] == r.written;
      for k := 0 to |r.removed|
        invariant entry.written == old(entry.written) + set p | p in r.written
        invariant entry.removed == old(entry.removed) + set p | p in r.removed[..k]
      {
        assert r.removed[..k + 1] == r.removed[..k] + [r.removed[k]];
        entry.removed := entry.removed + {r.removed[k]};
      }
      assert r.removed[..|r.removed|] == r.removed;
    }

    method RetainAll(results: seq<Result<D, E>>)
      requires Valid()
      modifies this`effects, this`attempts, effects.Values
      ensures Valid() && attempts == old(attempts) + results
      ensures fresh(effects.Values - old(effects.Values))
    {
      for k := 0 to |results|
        invariant Valid() && attempts == old(attempts) + results[..k]
        invariant fresh(effects.Values - old(effects.Values))
      {
        RetainEffects(results[k]);
      }
      assert results[..|results|] == results;
    }

    /** Everything that the next cycle must not lose. */
    ghost predicate NoLess(dirs0: set<Path>, goDirs0: set<Path>, depDirty0: bool, goDirty0: bool)
      reads this
    {
      dirs0 <= dirs && goDirs0 == goDirs && (depDirty0 ==> depDirty) && goDirty0 == goDirty
    }

    /** Every failed row is tried again: with its directory, or with everything. */
    ghost predicate Retries(results: seq<Result<D, E>>)
      reads this
    {
      forall k :: 0 <= k < |results| && results[k].err.Some? ==>
        if results[k].dir == [] then depDirty else results[k].dir in dirs + goDirs
    }

    /** retainOperational */
    method RetainOperational(results: seq<Result<D, E>>)
      requires Valid()
      modifies this, effects.Values
      ensures Valid() && fresh(effects.Values - old(effects.Values))
      ensures attempts == if Failed(results) then old(attempts) + results else old(attempts)
      ensures Failed(results) ==> NoLess(old(dirs), old(goDirs), old(depDirty), old(goDirty)) && Retries(results)
      ensures !Failed(results) ==> unchanged(this) && forall w :: w in effects.Values ==> unchanged(w)
    {
      var failed := false;
      for k := 0 to |results|
        modifies this`dirs, this`depDirty
        invariant failed == Failed(results[..k])
        invariant NoLess(old(dirs), old(goDirs), old(depDirty), old(goDirty)) && Retries(results[..k])
        invariant !failed ==> dirs == old(dirs) && depDirty == old(depDirty)
      {
        var r := results[k];
        assert results[..k + 1] == results[..k] + [r];
        if r.err.None? {
          assert Failed(results[..k + 1]) ==> Failed(results[..k]);
          continue;
        }
        assert results[..k + 1][k].err.Some?;
        failed := true;
        if r.dir == [] {
          depDirty := true;
        } else if r.dir in goDirs {
        } else {
          dirs := dirs + {r.dir};
        }
      }
      assert results[..|results|] == results;
      if failed {
        RetainAll(results);
      }
    }

    /** absorbWarmup: a result with effects is retained; its directory, and a directory that failed,
        go into the next cycle. */
    method AbsorbWarmup(results: seq<Result<D, E>>) returns (wrote: bool)
      requires Valid()
      modifies this, effects.Values
      ensures Valid() && fresh(effects.Values - old(effects.Values))
      ensures forall d :: EffectsIn(attempts, d) == EffectsIn(old(attempts) + results, d)
      ensures wrote == exists k :: 0 <= k < |results| && (results[k].written != [] || results[k].removed != [])
      ensures NoLess(old(dirs), old(goDirs), old(depDirty), old(goDirty))
      ensures forall k :: 0 <= k < |results| && (results[k].written != [] || results[k].removed != [] || results[k].err.Some?) ==> results[k].dir in dirs
    {
      hide EffectsIn;
      wrote := false;
      assert old(attempts) + results[..0] == old(attempts);
      for k := 0 to |results|
        invariant Valid() && fresh(effects.Values - old(effects.Values))
        invariant forall d :: EffectsIn(attempts, d) == EffectsIn(old(attempts) + results[..k], d)
        invariant wrote == exists j :: 0 <= j < k && (results[j].written != [] || results[j].removed != [])
        invariant NoLess(old(dirs), old(goDirs), old(depDirty), old(goDirty))
        invariant forall j :: 0 <= j < k && (results[j].written != [] || results[j].removed != [] || results[j].err.Some?) ==> results[j].dir in dirs
      {
        var r := results[k];
        AbsorbStep(attempts, old(attempts) + results[..k], r);
        assert old(attempts) + results[..k + 1] == old(attempts) + results[..k] + [r];
        if |r.written| > 0 || |r.removed| > 0 {
          wrote := true;
          dirs := dirs + {r.dir};
          RetainEffects(r);
        } else if r.err.Some? {
          dirs := dirs + {r.dir};
        }
      }
      assert results[..|results|] == results;
    }

    /** One more result counts the same on two lists of the same effects, and counts nothing without any. */
    lemma {:induction false} AbsorbStep(x: seq<Result<D, E>>, y: seq<Result<D, E>>, r: Result<D, E>)
      requires forall d :: EffectsIn(x, d) == EffectsIn(y, d)
      ensures forall d :: EffectsIn(x + [r], d) == EffectsIn(y + [r], d)
      ensures r.written == [] && r.removed == [] ==> forall d :: EffectsIn(x, d) == EffectsIn(y + [r], d)
    {
      hide EffectsIn;
      forall d
        ensures EffectsIn(x + [r], d) == EffectsIn(y + [r], d)
        ensures r.written == [] && r.removed == [] ==> EffectsIn(x, d) == EffectsIn(y + [r], d)
      {
        EffectsAppend(x, r, d);
        EffectsAppend(y, r, d);
        if r.written == [] && r.removed == [] {
          assert EffectsOf(r) == NOTHING;
          PlusNothing(EffectsIn(y, d));
        }
      }
    }

    /** The retained effects of every directory, as a value. */
    ghost function Kept(): map<Path, Effects>
      reads this, effects.Values
    {
      map d | d in effects :: Retained(d)
    }

    /** commitEffects: adds the retained effects to the rows of their directories and forgets them. */
    method CommitEffects(results: seq<Result<D, E>>) returns (out: seq<Result<D, E>>)
      requires Valid()
      modifies this`effects, this`attempts
      ensures Valid() && attempts == [] && effects == map[]
      ensures SameRows(out, results, old(effects.Keys))
      ensures AddsKept(out, results, old(effects.Keys), old(Kept()))
    {
      hide EffectsIn, Effects.Plus, Less;
      ghost var kept := Kept();
      CommitNothing(results, kept);
      if |effects| == 0 {
        attempts := [];
        EmptyIsValid();
        return results;
      }
      var byDir := RowOf(results);
      var names := SortedKeys(effects);
      out := results;
      assert Seen(names[..0]) == {};
      for k := 0 to |names|
        modifies {}
        invariant SameRows(out, results, Seen(names[..k]))
        invariant AddsKept(out, results, Seen(names[..k]), kept)
      {
        out := CommitOne(out, results, byDir, names, k, kept);
      }
      assert names[..|names|] == names;
      assert Seen(names) == effects.Keys;
      effects := map[];
      attempts := [];
      EmptyIsValid();
    }

    lemma {:induction false} EmptyIsValid()
      requires effects == map[] && attempts == []
      ensures Valid()
    {}

    lemma {:induction false} CommitNothing(results: seq<Result<D, E>>, kept: map<Path, Effects>)
      ensures AddsKept(results, results, {}, kept)
    {
      hide EffectsIn;
      forall d
        ensures EffectsIn(results, d).Plus(KeptIn(kept, {}, d)) == EffectsIn(results, d)
      {
        PlusNothing(EffectsIn(results, d));
      }
    }

    static function Seen(names: seq<Path>): set<Path> { set n | n in names }

    /** byDir */
    static method RowOf(results: seq<Result<D, E>>) returns (byDir: map<Path, nat>)
      ensures forall d :: d in byDir <==> !NoRow(results, d)
      ensures forall d :: d in byDir ==> byDir[d] < |results| && results[byDir[d]].dir == d
    {
      byDir := map[];
      for i := 0 to |results|
        invariant forall d :: d in byDir <==> !NoRow(results[..i], d)
        invariant forall d :: d in byDir ==> byDir[d] < i && results[byDir[d]].dir == d
      {
        assert results[..i + 1][i] == results[i] && results[..i + 1][..i] == results[..i];
        byDir := byDir[results[i].dir := i];
      }
      assert results[..|results|] == results;
    }

    /** One turn of the loop of commitEffects. */
    method CommitOne(was: seq<Result<D, E>>, results: seq<Result<D, E>>, byDir: map<Path, nat>, names: seq<Path>, k: nat,
        ghost kept: map<Path, Effects>)
      returns (out: seq<Result<D, E>>)
      requires k < |names| && names[k] in effects && Distinct(names) && kept == Kept()
      requires SameRows(was, results, Seen(names[..k])) && AddsKept(was, results, Seen(names[..k]), kept)
      requires forall d :: d in byDir <==> !NoRow(results, d)
      requires forall d :: d in byDir ==> byDir[d] < |results| && results[byDir[d]].dir == d
      ensures SameRows(out, results, Seen(names[..k + 1]))
      ensures AddsKept(out, results, Seen(names[..k + 1]), kept)
    {
      hide EffectsIn, Effects.Plus, Less, Sorted;
      var dir := names[k];
      var i;
      out := was;
      if dir in byDir {
        i := byDir[dir];
      } else {
        out := out + [Result(dir, [], [], true, [], None)];
        i := |out| - 1;
        forall d
          ensures EffectsIn(out, d) == EffectsIn(was, d)
        {
          EmptyRow(was, out[i], d);
        }
      }
      var before := out[i];
      var w := AppendSet(before.written, effects[dir].written);
      var r := AppendSet(before.removed, effects[dir].removed);
      var row := out[i].(written := w, removed := r);
      RowGains(before, row, kept[dir]);
      assert Seen(names[..k + 1]) == Seen(names[..k]) + {dir};
      assert dir !in Seen(names[..k]);
      AddsKeptStep(out, i, row, results, Seen(names[..k]), kept);
      out := out[i := row];
    }

    static lemma {:induction false} RowGains(before: Result<D, E>, row: Result<D, E>, more: Effects)
      requires forall p :: p in row.written <==> p in before.written || p in more.written
      requires forall p :: p in row.removed <==> p in before.removed || p in more.removed
      ensures EffectsOf(row) == EffectsOf(before).Plus(more)
    {}

    /** Adding what was kept is adding what the attempts did. */
    static lemma {:induction false} CommittedEffects(out: seq<Result<D, E>>, results: seq<Result<D, E>>, attempts: seq<Result<D, E>>,
        done: set<Path>, kept: map<Path, Effects>)
      requires AddsKept(out, results, done, kept) && done == kept.Keys
      requires forall d :: EffectsIn(attempts, d) == if d in kept then kept[d] else NOTHING
      ensures forall d :: EffectsIn(out, d) == EffectsIn(attempts + results, d)
    {
      hide EffectsIn, Effects.Plus;
      forall d
        ensures EffectsIn(out, d) == EffectsIn(attempts + results, d)
      {
        EffectsConcat(attempts, results, d);
        PlusCommutes(EffectsIn(attempts, d), EffectsIn(results, d));
        assert KeptIn(kept, done, d) == EffectsIn(attempts, d);
      }
    }

    /** regenerate: one attempt. What a failed attempt did stays in the set; what a complete one
        returns has the effects of all attempts since the last commit. */
    method Regenerate(regen: (set<Path>, set<Path>, bool) -> Outcome<D, E>)
      returns (published: seq<Result<D, E>>, rebuild: bool, err: bool)
      requires Valid()
      modifies this, effects.Values
      ensures Valid() && fresh(effects.Values - old(effects.Values))
      ensures rebuild == (old(depDirty) || old(goDirty))
      ensures var o := regen(old(dirs), old(goDirs), old(depDirty));
        && err == (o.fatal || Failed(o.results))
        && (err ==>
              && published == [] && attempts == old(attempts) + o.results
              && NoLess(old(dirs), old(goDirs), old(depDirty), old(goDirty))
              && (!o.fatal ==> Retries(o.results)))
        && (!err ==>
              && dirs == {} && goDirs == {} && !depDirty && !goDirty && effects == map[] && attempts == []
              && SameRows(published, o.results, old(effects.Keys))
              && forall d :: EffectsIn(published, d) == EffectsIn(old(attempts) + o.results, d))
    {
      var dirs0, goDirs0, depDirty0 := dirs, goDirs, depDirty;
      rebuild := depDirty0 || goDirty;
      var o := regen(dirs0, goDirs0, depDirty0);
      if o.fatal {
        RetainAll(o.results);
        return [], rebuild, true;
      }
      var failed := OperationalError(o.results);
      if failed {
        RetainOperational(o.results);
        return [], rebuild, true;
      }
      published := CommitEffects(o.results);
      CommittedEffects(published, o.results, old(attempts), old(effects.Keys), old(Kept()));
      dirs := {};
      goDirs := {};
      depDirty := false;
      goDirty := false;
      err := false;
    }

    /** sourceTracker.classifyDirtyFile: an edit adds to the set, and takes nothing out. */
    method ClassifyDirtyFile(dir: Path, edit: Edit)
      requires Valid()
      modifies this`dirs, this`goDirs, this`depDirty, this`goDirty
      ensures Valid()
      ensures old(dirs) <= dirs && old(goDirs) <= goDirs && (old(depDirty) ==> depDirty) && (old(goDirty) ==> goDirty)
      ensures dir in dirs + goDirs
      ensures edit == GoFile(false) || (edit.GoFile? && old(depDirty)) ==> dir in goDirs && goDirty && dirs == old(dirs)
      ensures edit == DepFile || edit == GoFile(true) ==> depDirty
    {
      match edit
      case DepFile =>
        depDirty := true;
        dirs := dirs + {dir};
      case GoFile(needsReopen) =>
        if !depDirty && needsReopen {
          depDirty := true;
          dirs := dirs + {dir};
          return;
        }
        goDirty := true;
        goDirs := goDirs + {dir};
      case Other =>
        dirs := dirs + {dir};
    }

    /** Startup: what a failed startup did is retained and not published, what a complete one did
        is published and not retained. */
    method Startup(startup: seq<Result<D, E>>) returns (published: seq<Result<D, E>>)
      requires Valid() && attempts == [] && effects == map[]
      modifies this, effects.Values
      ensures Valid()
      ensures forall d :: Retained(d) == if Failed(startup) then EffectsIn(startup, d) else NOTHING
      ensures StartupPublished(published, startup)
    {
      hide EffectsIn, StartupPublished, Failed, Reports;
      assert [] + startup == startup;
      NoRowNoEffectsAnywhere();
      RetainOperational(startup);
      published := PublishableStartupResults(startup);
      StartupPublishes(startup, published);
    }

    /** What a startup publishes: every effect, or after a failure none, and everything said. */
    static ghost predicate StartupPublished(published: seq<Result<D, E>>, startup: seq<Result<D, E>>) {
      && (forall d :: EffectsIn(published, d) == if Failed(startup) then NOTHING else EffectsIn(startup, d))
      && (forall k :: 0 <= k < |startup| && !Plain(startup[k]) ==> Repeats(published, startup[k]))
    }

    static ghost predicate Repeats(published: seq<Result<D, E>>, said: Result<D, E>) {
      exists r :: r in published && r == said.(written := r.written, removed := r.removed)
    }

    static lemma {:induction false} StartupPublishes(startup: seq<Result<D, E>>, published: seq<Result<D, E>>)
      requires published == if Failed(startup) then Reports(startup) else startup
      ensures StartupPublished(published, startup)
    {
      hide EffectsIn, Failed, Reports;
      if Failed(startup) {
        forall d
          ensures EffectsIn(Reports(startup), d) == NOTHING
        {
          ReportsHideEffects(startup, d);
        }
      }
      forall k | 0 <= k < |startup| && !Plain(startup[k])
        ensures Repeats(published, startup[k])
      {
        ReportsAreComplete(startup, k);
        var r := if Failed(startup) then startup[k].(written := [], removed := []) else startup[k];
        assert r in published;
      }
    }

    static lemma {:induction false} NoRowNoEffectsAnywhere()
      ensures forall d :: EffectsIn<D, E>([], d) == NOTHING
    {}
  }

  /** What happens between two attempts, and the answer of the next one. */
  datatype Turn<!D, !E> = Turn(edits: seq<(Path, Edit)>, regen: (set<Path>, set<Path>, bool) -> Outcome<D, E>)

  /** A source file that changed; needsReopen is the answer of the session's probe for its directory. */
  datatype Edit = DepFile | GoFile(needsReopen: bool) | Other

  /** Once a rebuild was asked for, it is asked for until the commit. */
  ghost predicate Latched(rebuilds: seq<bool>) {
    forall i, j :: 0 <= i < j < |rebuilds| && rebuilds[i] ==> rebuilds[j]
  }

  /** The results of the first n attempts, in order; attempt k was asked for inputs[k]. */
  ghost function AllResults<D, E>(turns: seq<Turn<D, E>>, inputs: seq<(set<Path>, set<Path>, bool)>, n: nat): seq<Result<D, E>>
    requires n <= |inputs| <= |turns|
  {
    if n == 0 then []
    else
      var i := inputs[n - 1];
      AllResults(turns, inputs, n - 1) + turns[n - 1].regen(i.0, i.1, i.2).results
  }

  /** The inputs of the attempts only grow. */
  ghost predicate Growing(inputs: seq<(set<Path>, set<Path>, bool)>) {
    forall i, j :: 0 <= i < j < |inputs| ==>
      inputs[i].0 <= inputs[j].0 && inputs[i].1 <= inputs[j].1 && (inputs[i].2 ==> inputs[j].2)
  }

  ghost predicate SameEffects<D, E>(x: seq<Result<D, E>>, y: seq<Result<D, E>>) {
    forall d :: EffectsIn(x, d) == EffectsIn(y, d)
  }

  /** A run of the loop up to its first commit, with edits arriving between the attempts. The inputs
      never shrink, the rebuild flag stays, failed attempts publish nothing, and the commit publishes,
      per directory, exactly what was retained before and what every attempt did. */
  method UntilCommitted<D, E>(set_: DirtySet<D, E>, turns: seq<Turn<D, E>>)
    returns (published: seq<Result<D, E>>, committed: bool, rebuilds: seq<bool>, ghost inputs: seq<(set<Path>, set<Path>, bool)>)
    requires set_.Valid()
    modifies set_, set_.effects.Values
    ensures set_.Valid() && |rebuilds| == |inputs| <= |turns|
    ensures Growing(inputs) && Latched(rebuilds)
    ensures forall i :: 0 <= i < |inputs| && inputs[i].2 ==> rebuilds[i]
    ensures !committed ==> |inputs| == |turns| && published == []
    ensures var all := old(set_.attempts) + AllResults(turns, inputs, |inputs|);
      if committed then SameEffects(published, all) else set_.attempts == all
  {
    hide EffectsIn, AllResults, Failed, SameRows, DirtySet.Retries, DirtySet.Valid;
    NoAttempts(turns);
    published, committed, rebuilds, inputs := [], false, [], [];
    for k := 0 to |turns|
      invariant set_.Valid() && fresh(set_.effects.Values - old(set_.effects.Values))
      invariant |rebuilds| == |inputs| == k && published == [] && !committed
      invariant Growing(inputs) && Latched(rebuilds)
      invariant forall i :: 0 <= i < k ==> inputs[i].0 <= set_.dirs && inputs[i].1 <= set_.goDirs && (inputs[i].2 ==> set_.depDirty)
      invariant forall i :: 0 <= i < k ==> (inputs[i].2 ==> rebuilds[i]) && (rebuilds[i] ==> set_.depDirty || set_.goDirty)
      invariant set_.attempts == old(set_.attempts) + AllResults(turns, inputs, k)
    {
      ClassifyAll(set_, turns[k].edits);
      var rebuild, err;
      var input := (set_.dirs, set_.goDirs, set_.depDirty);
      AllResultsStep(turns, inputs, input);
      inputs := inputs + [input];
      published, rebuild, err := set_.Regenerate(turns[k].regen);
      rebuilds := rebuilds + [rebuild];
      assert old(set_.attempts) + AllResults(turns, inputs, k) + turns[k].regen(input.0, input.1, input.2).results
          == old(set_.attempts) + AllResults(turns, inputs, k + 1);
      if !err {
        committed := true;
        return;
      }
    }
  }

  lemma {:induction false} AllResultsStep<D, E>(turns: seq<Turn<D, E>>, inputs: seq<(set<Path>, set<Path>, bool)>, input: (set<Path>, set<Path>, bool))
    requires |inputs| < |turns|
    ensures AllResults(turns, inputs + [input], |inputs|) == AllResults(turns, inputs, |inputs|)
    ensures AllResults(turns, inputs + [input], |inputs| + 1)
      == AllResults(turns, inputs, |inputs|) + turns[|inputs|].regen(input.0, input.1, input.2).results
  {
    AllResultsPrefix(turns, inputs, input, |inputs|);
  }

  lemma {:induction false} AllResultsPrefix<D, E>(turns: seq<Turn<D, E>>, inputs: seq<(set<Path>, set<Path>, bool)>, input: (set<Path>, set<Path>, bool), n: nat)
    requires n <= |inputs| < |turns|
    ensures AllResults(turns, inputs + [input], n) == AllResults(turns, inputs, n)
  {
    if n > 0 {
      AllResultsPrefix(turns, inputs, input, n - 1);
    }
  }

  lemma {:induction false} NoAttempts<D, E>(turns: seq<Turn<D, E>>)
    ensures AllResults(turns, [], 0) == []
  {}

  method ClassifyAll<D, E>(set_: DirtySet<D, E>, edits: seq<(Path, Edit)>)
    requires set_.Valid()
    modifies set_`dirs, set_`goDirs, set_`depDirty, set_`goDirty
    ensures set_.Valid()
    ensures old(set_.dirs) <= set_.dirs && old(set_.goDirs) <= set_.goDirs
    ensures (old(set_.depDirty) ==> set_.depDirty) && (old(set_.goDirty) ==> set_.goDirty)
  {
    for k := 0 to |edits|
      invariant set_.Valid()
      invariant old(set_.dirs) <= set_.dirs && old(set_.goDirs) <= set_.goDirs
      invariant (old(set_.depDirty) ==> set_.depDirty) && (old(set_.goDirty) ==> set_.goDirty)
    {
      set_.ClassifyDirtyFile(edits[k].0, edits[k].1);
    }
  }
}

/** gen/lsp.go: which warm module holds the unsaved bytes of each open buffer. */
module LspModules {
  import opened Bytes
  import opened Options

  /** A cleaned absolute path. */
  type Path = seq<byte>

  /** codegen.Module, as far as its overrides go. */
  class Module {
    var overrides: map<Path, seq<byte>>

    /** codegen.Open */
    constructor ()
      ensures overrides == map[]
    {
      overrides := map[];
    }

    /** The bytes of a path that is not owned by the module are ignored. Whether it is owned is asked of the
        file system each time, so the answer for one path may change. */
    method SetOverride(path: Path, source: seq<byte>, owned: bool)
      modifies this
      ensures overrides == if owned then old(overrides)[path := source] else old(overrides)
    {
      if !owned {
        return;
      }
      overrides := overrides[path := source];
    }

    /** Ends the authority of a buffer, also when its saved state is unreadable and it reports that. */
    method ClearOverride(path: Path, unreadable: bool) returns (err: bool)
      modifies this
      ensures overrides == old(overrides) - {path}
      ensures err == (unreadable && path in old(overrides))
    {
      err := path in overrides && unreadable;
      overrides := overrides - {path};
    }
  }

  /** moduleOverride */
  datatype Owner = Owner(root: Path, holder: Module, source: seq<byte>, configPath: Path)

  /** What the world outside says of a buffer while a transition runs: its module root, if it has one;
      the module directive and the configuration there; whether a module can be opened; which files the
      module of the root is found to own just then; and which saved files are unreadable. */
  datatype World = World(
    root: Option<Path>, modPath: seq<byte>, configID: seq<byte>, configPath: Path,
    opens: bool, owns: Path -> bool, unreadable: Path -> bool)

  class ModuleSet {
    var byRoot: map<Path, Module>
    var modulePaths: map<Path, seq<byte>>
    var configIDs: map<Path, seq<byte>>
    var overrideRoots: map<Path, Owner>
    /** Every module that was ever opened, evicted ones included. */
    ghost var all: set<Module>

    /** The modules that the set speaks of were opened by it. */
    ghost predicate Known()
      reads this
    {
      && (forall r :: r in byRoot ==> byRoot[r] in all && r in modulePaths && r in configIDs)
      && (forall p :: p in overrideRoots ==> overrideRoots[p].holder in all)
    }

    /** Bytes of p are held by no module but the one that its record names. */
    ghost predicate PathOk(p: Path)
      reads this`overrideRoots, this`all, all
    {
      forall m :: m in all && p in m.overrides ==> p in overrideRoots && overrideRoots[p].holder == m
    }

    static ghost function HeldBy(m: Module, p: Path): Option<seq<byte>>
      reads m
    {
      if p in m.overrides then Some(m.overrides[p]) else None
    }

    /** The bytes that the module named by the record of p holds of p. */
    ghost function HeldBytes(p: Path): Option<seq<byte>>
      requires p in overrideRoots
      reads this`overrideRoots, overrideRoots[p].holder
    {
      HeldBy(overrideRoots[p].holder, p)
    }

    /** The same of every recorded path. */
    ghost function Held(): (held: map<Path, Option<seq<byte>>>)
      ensures held.Keys == overrideRoots.Keys
      reads this`overrideRoots, set p | p in overrideRoots :: overrideRoots[p].holder
    {
      map p | p in overrideRoots :: HeldBytes(p)
    }

    /** The bytes that are held of p are the recorded ones. */
    ghost predicate AsRecorded(p: Path)
      reads this`overrideRoots, if p in overrideRoots then {overrideRoots[p].holder} else {}
    {
      p in overrideRoots && HeldBytes(p) == Some(overrideRoots[p].source)
    }

    /** The same of every buffer. */
    ghost predicate AllAsRecorded()
      reads this`overrideRoots, set p | p in overrideRoots :: overrideRoots[p].holder
    {
      Matches(overrideRoots, Held())
    }

    static predicate Matches(records: map<Path, Owner>, held: map<Path, Option<seq<byte>>>) {
      records.Keys == held.Keys && forall p :: p in records ==> held[p] == Some(records[p].source)
    }

    /** The paths but for one in transition are as they should be. */
    ghost predicate ValidBut(busy: Option<Path>)
      reads this, all
    {
      Known() && forall p :: Some(p) != busy ==> PathOk(p)
    }

    ghost predicate Valid()
      reads this, all
    {
      ValidBut(None)
    }

    /** path has no record, and of all modules at most holder has its bytes. */
    ghost predicate Detached(path: Path, holder: Option<Module>)
      reads this, all
    {
      && path !in overrideRoots
      && forall m :: m in all && path in m.overrides ==> holder == Some(m)
    }

    /** newLSPAnalyzer */
    constructor ()
      ensures Valid() && overrideRoots == map[] && byRoot == map[] && all == {}
    {
      byRoot, modulePaths, configIDs, overrideRoots, all := map[], map[], map[], map[], {};
    }

    /** detachOverride: removes the record; its module keeps the bytes for now. */
    method DetachOverride(path: Path) returns (owner: Option<Owner>)
      requires Valid()
      modifies this`overrideRoots
      ensures ValidBut(Some(path)) && overrideRoots == old(overrideRoots) - {path}
      ensures owner == if path in old(overrideRoots) then Some(old(overrideRoots)[path]) else None
      ensures Detached(path, if owner.Some? then Some(owner.value.holder) else None)
      ensures owner.Some? ==> owner.value.holder in all
      ensures Held() == old(Held()) - {path}
    {
      assert PathOk(path);
      if path !in overrideRoots {
        assert overrideRoots - {path} == overrideRoots;
        return None;
      }
      owner := Some(overrideRoots[path]);
      overrideRoots := overrideRoots - {path};
      forall p | p != path
        ensures PathOk(p)
      {
        assert old(PathOk(p));
      }
    }

    /** A path without record and holder is as it should be. */
    lemma {:induction false} NobodyHolds(path: Path)
      requires ValidBut(Some(path)) && Detached(path, None)
      ensures Valid()
    {
      assert PathOk(path);
    }

    /** The holder of a detached path gives up the bytes. */
    method ClearAt(owner: Option<Owner>, path: Path, unreadable: bool) returns (err: bool)
      requires ValidBut(Some(path)) && (owner.Some? ==> owner.value.holder in all)
      requires Detached(path, if owner.Some? then Some(owner.value.holder) else None)
      modifies all
      ensures ValidBut(Some(path)) && Detached(path, None) && Held() == old(Held())
      ensures err == (owner.Some? && unreadable && old(HeldBy(owner.value.holder, path)).Some?)
    {
      if owner.None? {
        return false;
      }
      err := owner.value.holder.ClearOverride(path, unreadable);
      forall p | p != path
        ensures PathOk(p)
      {
        assert old(PathOk(p));
      }
    }

    /** clearOverride */
    method ClearOverride(path: Path, unreadable: bool) returns (err: bool)
      requires Valid()
      modifies this`overrideRoots, all
      ensures Valid() && overrideRoots == old(overrideRoots) - {path} && NowhereHeld(path)
      ensures Held() == old(Held()) - {path}
      ensures err == (path in old(overrideRoots) && unreadable && old(HeldBytes(path)).Some?)
    {
      var owner := DetachOverride(path);
      err := ClearAt(owner, path, unreadable);
      NobodyHolds(path);
    }

    /** What a module holds of a path after it was given source: the old bytes when it does not own it. */
    static function AfterSet(overrides: map<Path, seq<byte>>, path: Path, source: seq<byte>, owned: bool): Option<seq<byte>> {
      if owned then Some(source) else if path in overrides then Some(overrides[path]) else None
    }

    /** A module is given the bytes of a path that nobody else holds. */
    method Give(m: Module, path: Path, source: seq<byte>, owned: bool, ghost busy: Option<Path>)
      requires m in all && busy != Some(path)
      requires Known() && forall p :: Some(p) != busy && p != path ==> PathOk(p)
      requires forall n :: n in all && path in n.overrides ==> n == m
      modifies m
      ensures Known() && forall p :: Some(p) != busy && p != path ==> PathOk(p)
      ensures forall n :: n in all && path in n.overrides ==> n == m
      ensures HeldBy(m, path) == AfterSet(old(m.overrides), path, source, owned)
      ensures Held() - {path} == old(Held()) - {path}
      ensures busy.Some? ==> Holdings(busy.value, all) == old(Holdings(busy.value, all))
    {
      m.SetOverride(path, source, owned);
      assert forall p :: Some(p) != busy && p != path ==> PathOk(p) by {
        hide Held, HeldBytes, Holdings;
        forall p | Some(p) != busy && p != path
          ensures PathOk(p)
        {
          assert old(PathOk(p));
        }
      }
      assert Held() - {path} == old(Held()) - {path} by {
        hide PathOk, Holdings;
        forall p | p in overrideRoots && p != path
          ensures HeldBytes(p) == old(HeldBytes(p))
        {}
      }
    }

    /** The record names the only module that may hold bytes of the path. */
    method Record(owner: Owner, path: Path, ghost busy: Option<Path>)
      requires owner.holder in all && busy != Some(path)
      requires Known() && forall p :: Some(p) != busy && p != path ==> PathOk(p)
      requires forall m :: m in all && path in m.overrides ==> m == owner.holder
      modifies this`overrideRoots
      ensures ValidBut(busy) && overrideRoots == old(overrideRoots)[path := owner]
      ensures Held() == old(Held())[path := HeldBy(owner.holder, path)]
    {
      overrideRoots := overrideRoots[path := owner];
      assert ValidBut(busy) by {
        hide Held, HeldBytes;
        forall p | Some(p) != busy && p != path
          ensures PathOk(p)
        {
          assert old(PathOk(p));
        }
        assert PathOk(path);
      }
      hide PathOk;
    }

    /** Both. */
    method Take(owner: Owner, path: Path, owned: bool, ghost busy: Option<Path>)
      requires owner.holder in all && busy != Some(path)
      requires Known() && forall p :: Some(p) != busy && p != path ==> PathOk(p)
      requires forall m :: m in all && path in m.overrides ==> m == owner.holder
      modifies this`overrideRoots, owner.holder
      ensures ValidBut(busy) && overrideRoots == old(overrideRoots)[path := owner]
      ensures Held() == old(Held())[path := AfterSet(old(owner.holder.overrides), path, owner.source, owned)]
      ensures busy.Some? ==> Holdings(busy.value, all) == old(Holdings(busy.value, all))
    {
      hide AfterSet, PathOk, Held, HeldBy;
      Give(owner.holder, path, owner.source, owned, busy);
      SamePut(old(Held()), Held(), path, AfterSet(old(owner.holder.overrides), path, owner.source, owned));
      Record(owner, path, busy);
    }

    static lemma {:induction false} SamePut<A>(x: map<Path, A>, y: map<Path, A>, path: Path, a: A)
      requires x - {path} == y - {path}
      ensures x[path := a] == y[path := a]
    {
      assert x[path := a] == (x - {path})[path := a] && y[path := a] == (y - {path})[path := a];
    }

    /** A record of path that names another module than m is dropped, and that module gives up the bytes. */
    method DropOther(m: Module, path: Path, unreadable: bool) returns (err: bool)
      requires m in all && ValidBut(Some(path)) && (PathOk(path) || Detached(path, Some(m)))
      modifies this`overrideRoots, all
      ensures ValidBut(Some(path)) && forall n :: n in all && path in n.overrides ==> n == m
      ensures overrideRoots - {path} == old(overrideRoots) - {path} && Held() - {path} == old(Held()) - {path}
      ensures HeldBy(m, path) == old(HeldBy(m, path))
      ensures err == (path in old(overrideRoots) && old(overrideRoots)[path].holder != m && unreadable && old(HeldBytes(path)).Some?)
    {
      hide Held;
      err := false;
      if path in overrideRoots && overrideRoots[path].holder != m {
        var previous := DetachOverride(path);
        err := ClearAt(previous, path, unreadable);
      }
    }

    /** setOverride: a record that names another module is dropped and its bytes are cleared, before
        the new module takes them. */
    method SetOverride(root: Path, m: Module, path: Path, source: seq<byte>, configPath: Path, owned: bool, unreadable: bool) returns (err: bool)
      requires m in all && ValidBut(Some(path)) && (PathOk(path) || Detached(path, Some(m)))
      modifies this`overrideRoots, all
      ensures Valid() && overrideRoots == old(overrideRoots)[path := Owner(root, m, source, configPath)]
      ensures Held() == old(Held())[path := AfterSet(old(m.overrides), path, source, owned)]
      ensures err == (path in old(overrideRoots) && old(overrideRoots)[path].holder != m && unreadable && old(HeldBytes(path)).Some?)
    {
      hide PathOk, Held, HeldBytes;
      err := DropOther(m, path, unreadable);
      SamePut(old(overrideRoots), overrideRoots, path, Owner(root, m, source, configPath));
      SamePut(old(Held()), Held(), path, AfterSet(m.overrides, path, source, owned));
      Take(Owner(root, m, source, configPath), path, owned, None);
    }

    /** evictRoots: forgets modules; the buffers that they hold keep their records. */
    method EvictRoots(roots: set<Path>)
      requires Valid()
      modifies this`byRoot, this`modulePaths, this`configIDs
      ensures Valid() && byRoot == old(byRoot) - roots
      ensures modulePaths == old(modulePaths) - roots && configIDs == old(configIDs) - roots
    {
      hide PathOk, Held;
      byRoot := byRoot - roots;
      modulePaths := modulePaths - roots;
      configIDs := configIDs - roots;
    }

    /** What each of some modules holds of path. */
    static ghost function Holdings(path: Path, mods: set<Module>): map<Module, Option<seq<byte>>>
      reads mods
    {
      map m | m in mods :: HeldBy(m, path)
    }

    /** The module that the record of path names gives up the bytes, and the record stays for now. */
    method Release(path: Path, unreadable: bool, ghost busy: Option<Path>) returns (err: bool)
      requires ValidBut(busy) && busy != Some(path) && path in overrideRoots
      modifies overrideRoots[path].holder
      ensures Known() && forall p :: Some(p) != busy && p != path ==> PathOk(p)
      ensures forall m :: m in all ==> path !in m.overrides
      ensures Held() - {path} == old(Held()) - {path}
      ensures busy.Some? ==> Holdings(busy.value, all) == old(Holdings(busy.value, all))
      ensures err == (unreadable && old(HeldBytes(path)).Some?)
    {
      assert PathOk(path);
      err := overrideRoots[path].holder.ClearOverride(path, unreadable);
      assert forall p :: Some(p) != busy && p != path ==> PathOk(p) by {
        hide Held, HeldBytes, Holdings;
        forall p | Some(p) != busy && p != path
          ensures PathOk(p)
        {
          assert old(PathOk(p));
        }
      }
      assert Held() - {path} == old(Held()) - {path} by {
        hide PathOk, Holdings;
        forall p | p in overrideRoots && p != path
          ensures HeldBytes(p) == old(HeldBytes(p))
        {}
      }
    }

    /** One turn of the loop of module: a buffer goes over to m with its recorded bytes, if m owns its path. */
    method Transfer(path: Path, m: Module, owned: bool, unreadable: bool, ghost busy: Option<Path>) returns (err: bool)
      requires m in all && ValidBut(busy) && busy != Some(path) && path in overrideRoots
      modifies this`overrideRoots, all
      ensures ValidBut(busy) && overrideRoots == old(overrideRoots)[path := old(overrideRoots)[path].(holder := m)]
      ensures Held() == old(Held())[path := if owned then Some(old(overrideRoots)[path].source) else None]
      ensures busy.Some? ==> Holdings(busy.value, all) == old(Holdings(busy.value, all))
      ensures err == (unreadable && old(HeldBytes(path)).Some?)
    {
      hide PathOk, Held, HeldBytes;
      var owner := overrideRoots[path];
      err := Release(path, unreadable, busy);
      SamePut(Held(), old(Held()), path, if owned then Some(owner.source) else None);
      Take(owner.(holder := m), path, owned, busy);
    }

    /** The same buffers with the same bytes; only holders may differ. */
    static predicate SameBuffers(was: map<Path, Owner>, now: map<Path, Owner>) {
      was.Keys == now.Keys && forall p :: p in was ==> now[p] == was[p].(holder := now[p].holder)
    }

    /** The holders after the buffers of root have moved to m. */
    static predicate MovedTo(was: map<Path, Owner>, now: map<Path, Owner>, root: Path, m: Module) {
      SameBuffers(was, now)
      && forall p :: p in was ==> now[p].holder == if was[p].root == root then m else was[p].holder
    }

    /** What the opening of a module for the root does to modules and records: the root has another module,
        and every buffer of the root is held there. If none is opened, nothing changes. */
    static predicate Rehoused(homes: map<Path, Module>, was: map<Path, Owner>,
                              homes': map<Path, Module>, now: map<Path, Owner>, w: World, opens: bool) {
      if opens && w.root.Some? then
        var root := w.root.value;
        root in homes' && homes' == homes[root := homes'[root]] && MovedTo(was, now, root, homes'[root])
      else homes' == homes && now == was
    }

    /** The record of p gives its bytes to the module of the root that the world names. */
    static predicate HomeIn(homes: map<Path, Module>, records: map<Path, Owner>, p: Path, source: seq<byte>, w: World) {
      && w.root.Some? && w.root.value in homes && p in records
      && records[p] == Owner(w.root.value, homes[w.root.value], source, w.configPath)
    }

    /** A buffer whose module is that of its root is so after the transition of another one. */
    static lemma {:induction false} HomeStays(homes: map<Path, Module>, was: map<Path, Owner>, homes': map<Path, Module>,
        now: map<Path, Owner>, path: Path, w: World, opens: bool, p: Path, source: seq<byte>, v: World)
      requires Rehoused(homes, was - {path}, homes', now - {path}, w, opens) && p != path
      requires HomeIn(homes, was, p, source, v)
      ensures HomeIn(homes', now, p, source, v)
    {
      assert p in was - {path} && (was - {path})[p] == was[p];
      assert p in now - {path} && (now - {path})[p] == now[p];
    }

    static lemma {:induction false} RehousedKeeps(homes: map<Path, Module>, was: map<Path, Owner>, homes': map<Path, Module>,
        now: map<Path, Owner>, w: World, opens: bool)
      requires Rehoused(homes, was, homes', now, w, opens)
      ensures SameBuffers(was, now)
    {}

    /** The holders after the first buffers have moved. */
    static predicate MovedSome(was: map<Path, Owner>, now: map<Path, Owner>, moved: seq<Path>, m: Module) {
      SameBuffers(was, now) && forall p :: p in was ==> now[p].holder == if p in moved then m else was[p].holder
    }

    static lemma {:induction false} MovedStep(was: map<Path, Owner>, now: map<Path, Owner>, paths: seq<Path>, k: nat, m: Module)
      requires k < |paths| && MovedSome(was, now, paths[..k], m) && paths[k] in now
      ensures MovedSome(was, now[paths[k] := now[paths[k]].(holder := m)], paths[..k + 1], m)
    {
      assert forall p :: p in paths[..k + 1] <==> p == paths[k] || p in paths[..k];
    }

    static lemma {:induction false} SourceIs(was: map<Path, Owner>, now: map<Path, Owner>, moved: seq<Path>, m: Module, p: Path)
      requires MovedSome(was, now, moved, m) && p in now
      ensures p in was && now[p].source == was[p].source
    {}

    static lemma {:induction false} MovedAll(was: map<Path, Owner>, now: map<Path, Owner>, paths: seq<Path>, root: Path, m: Module)
      requires MovedSome(was, now, paths[..|paths|], m)
      requires forall p :: p in paths <==> p in was && was[p].root == root
      ensures MovedTo(was, now, root, m)
    {
      assert paths[..|paths|] == paths;
    }

    /** What is held after the buffers of root went over to a new module: of these the recorded bytes or
        nothing, and of the others what was held before. */
    static function HeldAfter(records: map<Path, Owner>, held: map<Path, Option<seq<byte>>>, root: Path, w: World)
      : map<Path, Option<seq<byte>>>
    {
      map p | p in held :: if p in records && records[p].root == root then Given(records[p], p, w) else held[p]
    }

    static function HeldNow(records: map<Path, Owner>, held: map<Path, Option<seq<byte>>>, root: Path, w: World, moves: bool)
      : map<Path, Option<seq<byte>>>
    {
      if moves then HeldAfter(records, held, root, w) else held
    }

    /** One of some buffers has bytes that are given up while its saved state is unreadable: that is reported. */
    static ghost predicate Complains(held: map<Path, Option<seq<byte>>>, moved: seq<Path>, w: World) {
      exists p :: p in moved && p in held && held[p].Some? && w.unreadable(p)
    }

    /** The same of the buffers of root. */
    static ghost predicate RootComplains(records: map<Path, Owner>, held: map<Path, Option<seq<byte>>>, root: Path, w: World) {
      exists p :: p in records && records[p].root == root && p in held && held[p].Some? && w.unreadable(p)
    }

    static lemma {:induction false} ComplainsStep(records: map<Path, Owner>, held: map<Path, Option<seq<byte>>>,
        now: map<Path, Option<seq<byte>>>, paths: seq<Path>, k: nat, w: World)
      requires k < |paths| && Distinct(paths) && GivenSome(records, held, now, paths[..k], w) && paths[k] in held
      ensures now[paths[k]] == held[paths[k]]
      ensures Complains(held, paths[..k + 1], w) <==> Complains(held, paths[..k], w) || (held[paths[k]].Some? && w.unreadable(paths[k]))
    {
      assert forall p :: p in paths[..k + 1] <==> p == paths[k] || p in paths[..k];
      assert paths[k] !in paths[..k];
    }

    static lemma {:induction false} ComplainsAll(records: map<Path, Owner>, held: map<Path, Option<seq<byte>>>, paths: seq<Path>, root: Path, w: World)
      requires forall p :: p in paths <==> p in records && records[p].root == root
      ensures Complains(held, paths[..|paths|], w) <==> RootComplains(records, held, root, w)
      ensures !Complains(held, paths[..0], w)
    {
      assert paths[..|paths|] == paths;
    }

    static function Given(owner: Owner, p: Path, w: World): Option<seq<byte>> {
      if w.owns(p) then Some(owner.source) else None
    }

    /** The same when only the first of them have gone over. */
    static predicate GivenSome(records: map<Path, Owner>, held: map<Path, Option<seq<byte>>>,
                               now: map<Path, Option<seq<byte>>>, moved: seq<Path>, w: World) {
      && now.Keys == held.Keys
      && forall p :: p in held ==> now[p] == if p in moved && p in records then Given(records[p], p, w) else held[p]
    }

    static lemma {:induction false} GivenStep(records: map<Path, Owner>, held: map<Path, Option<seq<byte>>>,
        now: map<Path, Option<seq<byte>>>, paths: seq<Path>, k: nat, w: World)
      requires k < |paths| && GivenSome(records, held, now, paths[..k], w) && paths[k] in records && paths[k] in held
      ensures var p := paths[k];
        GivenSome(records, held, now[p := if w.owns(p) then Some(records[p].source) else None], paths[..k + 1], w)
    {
      assert forall p :: p in paths[..k + 1] <==> p == paths[k] || p in paths[..k];
    }

    static lemma {:induction false} GivenAll(records: map<Path, Owner>, held: map<Path, Option<seq<byte>>>,
        now: map<Path, Option<seq<byte>>>, paths: seq<Path>, root: Path, w: World)
      requires GivenSome(records, held, now, paths[..|paths|], w)
      requires forall p :: p in paths <==> p in records && records[p].root == root
      ensures now == HeldAfter(records, held, root, w)
    {
      assert paths[..|paths|] == paths;
    }

    /** The loop of module: in the order of their paths, the buffers of a root go over to m. */
    method MoveBuffers(root: Path, m: Module, w: World, ghost busy: Option<Path>) returns (err: bool)
      requires m in all && ValidBut(busy) && (busy.Some? ==> busy.value !in overrideRoots)
      modifies this`overrideRoots, all
      ensures ValidBut(busy) && MovedTo(old(overrideRoots), overrideRoots, root, m)
      ensures Held() == HeldAfter(old(overrideRoots), old(Held()), root, w)
      ensures busy.Some? ==> Holdings(busy.value, all) == old(Holdings(busy.value, all))
      ensures err == RootComplains(old(overrideRoots), old(Held()), root, w)
    {
      hide PathOk, Held, HeldBytes, HeldAfter, GivenSome, Given, SameBuffers, Holdings, Complains, RootComplains, Less, Sorted, MovedSome, MovedTo, Distinct;
      var paths := SortedKeys(map p | p in overrideRoots && overrideRoots[p].root == root :: true);
      err := false;
      NoneMoved(overrideRoots, Held(), paths, m, w);
      ComplainsAll(overrideRoots, Held(), paths, root, w);
      for k := 0 to |paths|
        invariant ValidBut(busy) && overrideRoots.Keys == old(overrideRoots).Keys
        invariant MovedSome(old(overrideRoots), overrideRoots, paths[..k], m)
        invariant GivenSome(old(overrideRoots), old(Held()), Held(), paths[..k], w)
        invariant busy.Some? ==> Holdings(busy.value, all) == old(Holdings(busy.value, all))
        invariant err == Complains(old(Held()), paths[..k], w)
      {
        assert paths[k] in paths && paths[k] in overrideRoots;
        MovedStep(old(overrideRoots), overrideRoots, paths, k, m);
        HeldAt(paths[k]);
        ComplainsStep(old(overrideRoots), old(Held()), Held(), paths, k, w);
        GivenStep(old(overrideRoots), old(Held()), Held(), paths, k, w);
        SourceIs(old(overrideRoots), overrideRoots, paths[..k], m, paths[k]);
        var clearErr := Transfer(paths[k], m, w.owns(paths[k]), w.unreadable(paths[k]), busy);
        err := err || clearErr;
      }
      MovedAll(old(overrideRoots), overrideRoots, paths, root, m);
      GivenAll(old(overrideRoots), old(Held()), Held(), paths, root, w);
    }

    static lemma {:induction false} NoneMoved(was: map<Path, Owner>, held: map<Path, Option<seq<byte>>>, paths: seq<Path>, m: Module, w: World)
      ensures MovedSome(was, was, paths[..0], m) && GivenSome(was, held, held, paths[..0], w)
    {}

    /** module, when the retained module of the root does not fit: opens one, and moves every buffer of
        the root over to it. A path in transition has no record, so it stays where it is. */
    method OpenModule(root: Path, w: World, ghost busy: Option<Path>) returns (m: Option<Module>, err: bool)
      requires ValidBut(busy) && (busy.Some? ==> busy.value !in overrideRoots)
      modifies this, all
      ensures ValidBut(busy) && old(all) <= all && fresh(all - old(all))
      ensures m.Some? == w.opens
      ensures m.Some? ==> m.value in all - old(all) && byRoot == old(byRoot)[root := m.value] && Fits(root, w)
      ensures m.Some? ==> MovedTo(old(overrideRoots), overrideRoots, root, m.value)
      ensures Held() == HeldNow(old(overrideRoots), old(Held()), root, w, w.opens)
      ensures m.None? ==> err && unchanged(this)
      ensures m.Some? ==> err == RootComplains(old(overrideRoots), old(Held()), root, w)
      ensures busy.Some? ==> Holdings(busy.value, old(all)) == old(Holdings(busy.value, all)) && forall n :: n in all - old(all) ==> busy.value !in n.overrides
    {
      hide PathOk, MovedTo, Held, HeldAfter;
      if !w.opens {
        return None, true;
      }
      var created := Create(busy);
      label ready:
      err := MoveBuffers(root, created, w, busy);
      Retain(root, created, w, busy);
      m := Some(created);
      if busy.Some? {
        forall n | n in all
          ensures HeldBy(n, busy.value) == old@ready(HeldBy(n, busy.value))
        {
          assert n in Holdings(busy.value, all);
        }
      }
    }

    /** codegen.Open: a module that holds nothing. */
    method Create(ghost busy: Option<Path>) returns (created: Module)
      requires ValidBut(busy)
      modifies this`all
      ensures ValidBut(busy) && fresh(created) && all == old(all) + {created}
      ensures created.overrides == map[] && Held() == old(Held())
    {
      hide PathOk, Held;
      created := new Module();
      all := all + {created};
      AddFresh(created, busy);
      SameBytes();
    }

    /** The end of module: the root now has this module. */
    method Retain(root: Path, m: Module, w: World, ghost busy: Option<Path>)
      requires ValidBut(busy) && m in all
      modifies this`byRoot, this`modulePaths, this`configIDs
      ensures ValidBut(busy) && byRoot == old(byRoot)[root := m]
      ensures modulePaths == old(modulePaths)[root := w.modPath] && configIDs == old(configIDs)[root := w.configID]
    {
      hide PathOk;
      byRoot := byRoot[root := m];
      modulePaths := modulePaths[root := w.modPath];
      configIDs := configIDs[root := w.configID];
    }

    /** A module that holds nothing changes nothing. */
    twostate lemma {:induction false} AddFresh(new created: Module, busy: Option<Path>)
      requires old(ValidBut(busy)) && fresh(created) && created.overrides == map[]
      requires all == old(all) + {created} && byRoot == old(byRoot) && overrideRoots == old(overrideRoots)
      requires modulePaths == old(modulePaths) && configIDs == old(configIDs)
      requires forall n :: n in old(all) ==> n.overrides == old(n.overrides)
      ensures ValidBut(busy)
    {
      forall p | Some(p) != busy
        ensures PathOk(p)
      {
        assert old(PathOk(p));
      }
    }

    /** A new module that holds nothing changes what is held of no buffer. */
    twostate lemma {:induction false} SameBytes()
      requires old(Known()) && overrideRoots == old(overrideRoots)
      requires forall n :: n in old(all) ==> n.overrides == old(n.overrides)
      ensures Held() == old(Held())
    {}

    /** The retained module of a root fits the module directive and the configuration found there. */
    predicate Fits(root: Path, w: World)
      reads this
    {
      && root in byRoot && root in modulePaths && modulePaths[root] == w.modPath
      && root in configIDs && configIDs[root] == w.configID
    }

    /** module */
    method ModuleFor(root: Path, w: World, ghost busy: Option<Path>) returns (m: Option<Module>, err: bool)
      requires ValidBut(busy) && (busy.Some? ==> busy.value !in overrideRoots) && w.root == Some(root)
      modifies this, all
      ensures ValidBut(busy) && old(all) <= all && fresh(all - old(all))
      ensures m.Some? == (old(Fits(root, w)) || w.opens) && (m.None? ==> err && unchanged(this))
      ensures Held() == HeldNow(old(overrideRoots), old(Held()), root, w, w.opens && !old(Fits(root, w)))
      ensures m.Some? ==> err == (old(Opens(w)) && RootComplains(old(overrideRoots), old(Held()), root, w))
      ensures old(Fits(root, w)) ==> m == Some(old(byRoot)[root])
      ensures m.Some? && !old(Fits(root, w)) ==> m.value !in old(all)
      ensures m.Some? ==> m.value in all && Fits(root, w) && byRoot[root] == m.value
      ensures Rehoused(old(byRoot), old(overrideRoots), byRoot, overrideRoots, w, old(Opens(w)))
      ensures busy.Some? ==> Holdings(busy.value, old(all)) == old(Holdings(busy.value, all)) && forall n :: n in all - old(all) ==> busy.value !in n.overrides
    {
      hide PathOk;
      if Fits(root, w) {
        return Some(byRoot[root]), false;
      }
      m, err := OpenModule(root, w, busy);
    }

    /** The records of the other buffers are as they were, but for their holders. */
    static predicate OthersKept(was: map<Path, Owner>, now: map<Path, Owner>, path: Path) {
      SameBuffers(was - {path}, now - {path})
    }

    /** The module of the path's root is still the one that has its bytes. */
    predicate StaysAt(path: Path, w: World)
      reads this
    {
      && w.root.Some? && path in overrideRoots && overrideRoots[path].root == w.root.value
      && Fits(w.root.value, w) && byRoot[w.root.value] == overrideRoots[path].holder
    }

    /** The same of a record that was taken off. */
    predicate Keeps(previous: Option<Owner>, w: World)
      reads this
    {
      && w.root.Some? && previous.Some? && previous.value.root == w.root.value
      && Fits(w.root.value, w) && byRoot[w.root.value] == previous.value.holder
    }

    /** The transition of path opens a new module. */
    predicate Opens(w: World)
      reads this
    {
      w.root.Some? && w.opens && !Fits(w.root.value, w)
    }

    /** The record of path gives the bytes to the module of its root, which was opened for the module
        directive and the configuration found there. */
    ghost predicate Bound(path: Path, source: seq<byte>, w: World)
      reads this
    {
      && w.root.Some? && HomeIn(byRoot, overrideRoots, path, source, w)
      && w.root.value in modulePaths && modulePaths[w.root.value] == w.modPath
      && w.root.value in configIDs && configIDs[w.root.value] == w.configID
    }

    /** lspAnalyzer.SetOverride: a buffer's new bytes. The record is taken off first, for the root of the
        path may have moved, and finding it or opening its module may fail. Either the record names the
        module of the root and no other holds bytes of the path, or nobody does. That module holds the new
        bytes if it owns the path; if not, it keeps the old ones when they were with it, and else nothing. */
    method BufferChanged(path: Path, source: seq<byte>, w: World) returns (bound: bool, err: bool)
      requires Valid()
      modifies this, all
      ensures Valid() && old(all) <= all && fresh(all - old(all))
      ensures bound == (w.root.Some? && (old(Fits(w.root.value, w)) || w.opens))
      ensures OthersKept(old(overrideRoots), overrideRoots, path)
      ensures Rehoused(old(byRoot), old(overrideRoots) - {path}, byRoot, overrideRoots - {path}, w, old(Opens(w)))
      ensures bound ==> Bound(path, source, w)
      ensures bound ==>
        HeldBytes(path) == if w.owns(path) then Some(source) else if old(StaysAt(path, w)) then old(HeldBytes(path)) else None
      ensures Held() - {path}
        == (if old(Opens(w)) then HeldAfter(old(overrideRoots), old(Held()), w.root.value, w) else old(Held())) - {path}
      ensures bound ==>
        (AsRecorded(path) <==> w.owns(path) || (old(StaysAt(path, w)) && old(HeldBytes(path)) == Some(source)))
      ensures old(AllAsRecorded()) && (forall p :: w.owns(p)) ==> AllAsRecorded()
      ensures bound ==> (err <==>
        (old(Opens(w)) && RootComplains(old(overrideRoots) - {path}, old(Held()) - {path}, w.root.value, w))
        || (path in old(overrideRoots) && !old(StaysAt(path, w)) && w.unreadable(path) && old(HeldBytes(path)).Some?))
      ensures !bound ==> err && path !in overrideRoots && NowhereHeld(path)
    {
      hide Matches, PathOk, Held, HeldBy, HeldAfter, HeldNow, Holdings, OthersKept, SameBuffers, Rehoused, Detached, NowhereHeld, ValidBut;
      ghost var was := overrideRoots;
      var previous := DetachOverride(path);
      ghost var mid, held := overrideRoots, Held();
      bound, err := Rebound(path, previous, source, w);
      RehousedKeeps(old(byRoot), mid, byRoot, overrideRoots - {path}, w, old(Opens(w)));
      OthersAre(was, mid, overrideRoots, path);
      HeldEnd(was, old(Held()), Held(), held, path, w, old(Opens(w)));
      if bound {
        HeldAt(path);
      }
      if old(AllAsRecorded()) && forall p :: w.owns(p) {
        MatchesEnd(was, overrideRoots, old(Held()), Held(), path, w, old(Opens(w)));
      }
    }

    /** The transition of a detached path. */
    method Rebound(path: Path, previous: Option<Owner>, source: seq<byte>, w: World) returns (bound: bool, err: bool)
      requires ValidBut(Some(path)) && path !in overrideRoots && (previous.Some? ==> previous.value.holder in all)
      requires Detached(path, if previous.Some? then Some(previous.value.holder) else None)
      modifies this, all
      ensures Valid() && old(all) <= all && fresh(all - old(all))
      ensures bound == (w.root.Some? && (old(Fits(w.root.value, w)) || w.opens))
      ensures if bound then Bound(path, source, w) else err && path !in overrideRoots && NowhereHeld(path)
      ensures Rehoused(old(byRoot), old(overrideRoots), byRoot, overrideRoots - {path}, w, old(Opens(w)))
      ensures Held() - {path} == if old(Opens(w)) then HeldAfter(old(overrideRoots), old(Held()), w.root.value, w) else old(Held())
      ensures bound ==> HeldBytes(path) == if w.owns(path) then Some(source)
        else if old(Keeps(previous, w)) then old(HeldBy(previous.value.holder, path)) else None
      ensures bound ==> (err <==>
        (old(Opens(w)) && RootComplains(old(overrideRoots), old(Held()), w.root.value, w))
        || (previous.Some? && !old(Keeps(previous, w)) && w.unreadable(path) && old(HeldBy(previous.value.holder, path)).Some?))
    {
      hide PathOk, Held, HeldBy, HeldAfter, Holdings, Rehoused, SameBuffers, Detached, NowhereHeld;
      if w.root.None? {
        var clearErr := ClearAt(previous, path, w.unreadable(path));
        GivenUp(path);
        NoChange(overrideRoots, byRoot, Held(), path, w);
        return false, true;
      }
      var m, moduleErr := OwnerOf(path, previous, w);
      if m.None? {
        var clearErr := ClearAt(previous, path, w.unreadable(path));
        GivenUp(path);
        NoChange(overrideRoots, byRoot, Held(), path, w);
        return false, true;
      }
      ghost var mid, held := overrideRoots, Held();
      RehousedKeeps(old(byRoot), old(overrideRoots), byRoot, mid, w, old(Opens(w)));
      NotThere(old(overrideRoots), mid, path);
      err := Bind(path, source, m.value, previous, w);
      HeldAt(path);
      PutGone(mid, path, overrideRoots[path]);
      PutGone(held, path, HeldBytes(path));
      return true, moduleErr || err;
    }

    static lemma {:induction false} PutGone<A>(x: map<Path, A>, path: Path, a: A)
      requires path !in x
      ensures x[path := a] - {path} == x
    {}

    static lemma {:induction false} NotThere(was: map<Path, Owner>, now: map<Path, Owner>, path: Path)
      requires SameBuffers(was, now) && path !in was
      ensures path !in now
    {}

    static lemma {:induction false} NoChange(now: map<Path, Owner>, homes: map<Path, Module>, held: map<Path, Option<seq<byte>>>, path: Path, w: World)
      requires path !in now && held.Keys == now.Keys
      ensures Rehoused(homes, now, homes, now - {path}, w, false) && held - {path} == held
    {}

    /** The module of the root, while the bytes of a detached path stay where they are. */
    method OwnerOf(path: Path, previous: Option<Owner>, w: World) returns (m: Option<Module>, err: bool)
      requires ValidBut(Some(path)) && w.root.Some? && (previous.Some? ==> previous.value.holder in all)
      requires Detached(path, if previous.Some? then Some(previous.value.holder) else None)
      modifies this, all
      ensures ValidBut(Some(path)) && old(all) <= all && fresh(all - old(all))
      ensures Detached(path, if previous.Some? then Some(previous.value.holder) else None)
      ensures m.Some? == (old(Fits(w.root.value, w)) || w.opens) && (m.None? ==> unchanged(this))
      ensures Held() == HeldNow(old(overrideRoots), old(Held()), w.root.value, w, w.opens && !old(Fits(w.root.value, w)))
      ensures m.Some? ==> err == (old(Opens(w)) && RootComplains(old(overrideRoots), old(Held()), w.root.value, w))
      ensures old(Fits(w.root.value, w)) ==> m == Some(old(byRoot)[w.root.value])
      ensures m.Some? && !old(Fits(w.root.value, w)) ==> m.value !in old(all)
      ensures previous.Some? ==> HeldBy(previous.value.holder, path) == old(HeldBy(previous.value.holder, path))
      ensures m.Some? ==> m.value in all && Fits(w.root.value, w) && byRoot[w.root.value] == m.value
      ensures Rehoused(old(byRoot), old(overrideRoots), byRoot, overrideRoots, w, old(Opens(w)))
    {
      hide PathOk, Held;
      m, err := ModuleFor(w.root.value, w, Some(path));
      forall n | n in old(all)
        ensures HeldBy(n, path) == old(HeldBy(n, path))
      {
        assert n in Holdings(path, old(all));
      }
    }

    static predicate Stays(previous: Option<Owner>, root: Path, m: Module) {
      previous.Some? && previous.value.root == root && previous.value.holder == m
    }

    /** The bytes go to m; the module that kept them gives them up, unless it is m itself. */
    method Bind(path: Path, source: seq<byte>, m: Module, previous: Option<Owner>, w: World) returns (err: bool)
      requires ValidBut(Some(path)) && w.root.Some? && m in all && (previous.Some? ==> previous.value.holder in all)
      requires Detached(path, if previous.Some? then Some(previous.value.holder) else None)
      modifies this`overrideRoots, all
      ensures Valid() && overrideRoots == old(overrideRoots)[path := Owner(w.root.value, m, source, w.configPath)]
      ensures Held() == old(Held())[path :=
        if w.owns(path) then Some(source) else if Stays(previous, w.root.value, m) then old(HeldBy(m, path)) else None]
      ensures err == (previous.Some? && !Stays(previous, w.root.value, m) && w.unreadable(path) && old(HeldBy(previous.value.holder, path)).Some?)
    {
      hide PathOk, Held;
      var clearErr := false;
      if !Stays(previous, w.root.value, m) {
        clearErr := ClearAt(previous, path, w.unreadable(path));
      }
      var setErr := SetOverride(w.root.value, m, path, source, w.configPath, w.owns(path), w.unreadable(path));
      err := clearErr || setErr;
    }

    lemma {:induction false} HeldAt(path: Path)
      requires path in overrideRoots
      ensures Held()[path] == HeldBytes(path)
    {}

    /** What is held of the others, when the bytes of path were taken off first. */
    static lemma {:induction false} HeldEnd(records: map<Path, Owner>, was: map<Path, Option<seq<byte>>>,
        now: map<Path, Option<seq<byte>>>, held: map<Path, Option<seq<byte>>>, path: Path, w: World, moves: bool)
      requires (moves ==> w.root.Some?) && held == was - {path}
      requires now - {path} == if moves then HeldAfter(records - {path}, held, w.root.value, w) else held
      ensures now - {path} == (if moves then HeldAfter(records, was, w.root.value, w) else was) - {path}
    {}

    /** Every buffer matches its record after a transition if it did before and its module owns it. */
    static lemma {:induction false} MatchesEnd(was: map<Path, Owner>, now: map<Path, Owner>, held: map<Path, Option<seq<byte>>>,
        after: map<Path, Option<seq<byte>>>, path: Path, w: World, moves: bool)
      requires Matches(was, held) && OthersKept(was, now, path) && now.Keys == after.Keys && (moves ==> w.root.Some?)
      requires after - {path} == (if moves then HeldAfter(was, held, w.root.value, w) else held) - {path}
      requires path in now ==> after[path] == Some(now[path].source)
      requires forall p :: w.owns(p)
      ensures Matches(now, after)
    {
      forall p | p in now && p != path
        ensures after[p] == Some(now[p].source)
      {
        assert p in now - {path} && p in after - {path};
        assert after[p] == (after - {path})[p] && (now - {path})[p].source == (was - {path})[p].source;
      }
    }

    ghost predicate NowhereHeld(path: Path)
      reads this`all, all
    {
      forall m :: m in all ==> path !in m.overrides
    }

    lemma {:induction false} GivenUp(path: Path)
      requires ValidBut(Some(path)) && Detached(path, None)
      ensures Valid() && NowhereHeld(path)
    {
      NobodyHolds(path);
    }

    static lemma {:induction false} OthersAre(was: map<Path, Owner>, mid: map<Path, Owner>, now: map<Path, Owner>, path: Path)
      requires mid == was - {path} && SameBuffers(mid, now - {path})
      ensures OthersKept(was, now, path)
    {}

    /** Every buffer that survives has the bytes that it had. */
    static predicate BytesKept(was: map<Path, Owner>, now: map<Path, Owner>) {
      forall p :: p in now ==> p in was && now[p].source == was[p].source
    }

    /** The replayed buffers that did not fail have come home; the others of rest keep their records, but
        for their holders. */
    static ghost predicate Replayed(was: map<Path, Owner>, homes: map<Path, Module>, now: map<Path, Owner>,
                                    replayed: seq<Path>, failed: seq<Path>, rest: set<Path>, world: Path -> World) {
      && BytesKept(was, now) && SameBuffers(was - rest, now - rest)
      && (forall p :: p in was ==> (p in now <==> p !in failed))
      && (forall p :: p in failed ==> p in replayed)
      && (forall p :: p in replayed && p !in failed && p in was ==> HomeIn(homes, now, p, was[p].source, world(p)))
    }

    /** RefreshDisk, after it has decided which roots to evict and which buffers to rebind: each is
        bound again with its recorded bytes, to the module that its root has in the end. A buffer is lost
        only when its transition fails; one that is not replayed keeps its record but for the holder. */
    method Rebind(roots: set<Path>, replay: seq<Path>, world: Path -> World) returns (failed: seq<Path>)
      requires Valid() && Distinct(replay) && forall p :: p in replay ==> p in overrideRoots
      modifies this, all
      ensures Valid() && old(all) <= all && fresh(all - old(all))
      ensures Replayed(old(overrideRoots), byRoot, overrideRoots, replay, failed, (set p | p in replay), world)
      ensures forall p :: p in failed ==> NowhereHeld(p)
      ensures old(AllAsRecorded()) && (forall q, p :: q in replay ==> world(q).owns(p)) ==> AllAsRecorded()
    {
      hide PathOk, Matches, Held, Rehoused, HomeIn, BytesKept, SameBuffers, OthersKept, Replayed;
      var overrides := overrideRoots;
      EvictRoots(roots);
      failed := [];
      ghost var rest := set p | p in replay;
      NoneReplayed(overrides, byRoot, replay[..0], rest, world);
      assert replay[..|replay|] == replay;
      for k := 0 to |replay|
        invariant Valid() && old(all) <= all && fresh(all - old(all))
        invariant Replayed(overrides, byRoot, overrideRoots, replay[..k], failed, rest, world)
        invariant old(AllAsRecorded()) && (forall q, p :: q in replay ==> world(q).owns(p)) ==> AllAsRecorded()
      {
        var path := replay[k];
        assert path in replay;
        ghost var before, homes, opens := overrideRoots, byRoot, Opens(world(path));
        var bound, err := BufferChanged(path, overrides[path].source, world(path));
        ReplayStep(overrides, homes, before, byRoot, overrideRoots, replay, k, failed, rest, world, opens, bound);
        if !bound {
          failed := failed + [path];
        }
      }
      FailedAreGone(overrides, byRoot, overrideRoots, replay, failed, rest, world);
      forall p | p in failed
        ensures NowhereHeld(p)
      {
        UnrecordedIsNowhere(p);
      }
    }

    static lemma {:induction false} NoneReplayed(was: map<Path, Owner>, homes: map<Path, Module>, none: seq<Path>, rest: set<Path>, world: Path -> World)
      requires none == []
      ensures Replayed(was, homes, was, none, [], rest, world)
    {}

    static lemma {:induction false} FailedAreGone(was: map<Path, Owner>, homes: map<Path, Module>, now: map<Path, Owner>,
        replayed: seq<Path>, failed: seq<Path>, rest: set<Path>, world: Path -> World)
      requires Replayed(was, homes, now, replayed, failed, rest, world)
      ensures forall p :: p in failed ==> p !in now
    {}

    /** One more buffer is replayed. */
    static lemma {:induction false} ReplayStep(was: map<Path, Owner>, homes: map<Path, Module>, before: map<Path, Owner>,
        homes': map<Path, Module>, now: map<Path, Owner>, replay: seq<Path>, k: nat, failed: seq<Path>,
        rest: set<Path>, world: Path -> World, opens: bool, bound: bool)
      requires k < |replay| && Distinct(replay) && replay[k] in rest && replay[k] in was
      requires Replayed(was, homes, before, replay[..k], failed, rest, world)
      requires OthersKept(before, now, replay[k])
      requires Rehoused(homes, before - {replay[k]}, homes', now - {replay[k]}, world(replay[k]), opens)
      requires if bound then HomeIn(homes', now, replay[k], was[replay[k]].source, world(replay[k])) else replay[k] !in now
      ensures Replayed(was, homes', now, replay[..k + 1], if bound then failed else failed + [replay[k]], rest, world)
    {
      hide Rehoused, SameBuffers;
      var path := replay[k];
      BytesStay(was, before, now, path);
      OthersStay(was, before, now, path, rest);
      assert forall p :: p in replay[..k + 1] <==> p == path || p in replay[..k];
      assert path !in replay[..k];
      forall p | p in replay[..k] && p !in failed && p in was
        ensures HomeIn(homes', now, p, was[p].source, world(p))
      {
        HomeStays(homes, before, homes', now, path, world(path), opens, p, was[p].source, world(p));
      }
    }

    static lemma {:induction false} OthersStay(was: map<Path, Owner>, before: map<Path, Owner>, now: map<Path, Owner>, path: Path, rest: set<Path>)
      requires SameBuffers(was - rest, before - rest) && OthersKept(before, now, path) && path in rest
      ensures SameBuffers(was - rest, now - rest)
    {
      forall p | p !in rest
        ensures p in now <==> p in before
        ensures p in now ==> now[p] == before[p].(holder := now[p].holder)
      {
        assert p in now <==> p in now - {path};
        assert p in before <==> p in before - {path};
      }
    }

    lemma {:induction false} UnrecordedIsNowhere(path: Path)
      requires Valid() && path !in overrideRoots
      ensures NowhereHeld(path)
    {
      assert PathOk(path);
    }

    static lemma {:induction false} BytesStay(was: map<Path, Owner>, before: map<Path, Owner>, now: map<Path, Owner>, path: Path)
      requires BytesKept(was, before) && OthersKept(before, now, path) && path in was
      requires path in now ==> now[path].source == was[path].source
      ensures BytesKept(was, now)
      ensures forall p :: p != path ==> (p in now <==> p in before)
    {
      forall p | p != path
        ensures p in now <==> p in before
        ensures p in now ==> now[p].source == before[p].source
      {
        assert p in now <==> p in now - {path};
        assert p in before <==> p in before - {path};
      }
    }
  }

  /** A buffer whose path the module does not own: the record names it, and nobody holds the bytes. */
  method UnownedIsNotHeld(path: Path, source: seq<byte>, w: World) returns (mods: ModuleSet)
    requires w.root.Some? && w.opens && !w.owns(path)
    ensures fresh(mods) && mods.Valid() && path in mods.overrideRoots
    ensures mods.overrideRoots[path].source == source && mods.HeldBytes(path) == None
  {
    mods := new ModuleSet();
    var bound, err := mods.BufferChanged(path, source, w);
  }

  /** A path that is found not to be owned any more: the module keeps the old bytes, the record takes the new. */
  method OldBytesStay(path: Path, before: seq<byte>, now: seq<byte>, yes: World, no: World) returns (mods: ModuleSet)
    requires yes.root.Some? && yes.opens && yes.owns(path)
    requires no.root == yes.root && no.modPath == yes.modPath && no.configID == yes.configID && !no.owns(path)
    ensures fresh(mods) && mods.Valid() && path in mods.overrideRoots
    ensures mods.overrideRoots[path].source == now && mods.HeldBytes(path) == Some(before)
  {
    mods := new ModuleSet();
    var bound, err := mods.BufferChanged(path, before, yes);
    bound, err := mods.BufferChanged(path, now, no);
  }
}

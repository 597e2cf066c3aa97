/** gen/frontdoor.go: the supervisor of the managed front-door process. */
module FrontDoor {
  import opened Options

  /** Where start and then run are. Children are numbered in the order of their spawns. */
  datatype Pc =
    | NotStarted
    | Starting(c: nat)            // start has spawned its child and not yet taken the lock
    | Await(of: Option<nat>)      // run waits for an exit; None is the closed channel of a failed spawn
    | Deciding                    // run has counted the exit
    | GivingUp                    // about to take the lock of giveUp
    | Reporting                   // gave up, about to report it
    | Backoff                     // in the select on the delay
    | Respawning                  // about to spawn
    | Spawned(c: nat)             // spawned, about to take the lock
    | Verifying(c: nat)           // in verifyRespawn
    | Verified(c: nat)            // verifyRespawn said yes, about to take the lock
    | Announcing(c: nat)          // opened the gate, about to report it
    | Killing(c: nat)             // in killProcGroupOwned, for an instance that did not verify
    | KillingNew(c: nat)          // in killProcGroupOwned, for an instance spawned after a shutdown
    | Returned

  /** Where shutdown is, once it took effect. */
  datatype Shut = Never | KillWait(of: Option<nat>) | Over

  datatype Report = Restarting(restarts: nat) | Up(restarts: nat) | GivenUp(restarts: nat)

  /** The fields of frontDoor, the local state of the goroutines, the children, and three histories:
      which children were verified, which exits were rapid, and whether a shutdown came before start
      had published its child. */
  datatype State = State(
    cmd: Option<nat>, open: bool, restarts: nat, done: bool, shutdownClosed: bool,
    pc: Pc, rapid: nat, shut: Shut,
    spawned: nat, exited: set<nat>,
    verified: set<nat>, exits: seq<bool>, raced: bool, reports: seq<Report>)

  datatype Action =
    | StartSpawn
    | StartPublish
    | ChildExit(c: nat)
    | SeeExit(short: bool)   // <-exited, the lock, and the age of the instance
    | Decide
    | GiveUp
    | ReportGiveUp
    | AbortBackoff
    | EndBackoff
    | Spawn(ok: bool)
    | Publish
    | VerifyEnd(ok: bool)
    | OpenGate
    | Announce
    | Killed
    | KilledNew
    | Shutdown
    | ShutReturn

  const Init := State(None, false, 0, false, false, NotStarted, 0, Never, 0, {}, {}, [], false, [])

  /** restartPolicy: the delay in milliseconds before the next attempt, or giving up. */
  function RestartPolicy(rapidExits: int): Option<nat> {
    if rapidExits == 0 then Some(500)
    else if rapidExits == 1 then Some(2000)
    else if rapidExits == 2 then Some(5000)
    else None
  }

  // ----- the steps -----

  predicate HasExited(s: State, c: Option<nat>) { c.Some? ==> c.value in s.exited }

  predicate Enabled(s: State, a: Action) {
    match a
    case StartSpawn => s.pc.NotStarted?
    case StartPublish => s.pc.Starting?
    case ChildExit(c) => c < s.spawned && c !in s.exited
    case SeeExit(_) => s.pc.Await? && HasExited(s, s.pc.of)
    case Decide => s.pc.Deciding?
    case GiveUp => s.pc.GivingUp?
    case ReportGiveUp => s.pc.Reporting?
    case AbortBackoff => s.pc.Backoff? && s.shutdownClosed
    case EndBackoff => s.pc.Backoff?
    case Spawn(_) => s.pc.Respawning?
    case Publish => s.pc.Spawned?
    case VerifyEnd(_) => s.pc.Verifying?
    case OpenGate => s.pc.Verified?
    case Announce => s.pc.Announcing?
    case Killed => s.pc.Killing? && s.pc.c in s.exited
    case KilledNew => s.pc.KillingNew? && s.pc.c in s.exited
    case Shutdown => true
    case ShutReturn => s.shut.KillWait? && HasExited(s, s.shut.of)
  }

  function DoSeeExit(s: State, short: bool): State {
    if s.done then s.(pc := Returned)
    else s.(open := false, pc := Deciding, rapid := if short then s.rapid + 1 else 1, exits := s.exits + [short])
  }

  function DoDecide(s: State): State {
    if RestartPolicy(s.rapid - 1).None? then s.(pc := GivingUp)
    else s.(pc := Backoff, reports := s.reports + [Restarting(s.restarts)])
  }

  function DoGiveUp(s: State): State {
    if s.done then s.(pc := Returned) else s.(done := true, open := false, pc := Reporting)
  }

  function DoSpawn(s: State, ok: bool): State {
    if ok then s.(spawned := s.spawned + 1, pc := Spawned(s.spawned)) else s.(pc := Await(None))
  }

  function DoPublish(s: State): State
    requires s.pc.Spawned?
  {
    if s.done then s.(pc := KillingNew(s.pc.c))
    else s.(cmd := Some(s.pc.c), restarts := s.restarts + 1, pc := Verifying(s.pc.c))
  }

  function DoVerifyEnd(s: State, ok: bool): State
    requires s.pc.Verifying?
  {
    if ok then s.(pc := Verified(s.pc.c), verified := s.verified + {s.pc.c}) else s.(pc := Killing(s.pc.c))
  }

  function DoOpenGate(s: State): State
    requires s.pc.Verified?
  {
    s.(open := !s.done, pc := if s.done then Await(Some(s.pc.c)) else Announcing(s.pc.c))
  }

  function DoShutdown(s: State): State {
    if s.done then s
    else s.(done := true, open := false, shutdownClosed := true, shut := KillWait(s.cmd),
            raced := s.pc.NotStarted? || s.pc.Starting?)
  }

  function Do(s: State, a: Action): State
    requires Enabled(s, a)
  {
    match a
    case StartSpawn => s.(spawned := s.spawned + 1, pc := Starting(s.spawned))
    case StartPublish => s.(cmd := Some(s.pc.c), open := true, pc := Await(Some(s.pc.c)))
    case ChildExit(c) => s.(exited := s.exited + {c})
    case SeeExit(short) => DoSeeExit(s, short)
    case Decide => DoDecide(s)
    case GiveUp => DoGiveUp(s)
    case ReportGiveUp => s.(pc := Returned, reports := s.reports + [GivenUp(s.restarts)])
    case AbortBackoff => s.(pc := Returned)
    case EndBackoff => s.(pc := Respawning)
    case Spawn(ok) => DoSpawn(s, ok)
    case Publish => DoPublish(s)
    case VerifyEnd(ok) => DoVerifyEnd(s, ok)
    case OpenGate => DoOpenGate(s)
    case Announce => s.(pc := Await(Some(s.pc.c)), reports := s.reports + [Up(s.restarts)])
    case Killed => s.(pc := Await(Some(s.pc.c)))
    case KilledNew => s.(pc := Returned)
    case Shutdown => DoShutdown(s)
    case ShutReturn => s.(shut := Over)
  }

  ghost predicate Run(states: seq<State>, actions: seq<Action>) {
    && |states| == |actions| + 1 && states[0] == Init
    && forall k :: 0 <= k < |actions| ==> Enabled(states[k], actions[k]) && states[k + 1] == Do(states[k], actions[k])
  }

  // ----- counting exits -----

  /** The rapid counter after these exits: one more for a rapid exit, one for any other. */
  function Counter(exits: seq<bool>): nat {
    if exits == [] then 0
    else if exits[|exits| - 1] then Counter(exits[..|exits| - 1]) + 1 else 1
  }

  /** How many of the last exits were rapid without a break. */
  function Streak(exits: seq<bool>): nat {
    if exits == [] || !exits[|exits| - 1] then 0 else Streak(exits[..|exits| - 1]) + 1
  }

  predicate AllRapid(exits: seq<bool>) { forall k :: 0 <= k < |exits| ==> exits[k] }

  lemma {:induction false} CounterIsStreak(exits: seq<bool>)
    ensures Counter(exits) == if AllRapid(exits) then Streak(exits) else Streak(exits) + 1
    ensures AllRapid(exits) ==> Streak(exits) == |exits|
  {
    hide AllRapid;
    if exits == [] {
      NoneRapid();
    } else {
      var rest := exits[..|exits| - 1];
      CounterIsStreak(rest);
      assert exits == rest + [exits[|rest|]];
      RapidAppend(rest, exits[|rest|]);
    }
  }

  lemma {:induction false} NoneRapid()
    ensures AllRapid([])
  {}

  lemma {:induction false} RapidAppend(exits: seq<bool>, short: bool)
    ensures AllRapid(exits + [short]) <==> AllRapid(exits) && short
  {
    assert (exits + [short])[|exits|] == short;
    assert forall k :: 0 <= k < |exits| ==> (exits + [short])[k] == exits[k];
  }

  lemma {:induction false} CounterAppend(exits: seq<bool>, short: bool)
    ensures Counter(exits + [short]) == if short then Counter(exits) + 1 else 1
  {
    assert (exits + [short])[..|exits|] == exits;
  }

  // ----- the invariant -----

  /** The child that start or run is dealing with. */
  function Current(pc: Pc): Option<nat> {
    match pc
    case Starting(c) => Some(c)
    case Await(of) => of
    case Spawned(c) => Some(c)
    case Verifying(c) => Some(c)
    case Verified(c) => Some(c)
    case Announcing(c) => Some(c)
    case Killing(c) => Some(c)
    case KillingNew(c) => Some(c)
    case _ => None
  }

  /** Only the current child, which is the newest, can be alive. */
  predicate Children(s: State) {
    && (forall c: nat :: c < s.spawned && c !in s.exited ==> Current(s.pc) == Some(c))
    && (Current(s.pc).Some? ==> s.spawned == Current(s.pc).value + 1)
  }

  /** The current child, once the lock was taken for it, is the published one. */
  predicate Published(s: State) {
    match s.pc
    case NotStarted => s.cmd == None && s.spawned == 0
    case Starting(c) => s.cmd == None && c == 0
    case Spawned(c) => s.cmd.Some? && s.cmd.value < c
    case KillingNew(c) => s.cmd.Some? && s.cmd.value < c && s.done
    case _ =>
      && s.cmd.Some? && s.cmd.value < s.spawned
      && (Current(s.pc).Some? ==> s.cmd == Current(s.pc))
  }

  /** run waits for, or is about to report, an instance that is the first or was verified. */
  predicate Serving(s: State) {
    match s.pc
    case Await(of) => of.Some? && Vetted(s, of.value)
    case Announcing(c) => Vetted(s, c)
    case _ => false
  }

  predicate Vetted(s: State, c: nat) { c == 0 || c in s.verified }

  /** No child is verified before run has asked, and none that was refused. */
  ghost predicate Asked(s: State) {
    && (forall v :: v in s.verified ==> v < s.spawned)
    && (s.pc.Spawned? || s.pc.Verifying? || s.pc.Killing? || s.pc.KillingNew? ==> s.pc.c > 0 && s.pc.c !in s.verified)
    && (s.pc.Announcing? || s.pc.Verified? ==> s.pc.c in s.verified)
  }

  ghost predicate Gate(s: State) {
    && Asked(s)
    && (s.open ==> s.cmd.Some? && Vetted(s, s.cmd.value))
    && (!s.done ==> (s.open <==> Serving(s)))
    && (s.done ==> (s.open <==> s.raced && s.cmd.Some?))
    && (s.done && (s.pc.NotStarted? || s.pc.Starting?) ==> s.raced)
    && (s.raced ==> s.shutdownClosed && (s.cmd.Some? ==> s.cmd.value == 0))
    && (s.raced ==> s.pc.NotStarted? || s.pc.Starting? || s.pc == Await(Some(0)) || s.pc.Returned?)
  }

  predicate Ending(s: State) {
    && (s.shutdownClosed ==> s.done)
    && (s.shut.Never? <==> !s.shutdownClosed)
    && (s.done && !s.shutdownClosed ==> s.pc.Reporting? || s.pc.Returned?)
    && (s.pc.Reporting? ==> s.done && !s.shutdownClosed)
    && (s.pc.Returned? ==> s.done)
    && (s.shut.KillWait? && !s.raced ==> s.shut.of == s.cmd)
    && (s.shut.Over? && !s.raced ==> HasExited(s, s.cmd))
  }

  predicate Counted(s: State) {
    && s.rapid == Counter(s.exits)
    && (s.pc.Deciding? ==> 1 <= s.rapid <= 4)
    && (s.pc.GivingUp? || s.pc.Reporting? ==> s.rapid == 4)
    && (s.rapid >= 4 ==> s.rapid == 4 && (s.pc.Deciding? || s.pc.GivingUp? || s.pc.Reporting? || s.pc.Returned?))
  }

  ghost predicate Reported(s: State) {
    forall k :: 0 <= k < |s.reports| && s.reports[k].GivenUp? ==>
      k == |s.reports| - 1 && s.pc.Returned? && s.done && !s.shutdownClosed && s.rapid == 4
  }

  /** Every spawned child but the newest was published, so the number of restarts is that of the published child. */
  predicate Restarted(s: State) {
    && s.restarts == (if s.cmd.Some? then s.cmd.value else 0)
    && (s.pc.Spawned? ==> s.cmd.Some? && s.pc.c == s.restarts + 1 && s.spawned == s.restarts + 2)
    && (s.pc.Starting? ==> s.pc.c == 0)
    && (s.cmd.Some? && !s.pc.Spawned? && !s.pc.KillingNew? && !s.pc.Returned? ==> s.spawned == s.restarts + 1)
    && (s.cmd.None? ==> s.pc.NotStarted? || s.pc.Starting?)
    && (s.pc.NotStarted? || s.pc.Starting? ==> s.cmd.None? && s.spawned == if s.pc.Starting? then 1 else 0)
  }

  ghost predicate Inv(s: State) {
    Children(s) && Published(s) && Gate(s) && Ending(s) && Counted(s) && Reported(s) && Restarted(s)
  }

  /** Between spawns and exits the current child stays current, or is let go because it has exited. */
  lemma {:induction false} ChildrenStay(s: State, t: State)
    requires Children(s) && t.spawned == s.spawned && s.exited <= t.exited
    requires Current(t.pc) == Current(s.pc) || (Current(t.pc).None? && HasExited(s, Current(s.pc)))
    ensures Children(t)
  {
    hide Current;
  }

  lemma {:induction false} ChildrenSpawn(s: State, t: State)
    requires Children(s) && t.spawned == s.spawned + 1 && t.exited == s.exited
    requires Current(s.pc).None? && Current(t.pc) == Some(s.spawned)
    ensures Children(t)
  {
    hide Current;
  }

  lemma {:induction false} StepChildren(s: State, a: Action)
    requires Enabled(s, a) && Children(s) && Published(s)
    ensures Children(Do(s, a))
  {
    hide Children, RestartPolicy, Published, Current;
    StepCurrent(s, a);
    if a.StartSpawn? || (a.Spawn? && a.ok) {
      ChildrenSpawn(s, Do(s, a));
    } else {
      ChildrenStay(s, Do(s, a));
    }
  }

  lemma {:induction false} StepCurrent(s: State, a: Action)
    requires Enabled(s, a)
    ensures var t := Do(s, a);
      if a.StartSpawn? || (a.Spawn? && a.ok) then Current(s.pc).None? && Current(t.pc) == Some(s.spawned) && t.spawned == s.spawned + 1 && t.exited == s.exited
      else t.spawned == s.spawned && s.exited <= t.exited && (Current(t.pc) == Current(s.pc) || (Current(t.pc).None? && HasExited(s, Current(s.pc))))
  {
    hide RestartPolicy;
  }

  /** The steps that spawn a child or publish one. */
  predicate Spawns(a: Action) { a.StartSpawn? || a.StartPublish? || a.Spawn? || a.Publish? || a.KilledNew? }

  lemma {:induction false} SpawnPublished(s: State, a: Action)
    requires Enabled(s, a) && Published(s) && Spawns(a)
    requires Current(s.pc).Some? ==> s.spawned == Current(s.pc).value + 1
    ensures Published(Do(s, a))
  {
    hide HasExited, RestartPolicy;
  }

  lemma {:induction false} PublishedStays(s: State, t: State)
    requires Published(s) && t.cmd == s.cmd && t.spawned == s.spawned
    requires !t.pc.NotStarted? && !t.pc.Starting? && !t.pc.Spawned? && !t.pc.KillingNew?
    requires !s.pc.NotStarted? && !s.pc.Starting? && !s.pc.Spawned? && !s.pc.KillingNew?
    requires Current(t.pc).None? || Current(t.pc) == Current(s.pc)
    ensures Published(t)
  {}

  lemma {:induction false} PublishedSamePc(s: State, t: State)
    requires Published(s) && t.cmd == s.cmd && t.spawned == s.spawned && t.pc == s.pc && (s.done ==> t.done)
    ensures Published(t)
  {}

  lemma {:induction false} StepPublished(s: State, a: Action)
    requires Enabled(s, a) && Published(s)
    requires Current(s.pc).Some? ==> s.spawned == Current(s.pc).value + 1
    ensures Published(Do(s, a))
  {
    hide HasExited, RestartPolicy, Published;
    if Spawns(a) {
      SpawnPublished(s, a);
    } else if a.ChildExit? || a.Shutdown? || a.ShutReturn? {
      PublishedSamePc(s, Do(s, a));
    } else {
      PublishedStays(s, Do(s, a));
    }
  }

  lemma {:induction false} StepGate(s: State, a: Action)
    requires Enabled(s, a) && Inv(s)
    ensures Gate(Do(s, a))
  {
    hide HasExited, Counter, Reported;
  }

  lemma {:induction false} StepEnding(s: State, a: Action)
    requires Enabled(s, a) && Inv(s)
    ensures Ending(Do(s, a))
  {
    hide Counter, Reported;
  }

  lemma {:induction false} StepCounted(s: State, a: Action)
    requires Enabled(s, a) && Counted(s)
    ensures Counted(Do(s, a))
  {
    hide Counter, HasExited;
    if a.SeeExit? {
      CounterAppend(s.exits, a.short);
    }
  }

  lemma {:induction false} StepRestarted(s: State, a: Action)
    requires Enabled(s, a) && Restarted(s)
    ensures Restarted(Do(s, a))
  {
    hide HasExited, RestartPolicy;
  }

  lemma {:induction false} StepReported(s: State, a: Action)
    requires Enabled(s, a) && Inv(s)
    ensures Reported(Do(s, a))
  {
    hide Counter, HasExited, Children, Gate, Published;
  }

  lemma {:induction false} StepKeepsInv(s: State, a: Action)
    requires Enabled(s, a) && Inv(s)
    ensures Inv(Do(s, a))
  {
    StepChildren(s, a);
    StepPublished(s, a);
    StepGate(s, a);
    StepEnding(s, a);
    StepCounted(s, a);
    StepReported(s, a);
    StepRestarted(s, a);
  }

  lemma {:induction false} RunKeepsInv(states: seq<State>, actions: seq<Action>, k: nat)
    requires Run(states, actions) && k < |states|
    ensures Inv(states[k])
  {
    hide Inv, Enabled, Do;
    if k == 0 {
      InitInv();
    } else {
      RunKeepsInv(states, actions, k - 1);
      StepKeepsInv(states[k - 1], actions[k - 1]);
    }
  }

  lemma {:induction false} InitInv()
    ensures Inv(Init)
  {}

  // ----- what holds in every reachable state -----

  predicate Live(s: State, c: nat) { c < s.spawned && c !in s.exited }

  /** At most one child is alive, and run does not return before the last has exited. */
  lemma {:induction false} AtMostOneChild(states: seq<State>, actions: seq<Action>, k: nat, c: nat, d: nat)
    requires Run(states, actions) && k < |states|
    ensures Live(states[k], c) && Live(states[k], d) ==> c == d
    ensures states[k].pc.Returned? ==> !Live(states[k], c)
  {
    hide Run;
    RunKeepsInv(states, actions, k);
  }

  /** Until run is done the gate is open exactly while run waits for, or is about to report, an instance that is the
      first or was verified after its spawn; and it is never open for any other. */
  lemma {:induction false} GateIsVetted(states: seq<State>, actions: seq<Action>, k: nat)
    requires Run(states, actions) && k < |states|
    ensures !states[k].done ==> (states[k].open <==> Serving(states[k]))
    ensures states[k].open ==> states[k].cmd.Some? && Vetted(states[k], states[k].cmd.value)
  {
    hide Run;
    RunKeepsInv(states, actions, k);
  }

  /** The restart count that is reported is the number of the published instance, the first being number 0. */
  lemma {:induction false} RestartsAreInstances(states: seq<State>, actions: seq<Action>, k: nat)
    requires Run(states, actions) && k < |states| && states[k].cmd.Some?
    ensures states[k].restarts == states[k].cmd.value
  {
    hide Run;
    RunKeepsInv(states, actions, k);
  }

  /** What is verified is what verifyRespawn said yes to, while run was asking about it. */
  lemma {:induction false} VerifiedWasAsked(states: seq<State>, actions: seq<Action>, k: nat, c: nat)
    requires Run(states, actions) && k < |states|
    ensures c in states[k].verified <==> exists j :: 0 <= j < k && states[j].pc == Verifying(c) && actions[j] == VerifyEnd(true)
  {
    hide Enabled, Do;
    if k > 0 {
      VerifiedWasAsked(states, actions, k - 1, c);
      VerifiedStep(states[k - 1], actions[k - 1]);
    }
  }

  lemma {:induction false} VerifiedStep(s: State, a: Action)
    requires Enabled(s, a)
    ensures Do(s, a).verified == if a == VerifyEnd(true) && s.pc.Verifying? then s.verified + {s.pc.c} else s.verified
    ensures a == VerifyEnd(true) ==> s.pc.Verifying?
  {
    hide HasExited;
  }

  /** Once run is done, the gate is closed: unless the shutdown came before start had published its
      child, for start then opens the gate without looking, and it stays open. */
  lemma {:induction false} DoneMeansClosed(states: seq<State>, actions: seq<Action>, k: nat)
    requires Run(states, actions) && k < |states| && states[k].done
    ensures states[k].open <==> states[k].raced && states[k].cmd.Some?
  {
    hide Run;
    RunKeepsInv(states, actions, k);
  }

  /** Such a race, step by step. */
  lemma {:induction false} RacedShutdownLeavesGateOpen()
    ensures var s := Do(Do(Do(Init, StartSpawn), Shutdown), StartPublish);
      s.done && s.open && s.raced
  {}

  /** done, a shutdown that took effect and the return of run are permanent. */
  lemma {:induction false} DoneIsPermanent(states: seq<State>, actions: seq<Action>, j: nat, k: nat)
    requires Run(states, actions) && j <= k < |states|
    ensures states[j].done ==> states[k].done
    ensures states[j].shutdownClosed ==> states[k].shutdownClosed
    ensures states[j].pc.Returned? ==> states[k].pc.Returned?
    decreases k - j
  {
    hide Enabled, Do;
    if j < k {
      DoneIsPermanent(states, actions, j, k - 1);
      StepKeepsEnds(states[k - 1], actions[k - 1]);
    }
  }

  lemma {:induction false} StepKeepsEnds(s: State, a: Action)
    requires Enabled(s, a)
    ensures s.done ==> Do(s, a).done
    ensures s.shutdownClosed ==> Do(s, a).shutdownClosed
    ensures s.pc.Returned? ==> Do(s, a).pc.Returned?
  {
    hide HasExited;
  }

  /** A shutdown that took effect is never followed, or preceded, by a report of giving up; that
      report comes at most once, and last. */
  lemma {:induction false} NoGivenUpWithShutdown(states: seq<State>, actions: seq<Action>, k: nat, i: nat)
    requires Run(states, actions) && k < |states| && i < |states[k].reports| && states[k].reports[i].GivenUp?
    ensures !states[k].shutdownClosed && i == |states[k].reports| - 1
    ensures Counter(states[k].exits) == 4
  {
    hide Run;
    RunKeepsInv(states, actions, k);
  }

  /** When shutdown has returned, only a child that run spawned meanwhile can be alive, and run is
      about to kill it. */
  lemma {:induction false} AfterShutdown(states: seq<State>, actions: seq<Action>, k: nat, c: nat)
    requires Run(states, actions) && k < |states| && states[k].shut.Over? && !states[k].raced
    requires Live(states[k], c)
    ensures states[k].pc == Spawned(c) || states[k].pc == KillingNew(c)
  {
    hide Run, Counter;
    RunKeepsInv(states, actions, k);
  }

  /** How many steps of its own run can still take once done is set. */
  function Rank(pc: Pc): nat {
    match pc
    case Deciding => 7
    case Backoff => 6
    case Respawning => 5
    case NotStarted => 5
    case Spawned(_) => 4
    case Starting(_) => 4
    case Verifying(_) => 3
    case Verified(_) => 2
    case Announcing(_) => 2
    case Killing(_) => 2
    case Returned => 0
    case _ => 1
  }

  /** The steps that start, and then run, takes. */
  predicate ByRun(a: Action) { !a.ChildExit? && !a.Shutdown? && !a.ShutReturn? }

  function OwnSteps(actions: seq<Action>): nat {
    if actions == [] then 0
    else OwnSteps(actions[..|actions| - 1]) + (if ByRun(actions[|actions| - 1]) then 1 else 0)
  }

  lemma {:induction false} StepUsesRank(s: State, a: Action)
    requires Enabled(s, a) && s.done
    ensures if ByRun(a) then Rank(Do(s, a).pc) < Rank(s.pc) else Do(s, a).pc == s.pc
  {
    hide HasExited;
  }

  /** Once done is set, by a shutdown or by giving up, run takes at most seven more steps of its own, and has
      then returned; the rest of the world cannot set it back. */
  lemma {:induction false} DoneMeansReturning(states: seq<State>, actions: seq<Action>, j: nat, k: nat)
    requires Run(states, actions) && j <= k < |states| && states[j].done
    ensures OwnSteps(actions[j..k]) + Rank(states[k].pc) <= Rank(states[j].pc) <= 7
    ensures OwnSteps(actions[j..k]) >= Rank(states[j].pc) ==> states[k].pc.Returned?
    decreases k - j
  {
    hide Enabled, Do;
    if j < k {
      DoneMeansReturning(states, actions, j, k - 1);
      DoneIsPermanent(states, actions, j, k - 1);
      StepUsesRank(states[k - 1], actions[k - 1]);
      assert actions[j..k][..k - j - 1] == actions[j..k - 1];
    } else {
      assert actions[j..k] == [];
    }
  }

  /** And it can always take the next step, once the child it waits for has exited. */
  lemma {:induction false} RunIsNotStuck(s: State)
    requires !s.pc.Returned? && HasExited(s, Current(s.pc))
    ensures exists a :: Enabled(s, a) && !a.ChildExit? && !a.Shutdown? && !a.ShutReturn?
  {
    hide RestartPolicy;
    var a := match s.pc
      case NotStarted => StartSpawn
      case Starting(_) => StartPublish
      case Await(_) => SeeExit(true)
      case Deciding => Decide
      case GivingUp => GiveUp
      case Reporting => ReportGiveUp
      case Backoff => EndBackoff
      case Respawning => Spawn(true)
      case Spawned(_) => Publish
      case Verifying(_) => VerifyEnd(true)
      case Verified(_) => OpenGate
      case Announcing(_) => Announce
      case Killing(_) => Killed
      case KillingNew(_) => KilledNew;
    assert Enabled(s, a);
  }

  /** The loop gives up when the counter is at four: that is the fourth rapid exit in a row as long as
      no instance has lived long. A long life sets the counter to one, not to zero, so three rapid
      exits are then enough: the rule of four consecutive rapid exits holds of a decision exactly when
      it is not the third rapid exit after such a life. */
  lemma {:induction false} GivesUpAtFour(states: seq<State>, actions: seq<Action>, k: nat)
    requires Run(states, actions) && k < |states| && states[k].pc.Deciding?
    ensures var exits := states[k].exits;
      var gives := Do(states[k], Decide).pc.GivingUp?;
      && (gives <==> Counter(exits) == 4) && Streak(exits) <= 4
      && ((gives <==> Streak(exits) == 4) <==> AllRapid(exits) || Streak(exits) != 3)
  {
    hide Run, Streak, Counter, AllRapid;
    RunKeepsInv(states, actions, k);
    CounterIsStreak(states[k].exits);
  }

  ghost predicate RunTo(states: seq<State>, actions: seq<Action>, s: State) {
    Run(states, actions) && states[|actions|] == s
  }

  /** A run goes on with an enabled step. */
  lemma {:induction false} Extend(states: seq<State>, actions: seq<Action>, s: State, a: Action)
      returns (states': seq<State>, actions': seq<Action>)
    requires RunTo(states, actions, s) && Enabled(s, a)
    ensures RunTo(states', actions', Do(s, a))
  {
    hide Enabled, Do;
    states', actions' := states + [Do(s, a)], actions + [a];
    forall k | 0 <= k < |actions'|
      ensures Enabled(states'[k], actions'[k]) && states'[k + 1] == Do(states'[k], actions'[k])
    {
      if k < |actions| {
        assert Enabled(states[k], actions[k]);
      }
    }
  }

  /** The loop is about to decide; children have numbers below the next one. */
  predicate BetweenLives(s: State) {
    s.pc.Deciding? && s.rapid > 0 && !s.done && forall c :: c in s.exited ==> c < s.spawned
  }

  /** The loop spawns one more instance. */
  lemma {:induction false} NextSpawn(states: seq<State>, actions: seq<Action>, s: State)
      returns (states': seq<State>, actions': seq<Action>)
    requires RunTo(states, actions, s) && s.pc.Deciding? && 0 < s.rapid < 4
    ensures RunTo(states', actions', s.(pc := Spawned(s.spawned), spawned := s.spawned + 1, reports := s.reports + [Restarting(s.restarts)]))
  {
    hide RunTo;
    states', actions' := Extend(states, actions, s, Decide);
    var t := s.(pc := Backoff, reports := s.reports + [Restarting(s.restarts)]);
    states', actions' := Extend(states', actions', t, EndBackoff);
    states', actions' := Extend(states', actions', t.(pc := Respawning), Spawn(true));
  }

  /** It comes up. */
  lemma {:induction false} NextUp(states: seq<State>, actions: seq<Action>, s: State)
      returns (states': seq<State>, actions': seq<Action>, t: State)
    requires RunTo(states, actions, s) && s.pc.Spawned? && !s.done
    ensures RunTo(states', actions', t) && t.pc == Await(Some(s.pc.c)) && !t.done
    ensures t.exited == s.exited && t.spawned == s.spawned && t.rapid == s.rapid && t.exits == s.exits
  {
    hide RunTo;
    states', actions' := Extend(states, actions, s, Action.Publish);
    var u := s.(cmd := Some(s.pc.c), restarts := s.restarts + 1, pc := Verifying(s.pc.c));
    states', actions' := Extend(states', actions', u, VerifyEnd(true));
    var v := u.(pc := Verified(s.pc.c), verified := u.verified + {s.pc.c});
    states', actions' := Extend(states', actions', v, OpenGate);
    t := v.(open := true, pc := Announcing(s.pc.c));
    states', actions' := Extend(states', actions', t, Announce);
    t := t.(pc := Await(Some(s.pc.c)), reports := t.reports + [Up(t.restarts)]);
  }

  /** And exits. */
  lemma {:induction false} NextExit(states: seq<State>, actions: seq<Action>, s: State, short: bool)
      returns (states': seq<State>, actions': seq<Action>, t: State)
    requires RunTo(states, actions, s) && s.pc.Await? && s.pc.of.Some? && s.pc.of.value < s.spawned && s.pc.of.value !in s.exited && !s.done
    requires forall c :: c in s.exited ==> c < s.spawned
    ensures RunTo(states', actions', t) && BetweenLives(t)
    ensures t.rapid == (if short then s.rapid + 1 else 1) && t.exits == s.exits + [short]
  {
    hide RunTo;
    var c := s.pc.of.value;
    states', actions' := Extend(states, actions, s, ChildExit(c));
    var u := s.(exited := s.exited + {c});
    states', actions' := Extend(states', actions', u, SeeExit(short));
    t := u.(open := false, pc := Deciding, rapid := if short then s.rapid + 1 else 1, exits := s.exits + [short]);
  }

  lemma {:induction false} NextLife(states: seq<State>, actions: seq<Action>, s: State)
      returns (states': seq<State>, actions': seq<Action>, t: State)
    requires RunTo(states, actions, s) && BetweenLives(s) && s.rapid < 4
    ensures RunTo(states', actions', t) && BetweenLives(t) && t.rapid == s.rapid + 1 && t.exits == s.exits + [true]
  {
    hide RunTo;
    states', actions' := NextSpawn(states, actions, s);
    var u := s.(pc := Spawned(s.spawned), spawned := s.spawned + 1, reports := s.reports + [Restarting(s.restarts)]);
    states', actions', t := NextUp(states', actions', u);
    states', actions', t := NextExit(states', actions', t, true);
  }

  /** A run in which the loop gives up after the third rapid exit in a row, since its first instance had lived long. */
  lemma {:induction false} LongLifeCountsAsOne() returns (states: seq<State>, actions: seq<Action>)
    ensures Run(states, actions) && states[|actions|].pc.GivingUp?
    ensures states[|actions|].exits == [false, true, true, true] && Streak(states[|actions|].exits) == 3
  {
    hide Enabled, Streak;
    var s: State;
    states, actions, s := LongLife();
    states, actions, s := NextLife(states, actions, s);
    states, actions, s := NextLife(states, actions, s);
    states, actions, s := NextLife(states, actions, s);
    assert s.exits == [false, true, true, true];
    StreakOfThree();
    DecideAtFour(s);
    states, actions := Extend(states, actions, s, Decide);
  }

  lemma {:induction false} LongLife() returns (states: seq<State>, actions: seq<Action>, s: State)
    ensures RunTo(states, actions, s) && BetweenLives(s) && s.rapid == 1 && s.exits == [false]
  {
    states, actions := [Init], [];
    assert RunTo(states, actions, Init);
    hide RunTo;
    states, actions := Extend(states, actions, Init, Action.StartSpawn);
    s := Init.(spawned := 1, pc := Starting(0));
    states, actions := Extend(states, actions, s, Action.StartPublish);
    states, actions, s := NextExit(states, actions, s.(cmd := Some(0), open := true, pc := Await(Some(0))), false);
  }

  lemma {:induction false} DecideAtFour(s: State)
    requires s.pc.Deciding? && s.rapid == 4
    ensures Enabled(s, Decide) && Do(s, Decide) == s.(pc := GivingUp)
  {}

  lemma {:induction false} StreakOfThree()
    ensures Streak([false, true, true, true]) == 3
  {
    var e := [false, true, true, true];
    assert e[..3] == [false, true, true] && e[..3][..2] == [false, true] && e[..3][..2][..1] == [false];
    assert Streak([false]) == 0 && Streak([false, true]) == 1 && Streak([false, true, true]) == 2;
  }

  lemma {:induction false} ShutdownStep(s: State)
    ensures Do(s, Action.Shutdown) == DoShutdown(s)
  {}

  // ----- the object -----

  /** The supervisor as an object: each method is one atomic section of start, run, giveUp or
      shutdown, so any interleaving of calls is a run. */
  class Supervisor {
    var cmd: Option<nat>
    var open: bool
    var restarts: nat
    var done: bool
    var shutdownClosed: bool
    var pc: Pc
    var rapid: nat
    var shut: Shut
    var spawned: nat
    ghost var exited: set<nat>
    ghost var verified: set<nat>
    ghost var exits: seq<bool>
    ghost var raced: bool
    var reports: seq<Report>

    ghost function Now(): State
      reads this
    {
      State(cmd, open, restarts, done, shutdownClosed, pc, rapid, shut, spawned, exited, verified, exits, raced, reports)
    }

    /** newFrontDoor */
    constructor ()
      ensures Now() == Init && Inv(Now())
    {
      cmd, open, restarts, done, shutdownClosed := None, false, 0, false, false;
      pc, rapid, shut, spawned, reports := NotStarted, 0, Never, 0, [];
      exited, verified, exits, raced := {}, {}, [], false;
    }

    /** start, up to its lock. */
    method StartChild()
      requires pc.NotStarted?
      modifies this
      ensures Now() == Do(old(Now()), Action.StartSpawn)
    {
      pc := Starting(spawned);
      spawned := spawned + 1;
    }

    /** start, under the lock, and the launch of run. */
    method PublishFirst()
      requires pc.Starting?
      modifies this
      ensures Now() == Do(old(Now()), Action.StartPublish)
    {
      cmd, open := Some(pc.c), true;
      pc := Await(cmd);
    }

    /** run: the lock after an exit, and the counter. */
    method CountExit(short: bool)
      requires pc.Await? && HasExited(Now(), pc.of)
      modifies this
      ensures Now() == Do(old(Now()), SeeExit(short))
    {
      if done {
        pc := Returned;
        return;
      }
      open := false;
      if short {
        rapid := rapid + 1;
      } else {
        rapid := 1;
      }
      exits := exits + [short];
      pc := Deciding;
    }

    /** run: the restart policy. */
    method ApplyPolicy() returns (delay: nat)
      requires pc.Deciding?
      modifies this
      ensures Now() == Do(old(Now()), Decide)
      ensures pc.Backoff? ==> delay == if rapid == 1 then 500 else if rapid == 2 then 2000 else 5000
    {
      var policy := RestartPolicy(rapid - 1);
      if policy.None? {
        pc := GivingUp;
        return 0;
      }
      reports := reports + [Restarting(restarts)];
      pc := Backoff;
      return policy.value;
    }

    /** giveUp, under the lock. */
    method DeclareLost()
      requires pc.GivingUp?
      modifies this
      ensures Now() == Do(old(Now()), Action.GiveUp)
    {
      if done {
        pc := Returned;
      } else {
        done, open, pc := true, false, Reporting;
      }
    }

    /** run: the lock after a respawn. */
    method PublishNext()
      requires pc.Spawned?
      modifies this
      ensures Now() == Do(old(Now()), Action.Publish)
    {
      var next := pc.c;
      if done {
        pc := KillingNew(next);
        return;
      }
      cmd, restarts := Some(next), restarts + 1;
      pc := Verifying(next);
    }

    /** run: the lock after verifyRespawn said yes. */
    method Reopen()
      requires pc.Verified?
      modifies this
      ensures Now() == Do(old(Now()), Action.OpenGate)
    {
      var ok := !done;
      open := ok;
      if ok {
        pc := Announcing(pc.c);
      } else {
        pc := Await(Some(pc.c));
      }
    }

    /** shutdown, under the lock: the child it has to kill, if it took effect. */
    method BeginShutdown() returns (kill: Option<nat>)
      modifies this
      ensures Now() == Do(old(Now()), Action.Shutdown)
      ensures kill == if old(done) then None else old(cmd)
    {
      hide Do;
      ShutdownStep(Now());
      if done {
        return None;
      }
      done, open, shutdownClosed := true, false, true;
      raced := pc.NotStarted? || pc.Starting?;
      shut := KillWait(cmd);
      return cmd;
    }
  }
}

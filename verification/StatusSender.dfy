/** gen/statussender.go: a one-slot, latest-wins mailbox with a single sender. */
module StatusSender {
  import opened Options

  /** A deposited post; number counts the deposits in the order in which they took the lock. */
  datatype Post = Post(number: nat, url: string)

  /** Where the sender goroutine is. */
  datatype Sender =
    | Waiting                              // in the select of run
    | Taking                               // about to call takePending in run
    | Trying(post: Post, attempts: nat)    // at the head of deliver's loop
    | Posting(post: Post, attempts: nat)   // the request is under way
    | Backoff(post: Post, attempts: nat)   // asleep after a failed attempt
    | Stopped
  {
    function Held(): Option<Post> {
      match this
      case Trying(p, _) => Some(p)
      case Posting(p, _) => Some(p)
      case Backoff(p, _) => Some(p)
      case _ => None
    }

    /** The attempts that deliver has started for the post it holds. */
    function Started(): nat {
      match this
      case Trying(_, n) => n
      case Posting(_, n) => n + 1
      case Backoff(_, n) => n
      case _ => 0
    }
  }

  /** What happened to a deposit. All but Attempted end its life. */
  datatype Event =
    | Attempted(n: nat)
    | Delivered(n: nat)
    | Dropped(n: nat)      // its gate was closed, or no request could be made for its URL
    | Exhausted(n: nat)    // every attempt failed
    | Overwritten(n: nat)  // replaced in the mailbox
    | Superseded(n: nat)   // replaced in the hands of the sender during its sleep
    | Aborted(n: nat)      // the sender stopped

  /** The shared fields, the sender's local state, and the history. midStep counts depositors that
      have left the lock and not yet offered their wake token. */
  datatype State = State(
    pending: Option<Post>, wake: bool, cancelled: bool, sender: Sender,
    midStep: nat, deposited: nat, log: seq<Event>)

  datatype Action =
    | Put(url: string)                               // deposit, under the lock
    | Signal                                         // deposit, the select
    | Cancel
    | WakeUp                                         // run receives a token
    | Take                                           // run calls takePending
    | Try(gateOpen: bool, wellFormed: bool)          // deliver, to the start of client.Do
    | Finish(ok: bool)                               // client.Do returns
    | Resume                                         // the backoff ends, deliver calls takePending
    | Exit                                           // ctx.Done is received

  const MAX_ATTEMPTS := 10

  const Init := State(None, false, false, Waiting, 0, 0, [])

  /** deposit ignores a disabled or same-origin target. */
  predicate Depositable(url: string) { url != "" && url[0] != '/' }

  // ----- the steps -----

  predicate Enabled(s: State, a: Action) {
    match a
    case Put(url) => Depositable(url)
    case Signal => s.midStep > 0
    case Cancel => true
    case WakeUp => s.sender.Waiting? && s.wake
    case Take => s.sender.Taking?
    case Try(_, _) => s.sender.Trying?
    case Finish(_) => s.sender.Posting?
    case Resume => s.sender.Backoff?
    case Exit => s.cancelled && (s.sender.Waiting? || s.sender.Backoff?)
  }

  function DoPut(s: State, url: string): State {
    s.(pending := Some(Post(s.deposited + 1, url)), deposited := s.deposited + 1, midStep := s.midStep + 1,
       log := if s.pending.Some? then s.log + [Overwritten(s.pending.value.number)] else s.log)
  }

  function DoTake(s: State): State {
    s.(pending := None, sender := if s.pending.Some? then Trying(s.pending.value, 0) else Waiting)
  }

  function DoTry(s: State, gateOpen: bool, wellFormed: bool): State
    requires s.sender.Trying?
  {
    var n := s.sender.post.number;
    if s.sender.attempts >= MAX_ATTEMPTS then s.(sender := Taking, log := s.log + [Exhausted(n)])
    else if !gateOpen || !wellFormed then s.(sender := Taking, log := s.log + [Dropped(n)])
    else s.(sender := Posting(s.sender.post, s.sender.attempts), log := s.log + [Attempted(n)])
  }

  function DoFinish(s: State, ok: bool): State
    requires s.sender.Posting?
  {
    if ok then s.(sender := Taking, log := s.log + [Delivered(s.sender.post.number)])
    else s.(sender := Backoff(s.sender.post, s.sender.attempts + 1))
  }

  function DoResume(s: State): State
    requires s.sender.Backoff?
  {
    if s.pending.Some? then
      s.(pending := None, sender := Trying(s.pending.value, 0), log := s.log + [Superseded(s.sender.post.number)])
    else s.(sender := Trying(s.sender.post, s.sender.attempts))
  }

  function DoExit(s: State): State {
    s.(sender := Stopped, log := if s.sender.Backoff? then s.log + [Aborted(s.sender.post.number)] else s.log)
  }

  function Do(s: State, a: Action): State
    requires Enabled(s, a)
  {
    match a
    case Put(url) => DoPut(s, url)
    case Signal => s.(midStep := s.midStep - 1, wake := true)
    case Cancel => s.(cancelled := true)
    case WakeUp => s.(sender := Taking, wake := false)
    case Take => DoTake(s)
    case Try(gateOpen, wellFormed) => DoTry(s, gateOpen, wellFormed)
    case Finish(ok) => DoFinish(s, ok)
    case Resume => DoResume(s)
    case Exit => DoExit(s)
  }

  /** A run: any interleaving of the steps of any number of depositors and of the sender. */
  ghost predicate Run(states: seq<State>, actions: seq<Action>) {
    && |states| == |actions| + 1 && states[0] == Init
    && forall k :: 0 <= k < |actions| ==> Enabled(states[k], actions[k]) && states[k + 1] == Do(states[k], actions[k])
  }

  // ----- counting -----

  predicate IsFate(e: Event) { !e.Attempted? }

  /** How often deposit n was disposed of. */
  function Fates(log: seq<Event>, n: nat): nat {
    if log == [] then 0
    else Fates(log[..|log| - 1], n) + (if IsFate(log[|log| - 1]) && log[|log| - 1].n == n then 1 else 0)
  }

  /** How often deposit n was posted. */
  function Attempts(log: seq<Event>, n: nat): nat {
    if log == [] then 0
    else Attempts(log[..|log| - 1], n) + (if log[|log| - 1] == Attempted(n) then 1 else 0)
  }

  lemma {:induction false} CountsAppend(log: seq<Event>, e: Event, n: nat)
    ensures Fates(log + [e], n) == Fates(log, n) + (if IsFate(e) && e.n == n then 1 else 0)
    ensures Attempts(log + [e], n) == Attempts(log, n) + (if e == Attempted(n) then 1 else 0)
  {
    assert (log + [e])[..|log|] == log;
  }

  lemma {:induction false} FateIsLogged(log: seq<Event>, n: nat)
    ensures Fates(log, n) > 0 <==> exists k :: 0 <= k < |log| && IsFate(log[k]) && log[k].n == n
  {
    if log != [] {
      var rest := log[..|log| - 1];
      FateIsLogged(rest, n);
      if k :| 0 <= k < |log| && IsFate(log[k]) && log[k].n == n {
        if k < |rest| {
          assert rest[k] == log[k];
        }
      }
      if Fates(rest, n) > 0 {
        var k :| 0 <= k < |rest| && IsFate(rest[k]) && rest[k].n == n;
        assert log[k] == rest[k];
      }
    }
  }

  // ----- the invariant -----

  /** The newest deposit that was taken out of the mailbox. */
  function Taken(s: State): int { if s.pending.Some? then s.deposited - 1 else s.deposited }

  function Has(p: Option<Post>, n: nat): nat { if p.Some? && p.value.number == n then 1 else 0 }

  /** The mailbox holds the newest deposit, and what the sender holds is older. */
  predicate Numbered(s: State) {
    && (s.pending.Some? ==> s.pending.value.number == s.deposited > 0)
    && (s.sender.Held().Some? ==> 0 < s.sender.Held().value.number <= Taken(s))
    && s.sender.Started() <= MAX_ATTEMPTS
    && (s.sender.Posting? ==> s.sender.attempts < MAX_ATTEMPTS)
  }

  /** Every deposit is in exactly one place: the mailbox, the sender's hands, or disposed of once. */
  predicate Conserved(s: State, n: nat) {
    Fates(s.log, n) + Has(s.pending, n) + Has(s.sender.Held(), n) == if 1 <= n <= s.deposited then 1 else 0
  }

  /** The sender's counter is the number of attempts of the post it holds, and no post exceeds its budget. */
  predicate Budgeted(s: State, n: nat) {
    && Attempts(s.log, n) <= MAX_ATTEMPTS
    && (n > Taken(s) ==> Attempts(s.log, n) == 0)
    && (s.sender.Held().Some? && s.sender.Held().value.number == n ==> Attempts(s.log, n) == s.sender.Started())
  }

  /** What the log says of a single event. */
  predicate Justified(s: State, e: Event) {
    match e
    case Attempted(n) => n <= Taken(s) && (s.sender.Held().Some? ==> n <= s.sender.Held().value.number)
    case Delivered(n) => n <= Taken(s) && (s.sender.Held().Some? ==> n < s.sender.Held().value.number)
    case Dropped(n) => true
    case Exhausted(n) => Attempts(s.log, n) == MAX_ATTEMPTS
    case Overwritten(n) => n < s.deposited
    case Superseded(n) => n < s.deposited
    case Aborted(n) => s.cancelled
  }

  ghost predicate AllJustified(s: State) {
    forall k :: 0 <= k < |s.log| ==> Justified(s, s.log[k])
  }

  /** Attempts never go back to an older deposit; deliveries only go forward. */
  predicate InOrder(e: Event, f: Event) {
    && (e.Attempted? && f.Attempted? ==> e.n <= f.n)
    && (e.Delivered? && f.Delivered? ==> e.n < f.n)
  }

  ghost predicate Ordered(log: seq<Event>) {
    forall i, j :: 0 <= i < j < |log| ==> InOrder(log[i], log[j])
  }

  /** No lost wakeup. */
  predicate Awake(s: State) {
    s.sender.Waiting? && s.pending.Some? ==> s.wake || s.midStep > 0
  }

  ghost predicate Inv(s: State) {
    && Numbered(s) && Awake(s) && AllJustified(s) && Ordered(s.log)
    && (forall n :: Conserved(s, n)) && (forall n :: Budgeted(s, n))
    && (s.sender.Stopped? ==> s.cancelled)
  }

  // ----- the invariant is kept -----

  /** The event that a step logs, if any. */
  function EventOf(s: State, a: Action): Option<Event>
    requires Enabled(s, a)
  {
    match a
    case Put(_) => if s.pending.Some? then Some(Overwritten(s.pending.value.number)) else None
    case Try(gateOpen, wellFormed) =>
      var n := s.sender.post.number;
      Some(if s.sender.attempts >= MAX_ATTEMPTS then Exhausted(n) else if gateOpen && wellFormed then Attempted(n) else Dropped(n))
    case Finish(ok) => if ok then Some(Delivered(s.sender.post.number)) else None
    case Resume => if s.pending.Some? then Some(Superseded(s.sender.post.number)) else None
    case Exit => if s.sender.Backoff? then Some(Aborted(s.sender.post.number)) else None
    case _ => None
  }

  lemma {:induction false} LogGrows(s: State, a: Action)
    requires Enabled(s, a)
    ensures Do(s, a).log == match EventOf(s, a) case None => s.log case Some(e) => s.log + [e]
  {}

  lemma {:induction false} CountsGrow(s: State, a: Action, n: nat)
    requires Enabled(s, a)
    ensures Fates(Do(s, a).log, n) == Fates(s.log, n)
      + (if EventOf(s, a).Some? && IsFate(EventOf(s, a).value) && EventOf(s, a).value.n == n then 1 else 0)
    ensures Attempts(Do(s, a).log, n) == Attempts(s.log, n) + (if EventOf(s, a) == Some(Attempted(n)) then 1 else 0)
  {
    hide Do, EventOf, Fates, Attempts;
    LogGrows(s, a);
    if EventOf(s, a).Some? {
      CountsAppend(s.log, EventOf(s, a).value, n);
    }
  }

  lemma {:induction false} StepNumbered(s: State, a: Action)
    requires Enabled(s, a) && Numbered(s)
    ensures Numbered(Do(s, a))
  {}

  lemma {:induction false} StepAwake(s: State, a: Action)
    requires Enabled(s, a) && Awake(s)
    ensures Awake(Do(s, a))
  {}

  lemma {:induction false} StepConserved(s: State, a: Action, n: nat)
    requires Enabled(s, a) && Numbered(s) && Conserved(s, n)
    ensures Conserved(Do(s, a), n)
  {
    hide Fates, Attempts;
    CountsGrow(s, a, n);
  }

  lemma {:induction false} StepBudgeted(s: State, a: Action, n: nat)
    requires Enabled(s, a) && Numbered(s) && Budgeted(s, n)
    ensures Budgeted(Do(s, a), n)
  {
    hide Fates, Attempts;
    CountsGrow(s, a, n);
  }

  lemma {:induction false} OldStaysJustified(s: State, a: Action, k: nat)
    requires Enabled(s, a) && Inv(s) && k < |s.log|
    ensures Justified(Do(s, a), s.log[k])
  {
    hide Fates, Attempts;
    var e := s.log[k];
    assert Justified(s, e);
    CountsGrow(s, a, e.n);
    if IsFate(e) {
      FateIsLogged(s.log, e.n);
      assert Conserved(s, e.n);
    }
  }

  lemma {:induction false} NewIsJustified(s: State, a: Action)
    requires Enabled(s, a) && Inv(s) && EventOf(s, a).Some?
    ensures Justified(Do(s, a), EventOf(s, a).value)
  {
    hide Fates, Attempts;
    var n := EventOf(s, a).value.n;
    CountsGrow(s, a, n);
    assert Budgeted(s, n);
  }

  lemma {:induction false} NewIsInOrder(s: State, a: Action, k: nat)
    requires Enabled(s, a) && Inv(s) && EventOf(s, a).Some? && k < |s.log|
    ensures InOrder(s.log[k], EventOf(s, a).value)
  {
    assert Justified(s, s.log[k]);
  }

  /** Every step keeps the invariant. */
  lemma {:induction false} StepKeepsInv(s: State, a: Action)
    requires Enabled(s, a) && Inv(s)
    ensures Inv(Do(s, a))
  {
    hide Conserved, Budgeted, Justified, InOrder, EventOf, Numbered, Awake;
    var t := Do(s, a);
    StepNumbered(s, a);
    StepAwake(s, a);
    LogGrows(s, a);
    forall n: nat
      ensures Conserved(t, n) && Budgeted(t, n)
    {
      StepConserved(s, a, n);
      StepBudgeted(s, a, n);
    }
    forall k | 0 <= k < |t.log|
      ensures Justified(t, t.log[k])
    {
      if k < |s.log| {
        OldStaysJustified(s, a, k);
      } else {
        NewIsJustified(s, a);
      }
    }
    forall i, j | 0 <= i < j < |t.log|
      ensures InOrder(t.log[i], t.log[j])
    {
      if j == |s.log| {
        NewIsInOrder(s, a, i);
      }
    }
  }

  lemma {:induction false} RunKeepsInv(states: seq<State>, actions: seq<Action>, k: nat)
    requires Run(states, actions) && k < |states|
    ensures Inv(states[k])
  {
    if k > 0 {
      RunKeepsInv(states, actions, k - 1);
      StepKeepsInv(states[k - 1], actions[k - 1]);
    }
  }

  // ----- what the invariant says -----

  /** The sender has nothing to do, and no depositor is about to wake it. */
  predicate Idle(s: State) { s.sender.Waiting? && !s.wake && s.midStep == 0 }

  /** The post got through, was dropped by its gate or URL, or failed all attempts of its own budget. */
  ghost predicate Settled(s: State, n: nat) {
    exists k :: 0 <= k < |s.log| && (s.log[k] == Delivered(n) || s.log[k] == Dropped(n)
      || (s.log[k] == Exhausted(n) && Attempts(s.log, n) == 10))
  }

  /** Whenever the sender is idle, the newest deposit was settled: it was neither lost nor replaced. */
  lemma {:induction false} IdleMeansSettled(states: seq<State>, actions: seq<Action>, k: nat)
    requires Run(states, actions) && k < |states|
    requires Idle(states[k]) && !states[k].cancelled
    ensures states[k].pending.None?
    ensures states[k].deposited > 0 ==> Settled(states[k], states[k].deposited)
  {
    hide Fates, Attempts, Run;
    RunKeepsInv(states, actions, k);
    var s := states[k];
    var n := s.deposited;
    if n > 0 {
      assert Conserved(s, n);
      FateIsLogged(s.log, n);
      var j :| 0 <= j < |s.log| && IsFate(s.log[j]) && s.log[j].n == n;
      assert Justified(s, s.log[j]);
    }
  }

  /** A post in the mailbox is never forgotten: the sender is at work, or a wakeup is on its way. */
  lemma {:induction false} NoLostWakeup(states: seq<State>, actions: seq<Action>, k: nat)
    requires Run(states, actions) && k < |states|
    requires states[k].pending.Some? && !states[k].cancelled
    ensures (!states[k].sender.Waiting? && !states[k].sender.Stopped?) || states[k].wake || states[k].midStep > 0
  {
    RunKeepsInv(states, actions, k);
  }

  /** Over a whole run the attempted deposits never go back, and the delivered ones only go forward. */
  lemma {:induction false} DeliveriesInOrder(states: seq<State>, actions: seq<Action>, i: nat, j: nat)
    requires Run(states, actions) && i < j < |states[|actions|].log|
    ensures var log := states[|actions|].log;
      && (log[i].Attempted? && log[j].Attempted? ==> log[i].n <= log[j].n)
      && (log[i].Delivered? && log[j].Delivered? ==> log[i].n < log[j].n)
  {
    RunKeepsInv(states, actions, |actions|);
    assert InOrder(states[|actions|].log[i], states[|actions|].log[j]);
  }

  /** Each deposit ends at most once, and only an older deposit is overwritten or superseded. */
  lemma {:induction false} EachDepositOnce(states: seq<State>, actions: seq<Action>, k: nat, n: nat)
    requires Run(states, actions) && k < |states|
    ensures var s := states[k];
      && Fates(s.log, n) + Has(s.pending, n) + Has(s.sender.Held(), n) == (if 1 <= n <= s.deposited then 1 else 0)
      && Attempts(s.log, n) <= 10
      && (Overwritten(n) in s.log || Superseded(n) in s.log ==> n < s.deposited)
  {
    hide Fates, Attempts;
    RunKeepsInv(states, actions, k);
    assert Conserved(states[k], n) && Budgeted(states[k], n);
    forall j | 0 <= j < |states[k].log|
      ensures Justified(states[k], states[k].log[j])
    {}
  }

  /** Once the sender has stopped it posts nothing. */
  lemma {:induction false} StoppedIsFinal(states: seq<State>, actions: seq<Action>, k: nat, m: nat, n: nat)
    requires Run(states, actions) && k <= m < |states| && states[k].sender.Stopped?
    ensures states[m].sender.Stopped? && Attempts(states[m].log, n) == Attempts(states[k].log, n)
    decreases m - k
  {
    hide Attempts, Fates;
    if k < m {
      StoppedIsFinal(states, actions, k, m - 1, n);
      CountsGrow(states[m - 1], actions[m - 1], n);
    }
  }

  // ----- what is posted where -----

  /** The targets of the accepted deposits, in the order in which they took the lock. */
  function Targets(actions: seq<Action>): seq<string> {
    if actions == [] then []
    else Targets(actions[..|actions| - 1]) + (if actions[|actions| - 1].Put? then [actions[|actions| - 1].url] else [])
  }

  /** The post of deposit n has the target of deposit n. */
  predicate Carries(p: Option<Post>, targets: seq<string>) {
    p.Some? ==> 0 < p.value.number <= |targets| && targets[p.value.number - 1] == p.value.url
  }

  /** In the mailbox and in the hands of the sender, every post has the target that was deposited with it. */
  lemma {:induction false} PostsKeepTargets(states: seq<State>, actions: seq<Action>, k: nat)
    requires Run(states, actions) && k < |states|
    ensures |Targets(actions[..k])| == states[k].deposited
    ensures Carries(states[k].pending, Targets(actions[..k])) && Carries(states[k].sender.Held(), Targets(actions[..k]))
  {
    hide Enabled, Do;
    if k == 0 {
      NothingHeld();
    } else {
      PostsKeepTargets(states, actions, k - 1);
      assert actions[..k][..k - 1] == actions[..k - 1];
      StepTargets(states[k - 1], actions[k - 1], Targets(actions[..k - 1]), Targets(actions[..k]));
    }
  }

  /** A target is an absolute URL: not empty, and not a path. */
  predicate Absolute(url: string) { url != "" && !("/" <= url) }

  /** Exactly the deposits of absolute URLs are accepted, at any time. */
  lemma {:induction false} AcceptsAbsolute(states: seq<State>, actions: seq<Action>, k: nat)
    requires Run(states, actions) && k < |states|
    ensures forall i :: 0 <= i < |Targets(actions[..k])| ==> Absolute(Targets(actions[..k])[i])
    ensures forall url :: Absolute(url) ==> Enabled(states[k], Put(url))
  {
    hide Do;
    if k > 0 {
      AcceptsAbsolute(states, actions, k - 1);
      assert actions[..k][..k - 1] == actions[..k - 1];
      assert Enabled(states[k - 1], actions[k - 1]);
    }
  }

  lemma {:induction false} NothingHeld()
    ensures Init.pending.None? && Init.sender.Held().None? && Init.deposited == 0
  {}

  lemma {:induction false} StepTargets(s: State, a: Action, was: seq<string>, now: seq<string>)
    requires Enabled(s, a) && |was| == s.deposited && now == was + (if a.Put? then [a.url] else [])
    requires Carries(s.pending, was) && Carries(s.sender.Held(), was)
    ensures |now| == Do(s, a).deposited && Carries(Do(s, a).pending, now) && Carries(Do(s, a).sender.Held(), now)
  {}

  /** Every event was logged for its reason, and every post goes to the target of its deposit: an attempt starts with an
      open gate and a usable target, a delivery is an answer without error, and a post is dropped only at a closed
      gate or for an unusable target. */
  lemma {:induction false} EventsHaveReasons(states: seq<State>, actions: seq<Action>, j: nat)
    requires Run(states, actions) && j < |actions| && EventOf(states[j], actions[j]).Some?
    ensures var a, e, targets := actions[j], EventOf(states[j], actions[j]).value, Targets(actions[..j]);
      match e
      case Attempted(n) => a == Try(true, true) && SentTo(states[j], n, targets)
      case Delivered(n) => a == Finish(true) && SentTo(states[j], n, targets)
      case Dropped(n) => a.Try? && !(a.gateOpen && a.wellFormed) && SentTo(states[j], n, targets)
      case Exhausted(n) => Attempts(states[j].log, n) == 10
      case Overwritten(n) => a.Put? && states[j].pending.Some? && n < states[j].deposited + 1
      case Superseded(n) => a == Resume && states[j].pending.Some? && n < states[j].pending.value.number
      case Aborted(n) => a == Exit && states[j].cancelled
  {
    hide Fates, Attempts;
    PostsKeepTargets(states, actions, j);
    RunKeepsInv(states, actions, j);
    var s := states[j];
    if s.sender.Held().Some? {
      assert Budgeted(s, s.sender.Held().value.number);
    }
  }

  /** The sender holds post n, with the n-th target. */
  predicate SentTo(s: State, n: nat, targets: seq<string>) {
    s.sender.Held().Some? && 0 < n <= |targets| && s.sender.Held().value == Post(n, targets[n - 1])
  }

  // ----- the sender comes to rest -----

  predicate BySender(a: Action) { a.WakeUp? || a.Take? || a.Try? || a.Finish? || a.Resume? || a.Exit? }

  /** How many steps the sender can still take when nobody deposits. */
  function Work(s: State): nat {
    (if s.wake then 2 else 0) + (if s.pending.Some? then 40 else 0) +
    match s.sender
    case Waiting => 1
    case Taking => 2
    case Trying(_, n) => if n < MAX_ATTEMPTS then 3 * (MAX_ATTEMPTS - n) + 3 else 3
    case Posting(_, n) => if n < MAX_ATTEMPTS then 3 * (MAX_ATTEMPTS - n) + 2 else 3
    case Backoff(_, n) => if n < MAX_ATTEMPTS then 3 * (MAX_ATTEMPTS - n) + 4 else 4
    case Stopped => 0
  }

  /** Every step of the sender uses up work. */
  lemma {:induction false} StepUsesWork(s: State, a: Action)
    requires Enabled(s, a) && Numbered(s) && BySender(a)
    ensures Work(Do(s, a)) < Work(s)
  {
    match a
    case Try(_, _) => assert s.sender.attempts <= MAX_ATTEMPTS;
    case Finish(_) => assert s.sender.attempts < MAX_ATTEMPTS;
    case _ =>
  }

  lemma {:induction false} OthersAddBoundedWork(s: State, a: Action)
    requires Enabled(s, a) && !BySender(a)
    ensures Work(Do(s, a)) <= Work(s) + (if a.Put? then 40 else if a.Signal? then 2 else 0)
  {}

  function SenderSteps(actions: seq<Action>): nat {
    if actions == [] then 0
    else SenderSteps(actions[..|actions| - 1]) + (if BySender(actions[|actions| - 1]) then 1 else 0)
  }

  lemma {:induction false} CountersStep(s: State, a: Action)
    requires Enabled(s, a)
    ensures Do(s, a).deposited == s.deposited + (if a.Put? then 1 else 0)
    ensures Do(s, a).midStep == s.midStep + (if a.Put? then 1 else if a.Signal? then -1 else 0)
  {}

  /** Over any stretch of a run the sender takes at most 42 steps for each deposit made in it, and what it had to
      do before; after the last deposit it comes to rest. A whole run has at most one step more than 42 for each
      of its deposits. */
  lemma {:induction false} SenderRests(states: seq<State>, actions: seq<Action>, j: nat, k: nat)
    requires Run(states, actions) && j <= k < |states|
    ensures states[j].deposited <= states[k].deposited
    ensures SenderSteps(actions[j..k]) + Work(states[k]) + 2 * states[k].midStep
      <= Work(states[j]) + 2 * states[j].midStep + 42 * (states[k].deposited - states[j].deposited)
    ensures j == 0 ==> SenderSteps(actions[j..k]) <= 1 + 42 * states[k].deposited
    decreases k - j
  {
    hide Enabled, Do, Work, Inv;
    StartsWithOne();
    if j < k {
      var s, a := states[k - 1], actions[k - 1];
      SenderRests(states, actions, j, k - 1);
      assert actions[j..k][..k - j - 1] == actions[j..k - 1];
      CountersStep(s, a);
      if BySender(a) {
        RunKeepsInv(states, actions, k - 1);
        InvIsNumbered(s);
        StepUsesWork(s, a);
      } else {
        OthersAddBoundedWork(s, a);
      }
    } else {
      assert actions[j..k] == [];
    }
  }

  lemma {:induction false} StartsWithOne()
    ensures Work(Init) == 1 && Init.midStep == 0 && Init.deposited == 0
  {}

  lemma {:induction false} InvIsNumbered(s: State)
    requires Inv(s)
    ensures Numbered(s)
  {}

  /** A sender that is not stopped and cannot take a step is waiting without a token, and was not told to stop. */
  lemma {:induction false} StuckMeansWaiting(s: State)
    requires forall a :: BySender(a) ==> !Enabled(s, a)
    ensures s.sender.Stopped? || (s.sender.Waiting? && !s.wake && !s.cancelled)
  {
    assert !Enabled(s, Exit);
    assert !Enabled(s, Take) && !Enabled(s, Try(true, true)) && !Enabled(s, Finish(true)) && !Enabled(s, Resume) && !Enabled(s, WakeUp);
  }

  // ----- the object -----

  /** The sender as an object: each method is one atomic section of the Go code, so any interleaving
      of calls is a run. */
  class Mailbox {
    var pending: Option<Post>
    var wake: bool
    var cancelled: bool
    var sender: Sender
    var midStep: nat
    var deposited: nat
    ghost var log: seq<Event>

    ghost function Now(): State
      reads this
    {
      State(pending, wake, cancelled, sender, midStep, deposited, log)
    }

    /** newStatusSender */
    constructor ()
      ensures Now() == Init && Inv(Now())
    {
      pending, wake, cancelled, sender, midStep, deposited, log := None, false, false, Waiting, 0, 0, [];
    }

    /** deposit: the test of the target and the section under the lock. */
    method Put(url: string) returns (accepted: bool)
      modifies this
      ensures accepted == Depositable(url)
      ensures Now() == if accepted then Do(old(Now()), Action.Put(url)) else old(Now())
    {
      if url == "" || url[0] == '/' {
        return false;
      }
      if pending.Some? {
        log := log + [Overwritten(pending.value.number)];
      }
      deposited := deposited + 1;
      pending := Some(Post(deposited, url));
      midStep := midStep + 1;
      return true;
    }

    /** deposit: the select. A token that is already there is enough. */
    method Signal()
      requires midStep > 0
      modifies this
      ensures Now() == Do(old(Now()), Action.Signal)
    {
      midStep := midStep - 1;
      if !wake {
        wake := true;
      }
    }

    /** takePending */
    method TakePending() returns (p: Option<Post>)
      modifies this`pending
      ensures p == old(pending) && pending == None
    {
      p := pending;
      pending := None;
    }

    /** run: the select, with the choice it makes when both channels are ready. */
    method Select(preferDone: bool)
      requires sender.Waiting? && (wake || cancelled)
      modifies this
      ensures Now() == Do(old(Now()), if old(cancelled) && (preferDone || !old(wake)) then Exit else WakeUp)
    {
      if cancelled && (preferDone || !wake) {
        sender := Stopped;
      } else {
        wake := false;
        sender := Taking;
      }
    }

    /** run: the head of the inner loop. */
    method Next()
      requires sender.Taking?
      modifies this
      ensures Now() == Do(old(Now()), Take)
    {
      var p := TakePending();
      sender := if p.Some? then Trying(p.value, 0) else Waiting;
    }

    /** deliver: from the head of the loop to the call of client.Do, or out of it. */
    method TryOnce(gateOpen: bool, wellFormed: bool)
      requires sender.Trying?
      modifies this
      ensures Now() == Do(old(Now()), Try(gateOpen, wellFormed))
    {
      var p, attempts := sender.post, sender.attempts;
      if attempts < MAX_ATTEMPTS {
        if !gateOpen {
          log, sender := log + [Dropped(p.number)], Taking;
        } else if !wellFormed {
          log, sender := log + [Dropped(p.number)], Taking;
        } else {
          log, sender := log + [Attempted(p.number)], Posting(p, attempts);
        }
      } else {
        log, sender := log + [Exhausted(p.number)], Taking;
      }
    }

    /** deliver: the answer of client.Do. */
    method Answer(ok: bool)
      requires sender.Posting?
      modifies this
      ensures Now() == Do(old(Now()), Finish(ok))
    {
      var p, attempts := sender.post, sender.attempts;
      if ok {
        log, sender := log + [Delivered(p.number)], Taking;
      } else {
        sender := Backoff(p, attempts + 1);
      }
    }

    /** deliver: the end of the sleep, by the timer or, when preferDone holds, by ctx.Done. */
    method EndSleep(preferDone: bool)
      requires sender.Backoff? && (preferDone ==> cancelled)
      modifies this
      ensures Now() == Do(old(Now()), if preferDone then Exit else Resume)
    {
      var p, attempts := sender.post, sender.attempts;
      if preferDone {
        log, sender := log + [Aborted(p.number)], Stopped;
        return;
      }
      var newer := TakePending();
      if newer.Some? {
        log := log + [Superseded(p.number)];
        p, attempts := newer.value, 0;
      }
      sender := Trying(p, attempts);
    }
  }
}

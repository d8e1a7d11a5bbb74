/** The outer loop of the Vault client as a small-step system: `manageTokenLifecycle`,
    the watchers it starts and stops, and the logins between
    (provider/hashicorp_vault/client.go, provider/hashicorp_vault/auth.go). */
module Lifecycle {
  import opened Text
  import opened TokenLifecycle

  datatype Pc =
    | Top                                // at the head of the loop
    | Sleeping(until: int)               // a token that cannot be renewed
    | Delayed(until: int)                // the watcher could not be started
    | Watching(watcher: nat)             // inside watchOnce
    | Stopping(watcher: nat)             // watchOnce returned
    | LoggingIn(began: int, failures: nat)                 // an attempt of the reLogin that began then
    | BackingOff(began: int, until: int, failures: nat)    // its sleep after a failure
    | Returned(secret: Option<Token>)    // login returned, the loop's variable is not yet assigned

  datatype Progress = Created | Running | Ended

  /** A watcher, acting on its own; `pending` renewals wait in its channel. */
  datatype Watcher = Watcher(token: Token, progress: Progress, pending: nat, stopped: bool)

  /** `variable` is the loop's `authInfo` (None: no auth info), `client` the token the
      API client sends, `history` what the successful logins returned. */
  datatype State = State(
    now: int, pc: Pc, variable: Option<Token>, client: Option<Token>, history: seq<Option<Token>>,
    watchers: map<nat, Watcher>, next: nat)

  datatype Step =
    | Tick(dt: nat)
    | Examine(started: bool)             // the head of the loop: where it goes depends on the variable
    | WatcherStarts(id: nat)
    | WatcherRenews(id: nat)
    | WatcherEnds(id: nat)
    | ReceiveRenewal(id: nat)            // RenewCh
    | ReceiveDone                        // DoneCh
    | Stop
    | Wake                               // the end of any sleep
    | LoginOk(secret: Option<Token>)
    | LoginFail
    | Assign

  /** A whole re-login, its failures and sleeps included, ends within `relogin`; a
      login returns at most `lag` after its token was issued. */
  datatype Bounds = Bounds(relogin: nat, lag: nat)

  predicate Fits(b: Bounds, s: State, secret: Option<Token>) {
    secret.Some? ==> secret.value.serial == |s.history| && s.now - b.lag <= secret.value.issued <= s.now
  }

  predicate Enabled(b: Bounds, s: State, step: Step) {
    match step
    case Tick(dt) =>
      (match s.pc
       case Top => dt == 0
       case Returned(_) => dt == 0
       case Sleeping(until) => s.now + dt <= until
       case Delayed(until) => s.now + dt <= until
       case BackingOff(began, until, _) => s.now + dt <= until && s.now + dt <= began + b.relogin
       case LoggingIn(began, _) => s.now + dt <= began + b.relogin
       case _ => true)
    case Examine(_) => s.pc.Top?
    case WatcherStarts(id) => id in s.watchers && s.watchers[id].progress.Created?
    case WatcherRenews(id) => id in s.watchers && s.watchers[id].progress.Running?
    case WatcherEnds(id) => id in s.watchers && s.watchers[id].progress.Running?
    case ReceiveRenewal(id) => s.pc == Watching(id) && id in s.watchers && s.watchers[id].pending > 0
    case ReceiveDone =>
      s.pc.Watching? && s.pc.watcher in s.watchers && s.watchers[s.pc.watcher].progress.Ended?
    case Stop => s.pc.Stopping? && s.pc.watcher in s.watchers
    case Wake =>
      (match s.pc
       case Sleeping(until) => until <= s.now
       case Delayed(until) => until <= s.now
       case BackingOff(_, until, _) => until <= s.now
       case _ => false)
    case LoginOk(secret) => s.pc.LoggingIn? && Fits(b, s, secret)
    case LoginFail => s.pc.LoggingIn?
    case Assign => s.pc.Returned?
  }

  /** One round of the loop, from its head to where it next waits. */
  function Examined(s: State, started: bool): State {
    match s.variable
    case None => s.(pc := LoggingIn(s.now, 0))
    case Some(token) =>
      if !token.renewable then s.(pc := Sleeping(s.now + Max(0, LeaseSleep(token.lease))))
      else if !started then s.(pc := Delayed(s.now + 10 * SECOND))
      else s.(pc := Watching(s.next), next := s.next + 1,
              watchers := s.watchers[s.next := Watcher(token, Created, 0, false)])
  }

  function Max(a: int, b: int): int { if a > b then a else b }

  function After(b: Bounds, s: State, step: Step): State
    requires Enabled(b, s, step)
  {
    match step
    case Tick(dt) => s.(now := s.now + dt)
    case Examine(started) => Examined(s, started)
    case WatcherStarts(id) => s.(watchers := s.watchers[id := s.watchers[id].(progress := Running)])
    case WatcherRenews(id) => s.(watchers := s.watchers[id := s.watchers[id].(pending := s.watchers[id].pending + 1)])
    case WatcherEnds(id) => s.(watchers := s.watchers[id := s.watchers[id].(progress := Ended)])
    case ReceiveRenewal(id) => s.(watchers := s.watchers[id := s.watchers[id].(pending := s.watchers[id].pending - 1)])
    case ReceiveDone => s.(pc := Stopping(s.pc.watcher))
    case Stop =>
      s.(pc := LoggingIn(s.now, 0), watchers := s.watchers[s.pc.watcher := s.watchers[s.pc.watcher].(stopped := true)])
    case Wake => s.(pc := if s.pc.BackingOff? then LoggingIn(s.pc.began, s.pc.failures) else LoggingIn(s.now, 0))
    case LoginOk(secret) =>
      s.(pc := Returned(secret), client := if secret.Some? then secret else s.client, history := s.history + [secret])
    case LoginFail => s.(pc := BackingOff(s.pc.began, s.now + Backoff(s.pc.failures), s.pc.failures + 1))
    case Assign => s.(pc := Top, variable := s.pc.secret)
  }

  /** `newAuthenticatedClient` has logged in and hands what it got to the loop. */
  ghost predicate Initial(b: Bounds, s: State) {
    && s.pc.Returned? && s == State(s.now, s.pc, None, s.pc.secret, [s.pc.secret], map[], 0)
    && (s.pc.secret.Some? ==> s.pc.secret.value.serial == 0 && s.now - b.lag <= s.pc.secret.value.issued <= s.now)
  }

  ghost predicate Next(b: Bounds, s: State, step: Step, t: State) {
    Enabled(b, s, step) && t == After(b, s, step)
  }

  ghost predicate Run(b: Bounds, s: State, steps: seq<Step>, t: State)
    decreases |steps|
  {
    if steps == [] then s == t
    else
      var front, last := steps[..|steps| - 1], steps[|steps| - 1];
      exists u :: Run(b, s, front, u) && Next(b, u, last, t)
  }

  // ----- whole-run safety

  /** What the latest login returned. */
  function Latest(history: seq<Option<Token>>): Option<Token> {
    if history == [] then None else history[|history| - 1]
  }

  /** The latest token any login returned. */
  function LatestToken(history: seq<Option<Token>>): Option<Token> {
    if history == [] then None
    else if Latest(history).Some? then Latest(history)
    else LatestToken(history[..|history| - 1])
  }

  /** The watcher the loop listens to or is about to stop. */
  predicate Owns(pc: Pc, id: nat) {
    pc == Watching(id) || pc == Stopping(id)
  }

  /** The client's token and the variable follow the logins. */
  predicate TokensSafe(s: State) {
    && s.client == LatestToken(s.history)
    && match s.pc
       case Returned(secret) => secret == Latest(s.history)
       case _ => s.variable == Latest(s.history)
  }

  /** A watcher that is not stopped is the loop's own and watches the variable's token. */
  predicate WatchersSafe(s: State) {
    && (forall id :: id in s.watchers ==>
          id < s.next && (s.watchers[id].stopped || (Owns(s.pc, id) && s.variable == Some(s.watchers[id].token))))
    && (s.pc.Watching? || s.pc.Stopping? ==> s.pc.watcher in s.watchers)
  }

  lemma StepTokensSafe(b: Bounds, s: State, step: Step)
    requires TokensSafe(s) && Enabled(b, s, step)
    ensures TokensSafe(After(b, s, step))
  {}

  lemma StepWatchersSafe(b: Bounds, s: State, step: Step)
    requires WatchersSafe(s) && Enabled(b, s, step)
    ensures WatchersSafe(After(b, s, step))
  {}

  lemma {:induction false} RunKeepsSafe(b: Bounds, s: State, steps: seq<Step>, t: State)
    requires Initial(b, s) && Run(b, s, steps, t)
    ensures TokensSafe(t) && WatchersSafe(t)
    decreases |steps|
  {
    if steps != [] {
      var front, last := steps[..|steps| - 1], steps[|steps| - 1];
      var u :| Run(b, s, front, u) && Next(b, u, last, t);
      RunKeepsSafe(b, s, front, u);
      StepTokensSafe(b, u, last);
      StepWatchersSafe(b, u, last);
    }
  }

  /** In every run the API client sends the token of the latest login that gave one;
      at the head of the loop the variable holds what the latest login returned, hence,
      if that is a token, the client's; a watcher that is not stopped watches that very
      token, is the only one, and is the loop's own, so none is at any login. */
  lemma RunSafe(b: Bounds, s: State, steps: seq<Step>, t: State)
    requires Initial(b, s) && Run(b, s, steps, t)
    ensures t.client == LatestToken(t.history)
    ensures t.pc.Top? ==> t.variable == Latest(t.history) && (t.variable.Some? ==> t.client == t.variable)
    ensures forall id :: id in t.watchers && !t.watchers[id].stopped ==>
              Owns(t.pc, id) && t.variable == t.client == Some(t.watchers[id].token)
    ensures forall i, j | i in t.watchers && j in t.watchers && !t.watchers[i].stopped && !t.watchers[j].stopped ::
              i == j
    ensures t.pc.LoggingIn? || t.pc.BackingOff? || t.pc.Returned? || t.pc.Top? ==>
              forall id :: id in t.watchers ==> t.watchers[id].stopped
  {
    RunKeepsSafe(b, s, steps, t);
  }

  // ----- why the loop logs in

  /** The loop stops a watcher only once it has ended; and what waits in a watcher's
      channel is what it renewed and the loop has not received. */
  predicate WatchSafe(s: State) {
    && (forall id :: id in s.watchers ==> id < s.next)
    && (forall id :: id in s.watchers && s.watchers[id].stopped ==> s.watchers[id].progress.Ended?)
    && (s.pc.Stopping? ==> s.pc.watcher in s.watchers && s.watchers[s.pc.watcher].progress.Ended?)
  }

  function Pending(s: State, id: nat): nat { if id in s.watchers then s.watchers[id].pending else 0 }

  lemma StepWatchSafe(b: Bounds, s: State, step: Step, id: nat)
    requires WatchSafe(s) && Enabled(b, s, step)
    ensures WatchSafe(After(b, s, step))
    ensures Pending(After(b, s, step), id) + (if step == ReceiveRenewal(id) then 1 else 0)
            == Pending(s, id) + if step == WatcherRenews(id) then 1 else 0
  {}

  /** In every run a watcher is stopped only after it has ended, so no renewal ends the
      watch; and every renewal is received at most once, none is invented. */
  lemma {:induction false} WatchedToItsEnd(b: Bounds, s: State, steps: seq<Step>, t: State, id: nat)
    requires Initial(b, s) && Run(b, s, steps, t)
    ensures id in t.watchers && t.watchers[id].stopped ==> t.watchers[id].progress.Ended?
    ensures Pending(t, id) + multiset(steps)[ReceiveRenewal(id)] == multiset(steps)[WatcherRenews(id)]
    ensures WatchSafe(t)
    decreases |steps|
  {
    if steps != [] {
      var front, last := steps[..|steps| - 1], steps[|steps| - 1];
      var u :| Run(b, s, front, u) && Next(b, u, last, t);
      WatchedToItsEnd(b, s, front, u, id);
      StepWatchSafe(b, u, last, id);
      assert steps == front + [last];
      hide Run, WatchSafe, After, Enabled;
    }
  }

  /** What the loop did since it last stood at its head: where it was then, what it
      decided there, and where it is now. */
  predicate Due(u: State, started: bool, s: State) {
    && u.pc.Top? && s.variable == u.variable && u.next <= s.next
    && match u.variable
       case None =>
         (s.pc.LoggingIn? || s.pc.BackingOff?) && s.pc.began == u.now
       case Some(token) =>
         if !token.renewable then
           var until := u.now + Max(0, LeaseSleep(token.lease));
           || s.pc == Sleeping(until)
           || ((s.pc.LoggingIn? || s.pc.BackingOff?) && s.pc.began == until)
         else if !started then
           || s.pc == Delayed(u.now + 10 * SECOND)
           || ((s.pc.LoggingIn? || s.pc.BackingOff?) && s.pc.began == u.now + 10 * SECOND)
         else
           && u.next in s.watchers && s.watchers[u.next].token == token
           && (|| (s.pc == Watching(u.next) && !s.watchers[u.next].stopped)
               || (s.pc == Stopping(u.next) && s.watchers[u.next].progress.Ended?)
               || ((s.pc.LoggingIn? || s.pc.BackingOff?)
                   && s.watchers[u.next].progress.Ended? && s.watchers[u.next].stopped))
  }

  lemma ExaminedDue(b: Bounds, u: State, started: bool)
    requires u.pc.Top?
    ensures Due(u, started, After(b, u, Examine(started)))
  {}

  /** The clock has not passed a sleep's end. */
  predicate OnTime(s: State) {
    match s.pc
    case Sleeping(until) => s.now <= until
    case Delayed(until) => s.now <= until
    case BackingOff(_, until, _) => s.now <= until
    case _ => true
  }

  lemma StepOnTime(b: Bounds, s: State, step: Step)
    requires OnTime(s) && Enabled(b, s, step)
    ensures OnTime(After(b, s, step))
  {
    if step.LoginFail? { BackoffDoubles(s.pc.failures); }
    hide Backoff, LeaseSleep;
  }

  lemma StepDue(b: Bounds, u: State, started: bool, s: State, step: Step)
    requires WatchSafe(s) && OnTime(s) && Due(u, started, s) && Enabled(b, s, step)
    ensures Due(u, started, After(b, s, step)) || step.LoginOk?
  {
    hide LeaseSleep, Backoff;
  }

  /** A run from one state to another that starts with the loop at its head deciding. */
  ghost predicate Round(b: Bounds, u: State, started: bool, steps: seq<Step>, s: State) {
    u.pc.Top? && exists v :: Next(b, u, Examine(started), v) && Run(b, v, steps, s) && Due(u, started, s)
  }

  /** How the loop came to where it is since it was last at its head. */
  ghost predicate Decided(b: Bounds, s: State, steps: seq<Step>, t: State) {
    exists i, started, u: State ::
      && 0 <= i < |steps| && steps[i] == Examine(started) && Run(b, s, steps[..i], u)
      && Round(b, u, started, steps[i + 1..], t)
  }

  lemma DecidedStep(b: Bounds, s: State, front: seq<Step>, u: State, last: Step)
    requires Decided(b, s, front, u) && WatchSafe(u) && OnTime(u) && Enabled(b, u, last) && !last.LoginOk?
    ensures Decided(b, s, front + [last], After(b, u, last))
  {
    var i, started, w: State :|
      && 0 <= i < |front| && front[i] == Examine(started) && Run(b, s, front[..i], w)
      && Round(b, w, started, front[i + 1..], u);
    var v :| Next(b, w, Examine(started), v) && Run(b, v, front[i + 1..], u) && Due(w, started, u);
    StepDue(b, w, started, u, last);
    var steps := front + [last];
    assert steps[i] == front[i] && steps[..i] == front[..i];
    assert steps[i + 1..] == front[i + 1..] + [last];
    RunExtends(b, v, front[i + 1..], u, last);
    hide Due, After, Enabled;
    assert Round(b, w, started, steps[i + 1..], After(b, u, last));
  }

  lemma RunExtends(b: Bounds, s: State, steps: seq<Step>, u: State, step: Step)
    requires Run(b, s, steps, u) && Enabled(b, u, step)
    ensures Run(b, s, steps + [step], After(b, u, step))
  {
    var more := steps + [step];
    assert more[..|steps|] == steps;
    assert Next(b, u, step, After(b, u, step));
  }

  lemma DecidedNow(b: Bounds, s: State, front: seq<Step>, u: State, started: bool)
    requires Run(b, s, front, u) && u.pc.Top?
    ensures Decided(b, s, front + [Examine(started)], After(b, u, Examine(started)))
  {
    var steps, t := front + [Examine(started)], After(b, u, Examine(started));
    ExaminedDue(b, u, started);
    assert steps[..|front|] == front && steps[|front| + 1..] == [];
    assert Next(b, u, Examine(started), t) && Run(b, t, [], t);
    hide Due, After;
    assert Round(b, u, started, steps[|front| + 1..], t);
    assert steps[|front|] == Examine(started);
  }

  /** In every run, whenever the loop waits or logs in, it last stood at its head and
      decided there: without auth info it logs in at once; with a token that cannot be
      renewed, after the lease's sleep; when the watcher cannot be started, after ten
      seconds; otherwise only after the watcher it started on that token has ended. */
  lemma {:induction false} LoginBecause(b: Bounds, s: State, steps: seq<Step>, t: State)
    requires Initial(b, s) && Run(b, s, steps, t)
    ensures t.pc.Top? || t.pc.Returned? || Decided(b, s, steps, t)
    ensures WatchSafe(t) && OnTime(t)
    decreases |steps|
  {
    if steps != [] {
      var front, last := steps[..|steps| - 1], steps[|steps| - 1];
      var u :| Run(b, s, front, u) && Next(b, u, last, t);
      LoginBecause(b, s, front, u);
      StepWatchSafe(b, u, last, 0);
      StepOnTime(b, u, last);
      assert steps == front + [last];
      if last.Examine? {
        DecidedNow(b, s, front, u, last.started);
      } else if !u.pc.Top? && !u.pc.Returned? && !last.LoginOk? {
        DecidedStep(b, s, front, u, last);
      }
      hide Decided, WatchSafe, OnTime, Run;
    }
  }

  // ----- coverage

  /** A token that cannot be renewed, whose lease is at least this long. */
  predicate LongLease(lease: int, secret: Option<Token>) {
    secret.Some? && !secret.value.renewable && lease <= secret.value.lease <= MAX_LEASE
  }

  function Expiry(token: Token): int { token.issued + token.lease * SECOND }

  /** Every login that succeeds gives such a token; any number of attempts may fail. */
  ghost predicate LongLeases(lease: int, s: State, steps: seq<Step>) {
    && s.pc.Returned? && LongLease(lease, s.pc.secret)
    && forall i :: 0 <= i < |steps| && steps[i].LoginOk? ==> LongLease(lease, steps[i].secret)
  }

  /** The re-login begins `lag` and four fifths of the lease after the issue at the latest. */
  predicate Covered(b: Bounds, lease: int, s: State) {
    && LongLease(lease, s.client)
    && var token := s.client.value;
    var limit := token.issued + b.lag + LeaseSleep(token.lease);
    && match s.pc
       case Returned(secret) => secret == s.client && s.now <= token.issued + b.lag
       case Top => s.variable == s.client && s.now <= token.issued + b.lag
       case Sleeping(until) => s.now <= until <= limit
       case LoggingIn(began, _) => began <= limit && s.now <= began + b.relogin
       case BackingOff(began, _, _) => began <= limit && s.now <= began + b.relogin
       case _ => false
  }

  lemma StepCovered(b: Bounds, lease: int, s: State, step: Step)
    requires lease > 0 && Covered(b, lease, s) && Enabled(b, s, step)
    requires step.LoginOk? ==> LongLease(lease, step.secret)
    ensures Covered(b, lease, After(b, s, step))
  {}

  lemma {:induction false} RunCovered(b: Bounds, lease: int, s: State, steps: seq<Step>, t: State)
    requires lease > 0 && Initial(b, s) && Run(b, s, steps, t) && LongLeases(lease, s, steps)
    ensures Covered(b, lease, t)
    decreases |steps|
  {
    if steps != [] {
      var front, last := steps[..|steps| - 1], steps[|steps| - 1];
      var u :| Run(b, s, front, u) && Next(b, u, last, t);
      RunCovered(b, lease, s, front, u);
      StepCovered(b, lease, u, last);
    }
  }

  predicate Authenticated(t: State) { t.client.Some? && t.now < Expiry(t.client.value) }

  /** If every re-login, however often it fails and backs off, ends within a fifth of
      the lease (less the lag), no instant lacks an unexpired token. */
  lemma AlwaysAuthenticated(b: Bounds, lease: int, s: State, steps: seq<Step>, t: State)
    requires 5 * (b.relogin + b.lag) < lease * SECOND
    requires Initial(b, s) && Run(b, s, steps, t) && LongLeases(lease, s, steps)
    ensures Authenticated(t)
  {
    RunCovered(b, lease, s, steps, t);
    LeaseSleepIff(t.client.value.lease);
  }

  ghost predicate AlwaysCovers(b: Bounds, lease: int) {
    forall s, steps, t :: Initial(b, s) && Run(b, s, steps, t) && LongLeases(lease, s, steps) ==> Authenticated(t)
  }

  lemma Go(b: Bounds, s: State, steps: seq<Step>, u: State, step: Step) returns (more: seq<Step>, t: State)
    requires Run(b, s, steps, u) && Enabled(b, u, step)
    ensures more == steps + [step] && Run(b, s, more, t) && t == After(b, u, step)
  {
    more, t := steps + [step], After(b, u, step);
    assert more[..|steps|] == steps;
    assert Next(b, u, step, t);
  }

  /** The machine fails an attempt and backs off. */
  lemma GoFailure(b: Bounds, s: State, steps: seq<Step>, u: State, took: nat) returns (more: seq<Step>, t: State)
    requires Run(b, s, steps, u) && u.pc.LoggingIn?
    requires u.now + took + Backoff(u.pc.failures) <= u.pc.began + b.relogin
    ensures Run(b, s, more, t) && steps + [Tick(took), LoginFail, Tick(Backoff(u.pc.failures)), Wake] == more
    ensures t == u.(now := u.now + took + Backoff(u.pc.failures), pc := LoggingIn(u.pc.began, u.pc.failures + 1))
  {
    hide Run;
    BackoffDoubles(u.pc.failures);
    hide Backoff;
    more, t := Go(b, s, steps, u, Tick(took));
    more, t := Go(b, s, more, t, LoginFail);
    more, t := Go(b, s, more, t, Tick(Backoff(u.pc.failures)));
    more, t := Go(b, s, more, t, Wake);
  }

  /** The longest way from an issue to the attempt that begins the re-login. */
  lemma GoSleep(b: Bounds, lease: int, issued: int) returns (s: State, steps: seq<Step>, t: State)
    requires 0 < lease <= MAX_LEASE
    ensures Initial(b, s) && Run(b, s, steps, t) && LongLeases(lease, s, steps)
    ensures t.now == issued + b.lag + LeaseSleep(lease) && t.pc == LoggingIn(t.now, 0)
    ensures t.client == Some(Token(0, false, lease, issued))
  {
    LeaseSleepIff(lease);
    hide LeaseSleep;
    var secret := Some(Token(0, false, lease, issued));
    s := State(issued + b.lag, Returned(secret), None, secret, [secret], map[], 0);
    steps, t := Go(b, s, [], s, Assign);
    hide Run;
    steps, t := Go(b, s, steps, t, Examine(true));
    steps, t := Go(b, s, steps, t, Tick(LeaseSleep(lease)));
    steps, t := Go(b, s, steps, t, Wake);
  }

  /** Once relogin and lag together reach a fifth of the lease, some run is still logging
      in when the token expires; if there is a second for it, after a failed attempt. */
  lemma ExpiresWhileLoggingIn(b: Bounds, lease: int, issued: int) returns (s: State, steps: seq<Step>, t: State)
    requires 0 < lease <= MAX_LEASE && 5 * (b.relogin + b.lag) >= lease * SECOND
    ensures Initial(b, s) && Run(b, s, steps, t) && LongLeases(lease, s, steps)
    ensures t.pc.LoggingIn? && t.client.Some? && t.client.value.lease == lease && t.now >= Expiry(t.client.value)
    ensures b.relogin >= SECOND ==> LoginFail in steps
  {
    hide Run, Initial, LeaseSleep;
    LeaseSleepIff(lease);
    s, steps, t := GoSleep(b, lease, issued);
    var rest := b.relogin;
    if b.relogin >= SECOND {
      assert Backoff(0) == SECOND;
      steps, t := GoFailure(b, s, steps, t, 0);
      rest := b.relogin - SECOND;
    }
    hide Backoff;
    steps, t := Go(b, s, steps, t, Tick(rest));
  }

  /** Every run is covered exactly when relogin and lag together stay under a fifth of
      the shortest lease. */
  lemma CoverageIff(b: Bounds, lease: int)
    requires 0 < lease <= MAX_LEASE
    ensures AlwaysCovers(b, lease) <==> 5 * (b.relogin + b.lag) < lease * SECOND
  {
    hide Run, LongLeases, Initial;
    if 5 * (b.relogin + b.lag) < lease * SECOND {
      forall s, steps, t | Initial(b, s) && Run(b, s, steps, t) && LongLeases(lease, s, steps)
        ensures Authenticated(t)
      {
        AlwaysAuthenticated(b, lease, s, steps, t);
      }
    } else {
      var s, steps, t := ExpiresWhileLoggingIn(b, lease, 0);
    }
  }

  // ----- the machine's re-login is the loop's

  lemma StartsBefore(login: int -> Attempt, starts: seq<int>, k: nat)
    requires Attempts(login, starts) && k < |starts|
    ensures starts[0] <= starts[k] <= starts[|starts| - 1]
    ensures k + 1 < |starts| ==> starts[k + 1] <= starts[|starts| - 1]
    decreases |starts|
  {
    if k + 1 < |starts| {
      BackoffDoubles(|starts| - 2);
      assert Attempts(login, starts[..|starts| - 1]);
      StartsBefore(login, starts[..|starts| - 1], k);
    } else if k > 0 {
      BackoffDoubles(k - 1);
      assert Attempts(login, starts[..k]);
      StartsBefore(login, starts[..k], k - 1);
    }
  }

  lemma {:induction false} FailuresAreRun(b: Bounds, s: State, login: int -> Attempt, starts: seq<int>, k: nat)
    returns (steps: seq<Step>)
    requires Attempts(login, starts) && k < |starts| && s.pc == LoggingIn(s.now, 0) && starts[0] == s.now
    requires starts[|starts| - 1] <= s.now + b.relogin
    ensures Run(b, s, steps, s.(now := starts[k], pc := LoggingIn(s.now, k)))
    decreases k
  {
    if k == 0 {
      steps := [];
    } else {
      steps := FailuresAreRun(b, s, login, starts, k - 1);
      hide Run, Backoff;
      StartsBefore(login, starts, k - 1);
      var t;
      steps, t := GoFailure(b, s, steps, s.(now := starts[k - 1], pc := LoggingIn(s.now, k - 1)),
        login(starts[k - 1]).took);
    }
  }

  /** Every way `reLogin` can go is a run of the machine, from the attempt it begins
      with to the token it returns, when it ends within the bound. */
  lemma ReLoginIsRun(b: Bounds, s: State, login: int -> Attempt, starts: seq<int>, token: Token, now: int, slept: int)
    returns (steps: seq<Step>)
    requires s.pc == LoggingIn(s.now, 0) && Episode(login, s.now, starts, token, now, slept)
    requires now <= s.now + b.relogin && Fits(b, s.(now := now), Some(token))
    ensures Run(b, s, steps, s.(now := now, pc := Returned(Some(token)), client := Some(token),
                                history := s.history + [Some(token)]))
  {
    var k := |starts| - 1;
    steps := FailuresAreRun(b, s, login, starts, k);
    hide Run;
    var t := s.(now := starts[k], pc := LoggingIn(s.now, k));
    steps, t := Go(b, s, steps, t, Tick(login(starts[k]).took));
    steps, t := Go(b, s, steps, t, LoginOk(Some(token)));
  }
}

/** What every interleaving of the loop and the `Refresh` calls keeps. */
module FileRefreshLaws {
  import opened Text
  import opened FileRefresh

  // ----- safety: the lock keeps writes apart

  predicate CallSound(s: State, id: nat)
    requires id in s.calls
  {
    var call := s.calls[id];
    && (call.Critical() <==> s.lock == Some(id))
    && (call.Carries() ==> call.version <= s.source && call.version in s.fetched)
    && (call.Truncated? ==> s.file == Empty)
    && (call.Written? ==> s.file == Holds(call.version) || (s.file == Empty && id != LOOP))
    && ((call.Clearing? || call.Sleeping?) ==> id == LOOP)
  }

  predicate Sound(s: State) {
    && LOOP in s.calls
    && (forall id :: id in s.calls ==> CallSound(s, id))
    && (s.lock.Some? ==> s.lock.value in s.calls)
    && (s.file.Holds? ==> s.file.version in s.fetched && s.file.version <= s.source)
  }

  lemma StepCallSound(b: Bounds, s: State, step: Step, id: nat)
    requires Sound(s) && Enabled(b, s, step) && id in After(b, s, step).calls
    ensures CallSound(After(b, s, step), id)
  {
    assert id in s.calls ==> CallSound(s, id);
  }

  lemma StepSound(b: Bounds, s: State, step: Step)
    requires Sound(s) && Enabled(b, s, step)
    ensures Sound(After(b, s, step))
  {
    forall id | id in After(b, s, step).calls ensures CallSound(After(b, s, step), id) {
      StepCallSound(b, s, step, id);
    }
  }

  lemma {:induction false} RunSound(b: Bounds, s: State, steps: seq<Step>, t: State)
    requires Sound(s) && Run(b, s, steps, t)
    ensures Sound(t)
    decreases |steps|
  {
    if steps != [] {
      var front, last := steps[..|steps| - 1], steps[|steps| - 1];
      var u :| Run(b, s, front, u) && Next(b, u, last, t);
      RunSound(b, s, front, u);
      StepSound(b, u, last);
    }
  }

  /** The steps that empty the file. */
  predicate Truncates(step: Step) { step.Open? || step == Clear(true) }

  /** A write failed part-way and nothing has emptied the file since. */
  ghost predicate TornSince(steps: seq<Step>) {
    exists i :: 0 <= i < |steps| && steps[i].WriteFail? && steps[i].torn
                && forall j :: i < j < |steps| ==> !Truncates(steps[j])
  }

  lemma TornStep(front: seq<Step>, last: Step)
    ensures TornSince(front + [last]) <==> (last.WriteFail? && last.torn) || (TornSince(front) && !Truncates(last))
  {
    var steps := front + [last];
    if last.WriteFail? && last.torn {
      assert steps[|front|] == last;
    }
    if TornSince(front) && !Truncates(last) {
      var i :| 0 <= i < |front| && front[i].WriteFail? && front[i].torn
               && forall j :: i < j < |front| ==> !Truncates(front[j]);
      assert steps[i] == front[i];
    }
    if TornSince(steps) {
      var i :| 0 <= i < |steps| && steps[i].WriteFail? && steps[i].torn
               && forall j :: i < j < |steps| ==> !Truncates(steps[j]);
      assert i < |front| ==> front[i] == steps[i] && forall j :: i < j < |front| ==> front[j] == steps[j];
      assert steps[|front|] == last;
    }
  }

  /** What one step does to a file that is torn or still as it was found. */
  lemma StepFile(b: Bounds, s: State, step: Step)
    requires Sound(s) && Enabled(b, s, step)
    ensures After(b, s, step).file == Torn <==> (step.WriteFail? && step.torn) || (s.file == Torn && !Truncates(step))
    ensures After(b, s, step).file == Prior <==> s.file == Prior && !Truncates(step)
  {
    if step.Write? || step.WriteFail? { assert CallSound(s, step.id); }
  }

  lemma {:induction false} FileSince(b: Bounds, steps: seq<Step>, t: State)
    requires Run(b, Initial(), steps, t)
    ensures Sound(t) && (t.file == Torn <==> TornSince(steps))
    ensures t.file == Prior <==> forall i :: 0 <= i < |steps| ==> !Truncates(steps[i])
    decreases |steps|
  {
    if steps != [] {
      var front, last := steps[..|steps| - 1], steps[|steps| - 1];
      var u :| Run(b, Initial(), front, u) && Next(b, u, last, t);
      FileSince(b, front, u);
      StepSound(b, u, last);
      StepFile(b, u, last);
      assert steps == front + [last];
      TornStep(front, last);
      hide TornSince, After, Sound, Enabled, Run;
    }
  }

  /** In every interleaving at most one call is inside the lock; the file holds what it
      held before until it is first emptied, then one fetched value or nothing; only
      between a write that fails part-way and the next opening or clear is it torn. */
  lemma FileAlwaysWhole(b: Bounds, steps: seq<Step>, t: State)
    requires Run(b, Initial(), steps, t)
    ensures t.file == Prior <==> forall i :: 0 <= i < |steps| ==> !Truncates(steps[i])
    ensures t.file == Torn <==> TornSince(steps)
    ensures t.file.Holds? ==> t.file.version in t.fetched && t.file.version <= t.source
    ensures forall i, j :: i in t.calls && j in t.calls && t.calls[i].Critical() && t.calls[j].Critical() ==> i == j
  {
    FileSince(b, steps, t);
    forall i, j | i in t.calls && j in t.calls && t.calls[i].Critical() && t.calls[j].Critical() ensures i == j {
      assert CallSound(t, i) && CallSound(t, j);
    }
  }

  /** Without the lock this would fail: the second of two calls that have both opened the
      file writes over the first one's text. */
  lemma OverlappingWritesTear(b: Bounds, s: State, i: nat, j: nat)
    requires i != j && Enabled(b, s, Write(i)) && Enabled(b, s, Write(j)) && s.file == Empty
    ensures After(b, s, Write(i)).file == Holds(s.calls[i].version)
    ensures Enabled(b, After(b, s, Write(i)), Write(j)) && After(b, After(b, s, Write(i)), Write(j)).file == Torn
  {}

  // ----- freshness: what a completed write means for one version of the source

  /** The call carries a version before v. */
  predicate Old(s: State, id: nat, v: nat) {
    id in s.calls && s.calls[id].Carries() && s.calls[id].version < v
  }

  /** The clear is over and no call still carries a version before v. */
  predicate Settled(s: State, v: nat) {
    && LOOP in s.calls && !s.calls[LOOP].Clearing?
    && forall id :: id in s.calls ==> !Old(s, id, v)
  }

  predicate Shows(file: File, v: nat) { file.Holds? && file.version >= v }

  /** Settled, and the file shows v or a later version, or is being rewritten with one. */
  predicate Fresh(s: State, v: nat) {
    && Settled(s, v)
    && match s.lock
       case None => Shows(s.file, v)
       case Some(id) => id in s.calls && (!s.calls[id].Truncated? ==> Shows(s.file, v))
  }

  lemma StepSettled(b: Bounds, s: State, step: Step, v: nat)
    requires Settled(s, v) && v <= s.source && Enabled(b, s, step)
    ensures Settled(After(b, s, step), v)
  {}

  /** A write in a settled state brings the file up to date. */
  lemma WriteIsFresh(b: Bounds, s: State, id: nat, v: nat)
    requires Sound(s) && Settled(s, v) && Enabled(b, s, Write(id))
    ensures Fresh(After(b, s, Write(id)), v)
  {}

  /** It stays so, whatever the calls do and however the source changes, until a write fails. */
  lemma StepFresh(b: Bounds, s: State, step: Step, v: nat)
    requires Sound(s) && Fresh(s, v) && v <= s.source && Enabled(b, s, step) && !step.WriteFail?
    ensures Fresh(After(b, s, step), v)
  {}

  ghost predicate WritesSucceed(steps: seq<Step>) {
    forall i :: 0 <= i < |steps| ==> !steps[i].WriteFail?
  }

  lemma {:induction false} RunFresh(b: Bounds, s: State, steps: seq<Step>, t: State, v: nat)
    requires Sound(s) && Fresh(s, v) && v <= s.source && Run(b, s, steps, t) && WritesSucceed(steps)
    ensures Sound(t) && Fresh(t, v) && v <= t.source
    decreases |steps|
  {
    if steps != [] {
      var front, last := steps[..|steps| - 1], steps[|steps| - 1];
      var u :| Run(b, s, front, u) && Next(b, u, last, t);
      RunFresh(b, s, front, u, v);
      StepSound(b, u, last);
      StepFresh(b, u, last, v);
    }
  }

  /** Once the clear is over and no call carries a version before v, the next write
      brings the file to v or later, and it never shows an earlier one again; while v is
      the source's version it shows exactly v. */
  lemma CurrentForever(b: Bounds, steps: seq<Step>, s: State, v: nat, id: nat, more: seq<Step>, t: State)
    requires Run(b, Initial(), steps, s) && Settled(s, v) && v <= s.source
    requires Enabled(b, s, Write(id)) && WritesSucceed(more) && Run(b, After(b, s, Write(id)), more, t)
    ensures Fresh(t, v) && (t.lock.None? ==> Shows(t.file, v))
    ensures t.lock.None? && t.source == v ==> t.file == Holds(v)
  {
    hide Run, WritesSucceed;
    RunSound(b, Initial(), steps, s);
    WriteIsFresh(b, s, id, v);
    StepSound(b, s, Write(id));
    RunFresh(b, After(b, s, Write(id)), more, t, v);
  }

  // ----- the refresh interval

  /** The step ends the loop's attempt. */
  predicate EndsAttempt(step: Step) {
    || step == FetchFail(LOOP) || step == OpenFail(LOOP) || step == Unlock(LOOP)
    || (step.WriteFail? && step.id == LOOP)
  }

  lemma {:induction false} SleepsUntil(b: Bounds, s: State, steps: seq<Step>, t: State, until: int)
    requires Sound(s) && s.calls[LOOP] == Sleeping(until) && Run(b, s, steps, t)
    ensures Sound(t) && (t.now < until ==> t.calls[LOOP] == Sleeping(until))
    decreases |steps|
  {
    if steps != [] {
      var front, last := steps[..|steps| - 1], steps[|steps| - 1];
      var u :| Run(b, s, front, u) && Next(b, u, last, t);
      SleepsUntil(b, s, front, u, until);
      StepSound(b, u, last);
      assert CallSound(u, LOOP);
      hide Run, Sound;
    }
  }

  /** However an attempt of the loop ends, the loop then sleeps the whole refresh interval. */
  lemma AttemptsSpaced(b: Bounds, s: State, step: Step, more: seq<Step>, t: State)
    requires Sound(s) && Enabled(b, s, step) && EndsAttempt(step) && Run(b, After(b, s, step), more, t)
    ensures LOOP in t.calls && (t.now < s.now + b.refresh ==> t.calls[LOOP] == Sleeping(s.now + b.refresh))
  {
    StepSound(b, s, step);
    hide Run;
    SleepsUntil(b, After(b, s, step), more, t, s.now + b.refresh);
  }

  // ----- how long a version stays unseen

  predicate CallPunctual(b: Bounds, s: State, id: nat)
    requires id in s.calls
  {
    var call := s.calls[id];
    && MeetsDeadline(b, call, s.now)
    && (call.Fetching? || call.Carries() ==> call.since <= s.now)
    && (call.Sleeping? ==> call.until <= s.now + b.refresh)
  }

  predicate Punctual(b: Bounds, s: State) { forall id :: id in s.calls ==> CallPunctual(b, s, id) }

  lemma StepPunctual(b: Bounds, s: State, step: Step)
    requires Sound(s) && Punctual(b, s) && Enabled(b, s, step)
    ensures Punctual(b, After(b, s, step))
  {
    var t := After(b, s, step);
    forall id | id in t.calls ensures CallPunctual(b, t, id) {
      assert id in s.calls ==> CallPunctual(b, s, id) && CallSound(s, id);
    }
  }

  lemma {:induction false} RunPunctual(b: Bounds, steps: seq<Step>, t: State)
    requires Run(b, Initial(), steps, t)
    ensures Sound(t) && Punctual(b, t)
    decreases |steps|
  {
    if steps != [] {
      var front, last := steps[..|steps| - 1], steps[|steps| - 1];
      var u :| Run(b, Initial(), front, u) && Next(b, u, last, t);
      RunPunctual(b, front, u);
      StepSound(b, u, last);
      StepPunctual(b, u, last);
    }
  }

  /** The clear is over and v was the source's version at the instant c or before: the
      calls that carry an earlier one fetched it before c. */
  predicate Since(b: Bounds, s: State, v: nat, c: int) {
    && Sound(s) && Punctual(b, s) && !s.calls[LOOP].Clearing?
    && c <= s.now && v <= s.source
    && forall id :: id in s.calls && Old(s, id, v) ==>
         s.calls[id].since <= c + if s.calls[id].Read? then 0 else b.fetch
  }

  lemma StepSince(b: Bounds, s: State, step: Step, v: nat, c: int)
    requires Since(b, s, v, c) && Enabled(b, s, step)
    ensures Since(b, After(b, s, step), v, c)
  {
    StepSound(b, s, step);
    StepPunctual(b, s, step);
    var t := After(b, s, step);
    forall id | id in t.calls && Old(t, id, v)
      ensures t.calls[id].since <= c + if t.calls[id].Read? then 0 else b.fetch
    {
      assert CallPunctual(b, s, id) && CallSound(s, id);
    }
  }

  lemma {:induction false} RunSince(b: Bounds, s: State, steps: seq<Step>, t: State, v: nat, c: int)
    requires Since(b, s, v, c) && Run(b, s, steps, t)
    ensures Since(b, t, v, c)
    decreases |steps|
  {
    if steps != [] {
      var front, last := steps[..|steps| - 1], steps[|steps| - 1];
      var u :| Run(b, s, front, u) && Next(b, u, last, t);
      RunSince(b, s, front, u, v, c);
      StepSince(b, u, last, v, c);
    }
  }

  lemma SinceSettled(b: Bounds, s: State, v: nat, c: int)
    requires Since(b, s, v, c) && s.now > c + b.fetch + b.write
    ensures Settled(s, v)
  {
    forall id | id in s.calls ensures !Old(s, id, v) { assert CallPunctual(b, s, id); }
  }

  /** In every run, failures included: fetch + write after an instant behind the clear no
      call carries a version older than the source had then. */
  lemma OldValuesGone(b: Bounds, steps: seq<Step>, s: State, more: seq<Step>, t: State)
    requires Run(b, Initial(), steps, s) && LOOP in s.calls && !s.calls[LOOP].Clearing?
    requires Run(b, s, more, t) && t.now > s.now + b.fetch + b.write
    ensures Settled(t, s.source)
  {
    RunPunctual(b, steps, s);
    assert forall id :: id in s.calls ==> CallPunctual(b, s, id);
    RunSince(b, s, more, t, s.source, s.now);
    SinceSettled(b, t, s.source, s.now);
  }

  // ----- the rotation delay bound

  /** The loop's attempts succeed; other calls may fail to fetch or to open the file. */
  predicate Succeeds(step: Step) {
    !step.WriteFail? && step != FetchFail(LOOP) && step != OpenFail(LOOP)
  }

  ghost predicate AllSucceed(steps: seq<Step>) {
    forall i :: 0 <= i < |steps| ==> Succeeds(steps[i])
  }

  /** The loop's next write ends soon enough after the instant c. */
  predicate LoopSoon(b: Bounds, s: State, c: int)
    requires LOOP in s.calls
  {
    var due := c + b.fetch + b.write + b.refresh;
    match s.calls[LOOP]
    case Clearing => false
    case Sleeping(until) => until <= due
    case Fetching(since) => since <= due
    case Read(_, since) => since <= due
    case call => call.since <= due + b.fetch
  }

  /** Until the file is up to date the loop's next write stays due; when the loop
      unlocks too late for the one after it, the file is. */
  lemma StepLoopSoon(b: Bounds, s: State, step: Step, v: nat, c: int)
    requires Since(b, s, v, c) && LoopSoon(b, s, c) && Enabled(b, s, step) && Succeeds(step)
    ensures LoopSoon(b, After(b, s, step), c) || Fresh(After(b, s, step), v)
  {
    assert CallSound(s, LOOP) && CallPunctual(b, s, LOOP);
    if step == Unlock(LOOP) && s.now > c + b.fetch + b.write {
      SinceSettled(b, s, v, c);
      assert !Old(s, LOOP, v);
    }
  }

  lemma {:induction false} RunBecomesFresh(b: Bounds, s: State, steps: seq<Step>, t: State, v: nat, c: int)
    requires Since(b, s, v, c) && LoopSoon(b, s, c) && Run(b, s, steps, t) && AllSucceed(steps)
    ensures Since(b, t, v, c) && (LoopSoon(b, t, c) || Fresh(t, v))
    decreases |steps|
  {
    if steps != [] {
      var front, last := steps[..|steps| - 1], steps[|steps| - 1];
      var u :| Run(b, s, front, u) && Next(b, u, last, t);
      RunBecomesFresh(b, s, front, u, v, c);
      StepSince(b, u, last, v, c);
      if Fresh(u, v) {
        StepFresh(b, u, last, v);
      } else {
        StepLoopSoon(b, u, last, v, c);
      }
    }
  }

  /** Whatever the source holds at an instant behind the clear, the file shows it or
      something newer from refresh + 2 * (fetch + write) later on, with any number of
      concurrent `Refresh` calls, whatever failed before, and however often the source
      changes again; if it does not, the file shows exactly that. */
  lemma RotationDelayBound(b: Bounds, steps: seq<Step>, s: State, more: seq<Step>, t: State)
    requires Run(b, Initial(), steps, s) && LOOP in s.calls && !s.calls[LOOP].Clearing?
    requires Run(b, s, more, t) && AllSucceed(more)
    requires t.now > s.now + b.refresh + 2 * (b.fetch + b.write)
    ensures Fresh(t, s.source) && (t.lock.None? ==> Shows(t.file, s.source))
    ensures t.lock.None? && t.source == s.source ==> t.file == Holds(t.source)
  {
    hide Run, AllSucceed;
    RunPunctual(b, steps, s);
    assert forall id :: id in s.calls ==> CallPunctual(b, s, id);
    RunBecomesFresh(b, s, more, t, s.source, s.now);
    assert CallPunctual(b, t, LOOP) && CallSound(t, LOOP);
  }

  // ----- the bound is exact

  lemma Go(b: Bounds, s: State, steps: seq<Step>, u: State, step: Step) returns (more: seq<Step>, t: State)
    requires Run(b, s, steps, u) && AllSucceed(steps) && Enabled(b, u, step) && Succeeds(step)
    ensures more == steps + [step] && t == After(b, u, step)
    ensures Run(b, s, more, t) && AllSucceed(more)
  {
    more, t := steps + [step], After(b, u, step);
    assert more[..|steps|] == steps;
    assert Next(b, u, step, t);
  }

  lemma GoWrite(b: Bounds, s: State, steps: seq<Step>, u: State) returns (more: seq<Step>, t: State)
    requires Run(b, s, steps, u) && AllSucceed(steps)
    requires LOOP in u.calls && u.calls[LOOP].Waiting? && u.lock.None?
    ensures Run(b, s, more, t) && AllSucceed(more)
    ensures t == u.(file := Holds(u.calls[LOOP].version), calls := u.calls[LOOP := Sleeping(u.now + b.refresh)])
  {
    hide Run, AllSucceed;
    more, t := Go(b, s, steps, u, Lock(LOOP));
    more, t := Go(b, s, more, t, Open(LOOP));
    more, t := Go(b, s, more, t, Write(LOOP));
    more, t := Go(b, s, more, t, Unlock(LOOP));
    assert t.calls == u.calls[LOOP := Sleeping(u.now + b.refresh)];
  }

  /** The loop clears the file and reads version 0, and the source changes at once. */
  lemma GoRotate(b: Bounds) returns (steps: seq<Step>, t: State)
    ensures Run(b, Initial(), steps, t) && steps == [Clear(true), ReadSource(LOOP), Rotate]
    ensures t == State(0, 1, Empty, None, map[LOOP := Read(0, 0)], {0})
  {
    steps, t := Go(b, Initial(), [], Initial(), Clear(true));
    hide Run, AllSucceed;
    steps, t := Go(b, Initial(), steps, t, ReadSource(LOOP));
    steps, t := Go(b, Initial(), steps, t, Rotate);
    assert t.calls == map[LOOP := Read(0, 0)];
  }

  /** The loop alone, waiting out a fetch that has read the source and the wait for the lock. */
  lemma GoFetch(b: Bounds, s: State, steps: seq<Step>, u: State, v: nat) returns (more: seq<Step>, t: State)
    requires Run(b, s, steps, u) && AllSucceed(steps) && u.calls == map[LOOP := Read(v, u.now)]
    ensures Run(b, s, more, t) && AllSucceed(more)
    ensures t == u.(now := u.now + b.fetch + b.write, calls := map[LOOP := Waiting(v, u.now + b.fetch)])
  {
    hide Run, AllSucceed;
    more, t := Go(b, s, steps, u, Tick(b.fetch));
    more, t := Go(b, s, more, t, FetchDone(LOOP));
    assert t.calls == map[LOOP := Waiting(v, u.now + b.fetch)];
    more, t := Go(b, s, more, t, Tick(b.write));
  }

  lemma GoSleep(b: Bounds, s: State, steps: seq<Step>, u: State) returns (more: seq<Step>, t: State)
    requires Run(b, s, steps, u) && AllSucceed(steps) && u.calls == map[LOOP := Sleeping(u.now + b.refresh)]
    ensures Run(b, s, more, t) && AllSucceed(more)
    ensures t.now == u.now + b.refresh && t.calls == map[LOOP := Read(u.source, t.now)]
    ensures t.file == u.file && t.lock == u.lock && t.source == u.source
  {
    hide Run, AllSucceed;
    more, t := Go(b, s, steps, u, Tick(b.refresh));
    more, t := Go(b, s, more, t, Wake);
    more, t := Go(b, s, more, t, ReadSource(LOOP));
    assert t.calls == map[LOOP := Read(u.source, t.now)];
  }

  /** For all bounds some run of the loop alone still shows the old value, with the lock
      free, at the very instant refresh + 2 * (fetch + write) after the one change; so
      "within the refresh time" is not what the code gives. */
  lemma RotationDelayBoundExact(b: Bounds) returns (steps: seq<Step>, s: State, more: seq<Step>, t: State)
    ensures Run(b, Initial(), steps, s) && LOOP in s.calls && !s.calls[LOOP].Clearing?
    ensures steps != [] && steps[|steps| - 1] == Rotate
    ensures Run(b, s, more, t) && AllSucceed(more)
    ensures t.now == s.now + b.refresh + 2 * (b.fetch + b.write)
    ensures s.source == t.source == 1 && t.lock.None? && t.file == Holds(0)
  {
    steps, s := GoRotate(b);
    more, t := [], s;
    assert Run(b, s, more, t) && AllSucceed(more);
    hide Run, AllSucceed, Enabled, After;
    more, t := GoFetch(b, s, more, t, 0);
    more, t := GoWrite(b, s, more, t);
    assert t.calls == map[LOOP := Sleeping(t.now + b.refresh)];
    more, t := GoSleep(b, s, more, t);
    more, t := GoFetch(b, s, more, t, 1);
  }
}

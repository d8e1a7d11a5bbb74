/** The file-refresh protocol: one `Start` loop and any number of concurrent
    `Refresh` calls over one file (provider/aws_secrets_manager/file_provider.go,
    and the same code in provider/hashicorp_vault/file_provider.go), as a small-step
    system with a clock.

    Values of the source are named by version.  `os.WriteFile` is its two effects:
    truncation when the file is opened, then one write at offset zero. */
module FileRefresh {
  import opened Text

  /** Prior: what the file held before the start.  Torn: part of a value, left by a
      write that failed or that met text not truncated away. */
  datatype File = Prior | Empty | Holds(version: nat) | Torn

  /** Where a call stands.  `since` is when the fetch began or, once `getSecret`
      has returned, when it returned. */
  datatype Phase =
    | Clearing
    | Fetching(since: int)
    | Read(version: nat, since: int)
    | Waiting(version: nat, since: int)
    | Locked(version: nat, since: int)
    | Truncated(version: nat, since: int)
    | Written(version: nat, since: int)
    | Sleeping(until: int)
  {
    predicate Critical() { Locked? || Truncated? || Written? }
    predicate Carries() { Read? || Waiting? || Critical() }
  }

  /** The loop; every other identifier is a `Refresh` call. */
  const LOOP: nat := 0

  datatype State = State(
    now: int, source: nat, file: File, lock: Option<nat>, calls: map<nat, Phase>, fetched: set<nat>)

  /** The refresh interval, and how long a fetch and a locked write (the wait for
      the lock included) take at most. */
  datatype Bounds = Bounds(refresh: nat, fetch: nat, write: nat)

  datatype Step =
    | Tick(dt: nat)
    | Rotate
    | Clear(ok: bool)
    | Call(id: nat)
    | ReadSource(id: nat)
    | FetchDone(id: nat)
    | FetchFail(id: nat)
    | Lock(id: nat)
    | Open(id: nat)
    | OpenFail(id: nat)
    | Write(id: nat)
    | WriteFail(id: nat, torn: bool)
    | Unlock(id: nat)
    | Wake

  function Deadline(b: Bounds, phase: Phase): Option<int> {
    match phase
    case Clearing => None
    case Fetching(since) => Some(since + b.fetch)
    case Read(_, since) => Some(since + b.fetch)
    case Waiting(_, since) => Some(since + b.write)
    case Locked(_, since) => Some(since + b.write)
    case Truncated(_, since) => Some(since + b.write)
    case Written(_, since) => Some(since + b.write)
    case Sleeping(until) => Some(until)
  }

  predicate MeetsDeadline(b: Bounds, phase: Phase, now: int) {
    Deadline(b, phase).Some? ==> now <= Deadline(b, phase).value
  }

  function Initial(): State {
    State(0, 0, Prior, None, map[LOOP := Clearing], {})
  }

  predicate Enabled(b: Bounds, s: State, step: Step) {
    match step
    case Tick(dt) => forall id :: id in s.calls ==> MeetsDeadline(b, s.calls[id], s.now + dt)
    case Rotate => true
    case Clear(_) => LOOP in s.calls && s.calls[LOOP].Clearing?
    case Call(id) => id !in s.calls && id != LOOP
    case ReadSource(id) => id in s.calls && s.calls[id].Fetching?
    case FetchDone(id) => id in s.calls && s.calls[id].Read?
    case FetchFail(id) => id in s.calls && (s.calls[id].Fetching? || s.calls[id].Read?)
    case Lock(id) => id in s.calls && s.calls[id].Waiting? && s.lock.None?
    case Open(id) => id in s.calls && s.calls[id].Locked?
    case OpenFail(id) => id in s.calls && s.calls[id].Locked?
    case Write(id) => id in s.calls && s.calls[id].Truncated?
    case WriteFail(id, _) => id in s.calls && s.calls[id].Truncated?
    case Unlock(id) => id in s.calls && s.calls[id].Written?
    case Wake => LOOP in s.calls && s.calls[LOOP].Sleeping? && s.calls[LOOP].until <= s.now
  }

  /** The loop sleeps after every attempt; a `Refresh` call returns. */
  function Finish(b: Bounds, s: State, id: nat): map<nat, Phase> {
    if id == LOOP then s.calls[id := Sleeping(s.now + b.refresh)] else s.calls - {id}
  }

  function After(b: Bounds, s: State, step: Step): State
    requires Enabled(b, s, step)
  {
    match step
    case Tick(dt) => s.(now := s.now + dt)
    case Rotate => s.(source := s.source + 1)
    case Clear(ok) =>
      s.(file := if ok then Empty else s.file, calls := s.calls[LOOP := Fetching(s.now)])
    case Call(id) => s.(calls := s.calls[id := Fetching(s.now)])
    case ReadSource(id) =>
      s.(calls := s.calls[id := Read(s.source, s.calls[id].since)], fetched := s.fetched + {s.source})
    case FetchDone(id) => s.(calls := s.calls[id := Waiting(s.calls[id].version, s.now)])
    case FetchFail(id) => s.(calls := Finish(b, s, id))
    case Lock(id) => s.(lock := Some(id), calls := s.calls[id := Locked(s.calls[id].version, s.calls[id].since)])
    case Open(id) => s.(file := Empty, calls := s.calls[id := Truncated(s.calls[id].version, s.calls[id].since)])
    case OpenFail(id) => s.(lock := None, calls := Finish(b, s, id))
    case Write(id) =>
      s.(file := if s.file.Empty? then Holds(s.calls[id].version) else Torn,
         calls := s.calls[id := Written(s.calls[id].version, s.calls[id].since)])
    case WriteFail(id, torn) => s.(file := if torn then Torn else s.file, lock := None, calls := Finish(b, s, id))
    case Unlock(id) => s.(lock := None, calls := Finish(b, s, id))
    case Wake => s.(calls := s.calls[LOOP := Fetching(s.now)])
  }

  ghost predicate Next(b: Bounds, s: State, step: Step, t: State) {
    Enabled(b, s, step) && t == After(b, s, step)
  }

  /** Running the steps from s leads to t. */
  ghost predicate Run(b: Bounds, s: State, steps: seq<Step>, t: State)
    decreases |steps|
  {
    if steps == [] then s == t
    else
      var front, last := steps[..|steps| - 1], steps[|steps| - 1];
      exists u :: Run(b, s, front, u) && Next(b, u, last, t)
  }
}

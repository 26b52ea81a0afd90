/** ParallelFetch as a semaphore protocol (pipeline/fetch.go): one worker per
    URL, at most `limit` of them inside the fetch function, each writing its own
    slot of the result. */
module ParallelFetch {
  import opened SearchTypes
  import opened Totals

  datatype FetchResult = FetchResult(url: string, content: string, err: Option<string>)

  // The worker of one URL: before the semaphore, inside the fetch function,
  // after writing its slot, after releasing the semaphore, after wg.Done.
  datatype Phase = Waiting | Fetching | Written | Released | Done

  datatype State = State(
    phases: seq<Phase>,         // of the workers launched so far
    sem: nat,                   // tokens in the semaphore channel
    wg: int,
    slots: seq<Option<FetchResult>>,
    writes: seq<nat>,           // how often each slot was written
    returned: bool)

  datatype Step =
    | Launch
    | Acquire(worker: nat)
    | FetchReturns(worker: nat, content: string, err: Option<string>)
    | FetchPanics(worker: nat, message: string)
    | Release(worker: nat)
    | Exit(worker: nat)
    | Return

  const DEFAULT_MAX_CONCURRENCY := 10

  // The limit is the last positive option, and 10 when there is none.
  predicate IsLimit(options: seq<int>, limit: int) {
    || (limit == 10 && forall j :: 0 <= j < |options| ==> options[j] <= 0)
    || (limit > 0 && exists k :: 0 <= k < |options| && options[k] == limit && NonePositive(options, k + 1))
  }

  predicate NonePositive(options: seq<int>, from: nat) {
    forall j :: from <= j < |options| ==> options[j] <= 0
  }

  // The loop over the options: only positive limits are taken over.
  method ApplyOptions(options: seq<int>) returns (limit: int)
    ensures IsLimit(options, limit)
  {
    limit := DEFAULT_MAX_CONCURRENCY;
    ghost var at := -1;
    for k := 0 to |options|
      invariant -1 <= at < k && forall j :: at < j < k ==> options[j] <= 0
      invariant if at < 0 then limit == 10 else limit == options[at] > 0
    {
      if options[k] > 0 {
        limit := options[k];
        at := k;
      }
    }
    if at >= 0 { assert NonePositive(options, at + 1); }
  }

  function Init(urls: seq<string>): State {
    State([], 0, 0, seq(|urls|, _ => None), seq(|urls|, _ => 0), false)
  }

  predicate At(s: State, i: nat, p: Phase) { i < |s.phases| && s.phases[i] == p }

  predicate Enabled(urls: seq<string>, limit: int, s: State, step: Step) {
    Sized(urls, s) &&
    match step
    case Launch => |s.phases| < |urls|
    case Acquire(i) => At(s, i, Waiting) && s.sem < limit
    case FetchReturns(i, _, _) => At(s, i, Fetching)
    case FetchPanics(i, _) => At(s, i, Fetching)
    case Release(i) => At(s, i, Written) && s.sem > 0
    case Exit(i) => At(s, i, Released)
    case Return => |s.phases| == |urls| && s.wg == 0 && !s.returned
  }

  function Write(s: State, i: nat, r: FetchResult): State
    requires i < |s.phases| && i < |s.slots| == |s.writes|
  {
    s.(phases := s.phases[i := Written], slots := s.slots[i := Some(r)], writes := s.writes[i := s.writes[i] + 1])
  }

  function Next(urls: seq<string>, limit: int, s: State, step: Step): State
    requires Enabled(urls, limit, s, step)
  {
    match step
    case Launch => s.(phases := s.phases + [Waiting], wg := s.wg + 1)
    case Acquire(i) => s.(phases := s.phases[i := Fetching], sem := s.sem + 1)
    case FetchReturns(i, content, err) => Write(s, i, FetchResult(urls[i], content, err))
    case FetchPanics(i, message) => Write(s, i, FetchResult(urls[i], "", Some("panic: " + message)))
    case Release(i) => s.(phases := s.phases[i := Released], sem := s.sem - 1)
    case Exit(i) => s.(phases := s.phases[i := Done], wg := s.wg - 1)
    case Return => s.(returned := true)
  }

  // ---- The invariant

  predicate Sized(urls: seq<string>, s: State) {
    |s.phases| <= |urls| == |s.slots| == |s.writes|
  }

  function Holding(p: Phase): int { if p.Fetching? || p.Written? then 1 else 0 }
  function Inside(p: Phase): int { if p.Fetching? then 1 else 0 }
  function Alive(p: Phase): int { if p.Done? then 0 else 1 }

  predicate HasWritten(p: Phase) { p.Written? || p.Released? || p.Done? }

  // A slot is written once its worker is past the fetch, and not before.
  predicate SlotSound(urls: seq<string>, s: State, i: nat)
    requires Sized(urls, s) && i < |urls|
  {
    if i < |s.phases| && HasWritten(s.phases[i])
    then s.writes[i] == 1 && s.slots[i].Some? && s.slots[i].value.url == urls[i]
    else s.writes[i] == 0 && s.slots[i].None?
  }

  predicate Inv(urls: seq<string>, limit: int, s: State) {
    && Sized(urls, s)
    && s.sem == Total(Holding, s.phases) <= limit
    && s.wg == Total(Alive, s.phases)
    && (forall i :: 0 <= i < |urls| ==> SlotSound(urls, s, i))
    && (s.returned ==> |s.phases| == |urls| && s.wg == 0)
  }

  lemma StepKeeps(urls: seq<string>, limit: int, s: State, step: Step)
    requires Inv(urls, limit, s) && Enabled(urls, limit, s, step)
    ensures Inv(urls, limit, Next(urls, limit, s, step))
  {
    var t := Next(urls, limit, s, step);
    match step
    case Launch => LaunchKeeps(urls, limit, s);
    case Return => SlotsFramed(urls, s, t);
    case Acquire(i) => WorkerStep(urls, limit, s, t, i);
    case FetchReturns(i, _, _) => WorkerStep(urls, limit, s, t, i);
    case FetchPanics(i, _) => WorkerStep(urls, limit, s, t, i);
    case Release(i) => WorkerStep(urls, limit, s, t, i);
    case Exit(i) => WorkerStep(urls, limit, s, t, i);
  }

  lemma LaunchKeeps(urls: seq<string>, limit: int, s: State)
    requires Inv(urls, limit, s) && Enabled(urls, limit, s, Launch)
    ensures Inv(urls, limit, Next(urls, limit, s, Launch))
  {
    TotalAppend(Holding, s.phases, Waiting);
    TotalAppend(Alive, s.phases, Waiting);
    SlotsFramed(urls, s, Next(urls, limit, s, Launch));
  }

  // A step of worker i, which was not done yet, touches only its own slot.
  lemma WorkerStep(urls: seq<string>, limit: int, s: State, t: State, i: nat)
    requires Inv(urls, limit, s) && Sized(urls, t)
    requires i < |s.phases| == |t.phases| && t.phases == s.phases[i := t.phases[i]] && !s.phases[i].Done?
    requires forall k :: 0 <= k < |urls| && k != i ==> t.slots[k] == s.slots[k] && t.writes[k] == s.writes[k]
    requires SlotSound(urls, s, i) ==> SlotSound(urls, t, i)
    ensures !s.returned
    ensures forall k :: 0 <= k < |urls| ==> SlotSound(urls, t, k)
    ensures Total(Holding, t.phases) == Total(Holding, s.phases) - Holding(s.phases[i]) + Holding(t.phases[i])
    ensures Total(Alive, t.phases) == Total(Alive, s.phases) - Alive(s.phases[i]) + Alive(t.phases[i])
  {
    TotalDominates(Alive, s.phases, i);
    TotalUpdate(Holding, s.phases, i, t.phases[i]);
    TotalUpdate(Alive, s.phases, i, t.phases[i]);
    forall k | 0 <= k < |urls| ensures SlotSound(urls, t, k) {
      assert SlotSound(urls, s, k);
    }
  }

  // Slots are untouched by a launch and by the return.
  lemma SlotsFramed(urls: seq<string>, s: State, t: State)
    requires Sized(urls, s) && Sized(urls, t) && t.slots == s.slots && t.writes == s.writes
    requires t.phases == s.phases || t.phases == s.phases + [Waiting]
    requires forall k :: 0 <= k < |urls| ==> SlotSound(urls, s, k)
    ensures forall k :: 0 <= k < |urls| ==> SlotSound(urls, t, k)
  {
    forall k | 0 <= k < |urls| ensures SlotSound(urls, t, k) {
      assert SlotSound(urls, s, k);
    }
  }

  // ---- Runs

  predicate IsRun(urls: seq<string>, limit: int, steps: seq<Step>)
    decreases |steps|, 0
  {
    steps == [] ||
    (var front := steps[..|steps| - 1];
     IsRun(urls, limit, front) && Enabled(urls, limit, After(urls, limit, front), steps[|steps| - 1]))
  }

  function After(urls: seq<string>, limit: int, steps: seq<Step>): State
    requires IsRun(urls, limit, steps)
    decreases |steps|, 1
  {
    if steps == [] then Init(urls)
    else Next(urls, limit, After(urls, limit, steps[..|steps| - 1]), steps[|steps| - 1])
  }

  lemma {:induction false} RunInv(urls: seq<string>, limit: int, steps: seq<Step>)
    requires limit > 0 && IsRun(urls, limit, steps)
    ensures Inv(urls, limit, After(urls, limit, steps))
  {
    if steps != [] {
      var front := steps[..|steps| - 1];
      RunInv(urls, limit, front);
      StepKeeps(urls, limit, After(urls, limit, front), steps[|steps| - 1]);
    }
  }

  lemma {:induction false} InsideHold(phases: seq<Phase>)
    ensures Total(Inside, phases) <= Total(Holding, phases)
  {
    if phases != [] { InsideHold(phases[..|phases| - 1]); }
  }

  // In every interleaving at most `limit` workers are inside the fetch function.
  lemma BoundedConcurrency(urls: seq<string>, limit: int, steps: seq<Step>)
    requires limit > 0 && IsRun(urls, limit, steps)
    ensures Total(Inside, After(urls, limit, steps).phases) <= limit
  {
    RunInv(urls, limit, steps);
    InsideHold(After(urls, limit, steps).phases);
  }

  lemma StepExists(urls: seq<string>, limit: int, s: State) returns (step: Step)
    requires limit > 0 && Inv(urls, limit, s) && !s.returned
    ensures Enabled(urls, limit, s, step)
  {
    if |s.phases| < |urls| {
      return Launch;
    }
    if i :| 0 <= i < |s.phases| && s.phases[i].Released? {
      return Exit(i);
    }
    if i :| 0 <= i < |s.phases| && Holding(s.phases[i]) == 1 {
      TotalDominates(Holding, s.phases, i);
      return if s.phases[i].Written? then Release(i) else FetchReturns(i, "", None);
    }
    TotalBetween(Holding, s.phases, 0, 0);
    if i :| 0 <= i < |s.phases| && s.phases[i].Waiting? {
      return Acquire(i);
    }
    TotalBetween(Alive, s.phases, 0, 0);
    return Return;
  }

  // Until the call returns, some step is possible: no deadlock.
  lemma NeverStuck(urls: seq<string>, limit: int, steps: seq<Step>) returns (step: Step)
    requires limit > 0 && IsRun(urls, limit, steps) && !After(urls, limit, steps).returned
    ensures Enabled(urls, limit, After(urls, limit, steps), step)
  {
    RunInv(urls, limit, steps);
    step := StepExists(urls, limit, After(urls, limit, steps));
  }

  function PhaseWork(p: Phase): int {
    match p
    case Waiting => 4
    case Fetching => 3
    case Written => 2
    case Released => 1
    case Done => 0
  }

  function Work(urls: seq<string>, s: State): int {
    5 * (|urls| - |s.phases|) + Total(PhaseWork, s.phases) + (if s.returned then 0 else 1)
  }

  lemma StepLessWork(urls: seq<string>, limit: int, s: State, step: Step)
    requires Enabled(urls, limit, s, step)
    ensures Work(urls, Next(urls, limit, s, step)) < Work(urls, s)
  {
    var t := Next(urls, limit, s, step);
    match step
    case Launch => TotalAppend(PhaseWork, s.phases, Waiting);
    case Acquire(i) => TotalUpdate(PhaseWork, s.phases, i, t.phases[i]);
    case FetchReturns(i, _, _) => TotalUpdate(PhaseWork, s.phases, i, t.phases[i]);
    case FetchPanics(i, _) => TotalUpdate(PhaseWork, s.phases, i, t.phases[i]);
    case Release(i) => TotalUpdate(PhaseWork, s.phases, i, t.phases[i]);
    case Exit(i) => TotalUpdate(PhaseWork, s.phases, i, t.phases[i]);
    case Return =>
  }

  lemma {:induction false} WorkAtStart(urls: seq<string>)
    ensures Work(urls, Init(urls)) == 5 * |urls| + 1
  {}

  lemma WorkLeft(urls: seq<string>, limit: int, s: State)
    requires Inv(urls, limit, s)
    ensures 0 <= Work(urls, s)
  {
    TotalNonNegative(PhaseWork, s.phases);
  }

  // Every run ends: five steps per URL and one more.
  lemma {:induction false} RunsAreFinite(urls: seq<string>, limit: int, steps: seq<Step>)
    requires limit > 0 && IsRun(urls, limit, steps)
    ensures |steps| + Work(urls, After(urls, limit, steps)) <= 5 * |urls| + 1
    ensures 0 <= Work(urls, After(urls, limit, steps))
  {
    if steps == [] {
      WorkAtStart(urls);
    } else {
      var front := steps[..|steps| - 1];
      RunsAreFinite(urls, limit, front);
      StepLessWork(urls, limit, After(urls, limit, front), steps[|steps| - 1]);
    }
    RunInv(urls, limit, steps);
    WorkLeft(urls, limit, After(urls, limit, steps));
  }

  // What the fetch of one URL came to in a run: its return or its panic.
  predicate Outcome(urls: seq<string>, step: Step, i: nat, r: FetchResult)
    requires i < |urls|
  {
    || (step.FetchReturns? && step.worker == i && r == FetchResult(urls[i], step.content, step.err))
    || (step.FetchPanics? && step.worker == i && r == FetchResult(urls[i], "", Some("panic: " + step.message)))
  }

  predicate HasOutcome(urls: seq<string>, steps: seq<Step>, i: nat, r: FetchResult)
    requires i < |urls|
  {
    exists k :: 0 <= k < |steps| && Outcome(urls, steps[k], i, r)
  }

  lemma {:induction false} SlotsComeFromFetches(urls: seq<string>, limit: int, steps: seq<Step>, i: nat)
    requires limit > 0 && IsRun(urls, limit, steps) && i < |urls|
    ensures Sized(urls, After(urls, limit, steps))
    ensures After(urls, limit, steps).slots[i].Some? ==>
      HasOutcome(urls, steps, i, After(urls, limit, steps).slots[i].value)
  {
    RunInv(urls, limit, steps);
    if steps != [] {
      var n := |steps| - 1;
      var front := steps[..n];
      SlotsComeFromFetches(urls, limit, front, i);
      var s, t := After(urls, limit, front), After(urls, limit, steps);
      if t.slots[i].Some? {
        if s.slots[i] == t.slots[i] {
          var k :| 0 <= k < n && Outcome(urls, front[k], i, t.slots[i].value);
          assert Outcome(urls, steps[k], i, t.slots[i].value);
        } else {
          assert Outcome(urls, steps[n], i, t.slots[i].value);
        }
      }
    }
  }

  // When the call returns there is one result per URL, in input order: slot i
  // was written once, by its own worker, with its own URL and what that fetch
  // came to, panics included.
  lemma AllResultsInOrder(urls: seq<string>, limit: int, steps: seq<Step>, i: nat)
    requires limit > 0 && IsRun(urls, limit, steps) && After(urls, limit, steps).returned && i < |urls|
    ensures var s := After(urls, limit, steps);
      && |s.slots| == |s.writes| == |urls|
      && s.writes[i] == 1
      && s.slots[i].Some? && s.slots[i].value.url == urls[i]
      && HasOutcome(urls, steps, i, s.slots[i].value)
  {
    var s := After(urls, limit, steps);
    RunInv(urls, limit, steps);
    SlotsComeFromFetches(urls, limit, steps, i);
    TotalDominates(Alive, s.phases, i);
    assert SlotSound(urls, s, i);
  }
}

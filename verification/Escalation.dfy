/** The render tier behind the fan-out (search/direct_runners.go): admission by
    a try-acquire semaphore, then one worker per admitted engine that renders,
    delivers or un-marks, and releases its slot. */
module Escalation {
  import opened SearchTypes
  import opened Totals
  import BlockCache

  const DEFAULT_CONCURRENCY := 2

  function Concurrency(configured: int): (c: int)
    ensures c > 0
  {
    if configured <= 0 then DEFAULT_CONCURRENCY else configured
  }

  // How many engines get a slot.
  function Admitted(eligible: seq<string>, configured: int): (n: nat)
    ensures n <= |eligible| && n <= Concurrency(configured)
  {
    if |eligible| < Concurrency(configured) then |eligible| else Concurrency(configured)
  }

  // ---- Admission

  // The labels found blocked, asking one after the other; asking may drop an
  // expired entry.
  function Scan(c: BlockCache.Cache, labels: seq<string>, clock: seq<int>): (seq<string>, BlockCache.Cache)
    requires |clock| >= |labels|
  {
    if labels == [] then ([], c)
    else
      var n := |labels| - 1;
      var (found, d) := Scan(c, labels[..n], clock[..n]);
      (if BlockCache.Blocks(d, labels[n], clock[n]) then found + [labels[n]] else found,
       BlockCache.AfterQuery(d, labels[n], clock[n]))
  }

  lemma ScanStep(c: BlockCache.Cache, labels: seq<string>, clock: seq<int>, k: nat)
    requires k < |labels| == |clock|
    ensures var (found, d) := Scan(c, labels[..k], clock[..k]);
      Scan(c, labels[..k + 1], clock[..k + 1]) ==
        (if BlockCache.Blocks(d, labels[k], clock[k]) then found + [labels[k]] else found,
         BlockCache.AfterQuery(d, labels[k], clock[k]))
  {
    assert labels[..k + 1][..k] == labels[..k] && clock[..k + 1][..k] == clock[..k];
  }

  // The labels blocked in one fixed cache.
  function BlockedIn(c: BlockCache.Cache, labels: seq<string>, clock: seq<int>): seq<string>
    requires |clock| >= |labels|
  {
    if labels == [] then []
    else
      var n := |labels| - 1;
      BlockedIn(c, labels[..n], clock[..n]) + (if BlockCache.Blocks(c, labels[n], clock[n]) then [labels[n]] else [])
  }

  // For distinct labels the questions do not disturb each other, and every
  // label found stays marked as before.
  lemma {:induction false} ScanDistinct(c: BlockCache.Cache, labels: seq<string>, clock: seq<int>)
    requires |clock| >= |labels| && Distinct(labels)
    ensures Scan(c, labels, clock).0 == BlockedIn(c, labels, clock)
    ensures forall l :: l !in labels || l in BlockedIn(c, labels, clock) ==>
      (l in Scan(c, labels, clock).1.items <==> l in c.items)
    ensures forall l <- Scan(c, labels, clock).1.items ::
      l in c.items && Scan(c, labels, clock).1.items[l] == c.items[l]
    ensures forall l <- BlockedIn(c, labels, clock) :: l in labels && l in c.items
  {
    if labels != [] {
      var n := |labels| - 1;
      var front := labels[..n];
      ScanDistinct(c, front, clock[..n]);
      assert labels == front + [labels[n]];
      assert labels[n] !in front;
    }
  }

  lemma {:induction false} BlockedInDistinct(c: BlockCache.Cache, labels: seq<string>, clock: seq<int>)
    requires |clock| >= |labels| && Distinct(labels)
    ensures Distinct(BlockedIn(c, labels, clock))
    ensures forall l <- BlockedIn(c, labels, clock) :: l in labels
  {
    if labels != [] {
      var n := |labels| - 1;
      BlockedInDistinct(c, labels[..n], clock[..n]);
      assert labels[n] !in labels[..n];
    }
  }

  // acquireOxSlots: a slot is taken while the semaphore has room, the other
  // engines are recorded as skipped.
  method AcquireOxSlots(capacity: int, eligible: seq<string>) returns (acquired: seq<string>, skipped: seq<string>)
    requires capacity > 0
    ensures var n := if |eligible| < capacity then |eligible| else capacity;
      acquired == eligible[..n] && skipped == eligible[n..]
  {
    acquired, skipped := [], [];
    var sem := 0;
    for k := 0 to |eligible|
      invariant 0 <= sem <= k && sem <= capacity && (sem < capacity ==> sem == k)
      invariant acquired == eligible[..sem] && skipped == eligible[sem..k]
    {
      if sem < capacity {
        assert eligible[..k + 1] == eligible[..k] + [eligible[k]];
        sem := sem + 1;
        acquired := acquired + [eligible[k]];
      } else {
        assert eligible[sem..k + 1] == eligible[sem..k] + [eligible[k]];
        skipped := skipped + [eligible[k]];
      }
    }
    assert eligible[sem..|eligible|] == eligible[sem..];
  }

  // The engines the cache blocks, asked about one after the other.
  method Eligible(cache: BlockCache.DirectBlockCache, labels: seq<string>, clock: seq<int>)
    returns (eligible: seq<string>)
    requires |clock| == |labels| && cache.Valid()
    modifies cache
    ensures cache.Valid() && (eligible, cache.State()) == Scan(old(cache.State()), labels, clock)
  {
    eligible := [];
    for k := 0 to |labels|
      invariant cache.Valid()
      invariant (eligible, cache.State()) == Scan(old(cache.State()), labels[..k], clock[..k])
    {
      ScanStep(old(cache.State()), labels, clock, k);
      var blocked := cache.IsBlocked(labels[k], clock[k]);
      if blocked {
        eligible := eligible + [labels[k]];
      }
    }
    assert labels[..|labels|] == labels && clock[..|clock|] == clock;
  }

  // The part of runOxEscalation before the launch. The tier is dormant without
  // a fetcher, an allow-list or a cache, and rests when the fan-out already
  // produced enough.
  method Admit(fetchWired: bool, oxEscalate: seq<string>, cache: BlockCache.DirectBlockCache?,
               mergedLen: nat, earlyAt: int, configured: int, clock: seq<int>)
    returns (eligible: seq<string>, acquired: seq<string>, skipped: seq<string>)
    requires |clock| == |oxEscalate| && (cache != null ==> cache.Valid())
    modifies cache
    ensures cache != null ==> cache.Valid()
    ensures !fetchWired || oxEscalate == [] || cache == null || mergedLen >= earlyAt ==>
      eligible == [] && (cache != null ==> cache.State() == old(cache.State()))
    ensures !(!fetchWired || oxEscalate == [] || cache == null || mergedLen >= earlyAt) ==>
      (eligible, cache.State()) == Scan(old(cache.State()), oxEscalate, clock)
    ensures var slots := if configured <= 0 then 2 else configured;
      var n := if |eligible| < slots then |eligible| else slots;
      acquired == eligible[..n] && skipped == eligible[n..]
  {
    eligible, acquired, skipped := [], [], [];
    if !fetchWired || |oxEscalate| == 0 || cache == null {
      return;
    }
    if mergedLen >= earlyAt {
      return;
    }
    eligible := Eligible(cache, oxEscalate, clock);
    if |eligible| == 0 {
      return;
    }
    acquired, skipped := AcquireOxSlots(Concurrency(configured), eligible);
  }

  // ---- Rendering one engine

  datatype Fetched = FetchError | ParseError | Page(results: seq<Result>, gated: bool)

  datatype RenderOutcome = RenderOk | RenderEmpty | RenderCaptcha | RenderFail

  // runOxEngine: results come with the outcome "ok" and with no other.
  function RunOxEngine(engine: string, f: Fetched): (r: (seq<Result>, RenderOutcome))
    ensures r.0 != [] <==> r.1 == RenderOk
  {
    if engine !in {"ddg", "brave", "bing"} then ([], RenderFail)
    else match f
      case FetchError => ([], RenderFail)
      case ParseError => ([], RenderFail)
      case Page(results, gated) =>
        if results == [] then ([], if gated then RenderCaptcha else RenderEmpty) else (results, RenderOk)
  }

  // ---- The workers

  // What a fetch comes to for an engine: a page's results if it has any and the
  // engine is one of the three; otherwise no result, and the outcome says why.
  predicate RenderedAs(engine: string, f: Fetched, res: seq<Result>, outcome: RenderOutcome) {
    var known := engine == "ddg" || engine == "brave" || engine == "bing";
    && (outcome == RenderOk <==> known && f.Page? && f.results != [])
    && (outcome == RenderCaptcha <==> known && f.Page? && f.results == [] && f.gated)
    && (outcome == RenderEmpty <==> known && f.Page? && f.results == [] && !f.gated)
    && (outcome == RenderFail <==> !known || f == FetchError || f == ParseError)
    && res == if known && f.Page? then f.results else []
  }

  lemma RenderSound(engine: string, f: Fetched)
    ensures RenderedAs(engine, f, RunOxEngine(engine, f).0, RunOxEngine(engine, f).1)
  {}

  // One worker's life after its launch; `res` is what its render returned.
  datatype Phase =
    | Ready
    | Rendering
    | Rendered(res: seq<Result>)   // outcome recorded
    | Settled(res: seq<Result>)    // results sent, or engine un-marked
    | Lowered(res: seq<Result>)    // gauge lowered
    | Freed(res: seq<Result>)      // slot released
    | Done(res: seq<Result>)       // wg.Done

  datatype Parcel = Parcel(worker: nat, res: seq<Result>)

  datatype State = State(
    phases: seq<Phase>,
    sem: int,
    gauge: int,
    wg: int,
    channel: seq<Parcel>,
    closed: bool,
    received: seq<Parcel>,
    all: seq<Result>,
    outcomes: seq<seq<RenderOutcome>>,  // recorded per admitted engine
    cache: BlockCache.Cache,
    returned: bool)

  datatype Step =
    | Launch
    | Begin(worker: nat)
    | Render(worker: nat, fetched: Fetched)
    | Settle(worker: nat)
    | Lower(worker: nat)
    | Free(worker: nat)
    | Exit(worker: nat)
    | Close
    | Receive
    | Return

  function Init(acquired: seq<string>, cache: BlockCache.Cache): State {
    State([], |acquired|, 0, 0, [], false, [], [], seq(|acquired|, _ => []), cache, false)
  }

  predicate Sized(acquired: seq<string>, s: State) {
    |s.phases| <= |acquired| == |s.outcomes|
  }

  predicate Enabled(acquired: seq<string>, s: State, step: Step) {
    Sized(acquired, s) &&
    match step
    case Launch => |s.phases| < |acquired|
    case Begin(i) => i < |s.phases| && s.phases[i].Ready?
    case Render(i, _) => i < |s.phases| && s.phases[i].Rendering?
    case Settle(i) =>
      i < |s.phases| && s.phases[i].Rendered? && (s.phases[i].res != [] ==> |s.channel| < |acquired| && !s.closed)
    case Lower(i) => i < |s.phases| && s.phases[i].Settled?
    case Free(i) => i < |s.phases| && s.phases[i].Lowered? && s.sem > 0
    case Exit(i) => i < |s.phases| && s.phases[i].Freed?
    case Close => |s.phases| == |acquired| && s.wg == 0 && !s.closed
    case Receive => |s.phases| == |acquired| && s.channel != [] && !s.returned
    case Return => |s.phases| == |acquired| && s.closed && s.channel == [] && !s.returned
  }

  function SetPhase(s: State, i: nat, p: Phase): State
    requires i < |s.phases|
  {
    s.(phases := s.phases[i := p])
  }

  function Next(acquired: seq<string>, s: State, step: Step): State
    requires Enabled(acquired, s, step)
  {
    match step
    case Launch => s.(phases := s.phases + [Ready], wg := s.wg + 1)
    case Begin(i) => SetPhase(s, i, Rendering).(gauge := s.gauge + 1)
    case Render(i, f) =>
      var (res, outcome) := RunOxEngine(acquired[i], f);
      SetPhase(s, i, Rendered(res)).(outcomes := s.outcomes[i := s.outcomes[i] + [outcome]])
    case Settle(i) =>
      var res := s.phases[i].res;
      var t := SetPhase(s, i, Settled(res));
      if res != [] then t.(channel := s.channel + [Parcel(i, res)])
      else t.(cache := BlockCache.AfterUnmark(s.cache, acquired[i]))
    case Lower(i) => SetPhase(s, i, Lowered(s.phases[i].res)).(gauge := s.gauge - 1)
    case Free(i) => SetPhase(s, i, Freed(s.phases[i].res)).(sem := s.sem - 1)
    case Exit(i) => SetPhase(s, i, Done(s.phases[i].res)).(wg := s.wg - 1)
    case Close => s.(closed := true)
    case Receive =>
      s.(channel := s.channel[1..], received := s.received + [s.channel[0]], all := s.all + s.channel[0].res)
    case Return => s.(returned := true)
  }

  // ---- The invariant

  function InRender(p: Phase): int { if p.Rendering? || p.Rendered? || p.Settled? then 1 else 0 }
  function Held(p: Phase): int { if p.Freed? || p.Done? then 0 else 1 }
  function Alive(p: Phase): int { if p.Done? then 0 else 1 }

  predicate HasRendered(p: Phase) { !p.Ready? && !p.Rendering? }
  predicate HasSettled(p: Phase) { HasRendered(p) && !p.Rendered? }

  // A worker that found results and has settled, hence sent them.
  function Sender(p: Phase): int { if HasSettled(p) && p.res != [] then 1 else 0 }

  predicate CountsSound(acquired: seq<string>, s: State) {
    && s.sem == |acquired| - |s.phases| + Total(Held, s.phases)
    && s.gauge == Total(InRender, s.phases)
    && s.wg == Total(Alive, s.phases)
    && |s.received| + |s.channel| == Total(Sender, s.phases)
  }

  // One outcome per finished render, none before.
  predicate OutcomeSound(s: State, i: nat)
    requires i < |s.outcomes|
  {
    if i < |s.phases| && HasRendered(s.phases[i])
    then |s.outcomes[i]| == 1 && (s.outcomes[i][0] == RenderOk <==> s.phases[i].res != [])
    else s.outcomes[i] == []
  }

  // The label was un-marked by a worker whose render found nothing.
  predicate GivenUp(acquired: seq<string>, phases: seq<Phase>, l: string)
    requires |phases| <= |acquired|
  {
    exists i :: 0 <= i < |phases| && acquired[i] == l && HasSettled(phases[i]) && phases[i].res == []
  }

  ghost predicate CacheSound(acquired: seq<string>, start: BlockCache.Cache, s: State)
    requires Sized(acquired, s)
  {
    forall l :: if l in start.items && !GivenUp(acquired, s.phases, l)
                then l in s.cache.items && s.cache.items[l] == start.items[l]
                else l !in s.cache.items
  }

  function InFlight(s: State): seq<Parcel> { s.received + s.channel }

  predicate ParcelSound(s: State, p: Parcel) {
    p.worker < |s.phases| && Sender(s.phases[p.worker]) == 1 && p.res == s.phases[p.worker].res
  }

  predicate ParcelsSound(s: State) {
    && (forall k :: 0 <= k < |InFlight(s)| ==> ParcelSound(s, InFlight(s)[k]))
    && (forall j, k :: 0 <= j < k < |InFlight(s)| ==> InFlight(s)[j].worker != InFlight(s)[k].worker)
  }

  function Unpacked(ps: seq<Parcel>): seq<Result> {
    if ps == [] then [] else Unpacked(ps[..|ps| - 1]) + ps[|ps| - 1].res
  }

  predicate PhasesSound(acquired: seq<string>, s: State) {
    && (s.closed ==> |s.phases| == |acquired| && s.wg == 0)
    && (s.returned ==> s.closed && s.channel == [])
    && s.all == Unpacked(s.received)
  }

  ghost predicate Inv(acquired: seq<string>, start: BlockCache.Cache, s: State) {
    && Sized(acquired, s)
    && CountsSound(acquired, s)
    && (forall i :: 0 <= i < |acquired| ==> OutcomeSound(s, i))
    && CacheSound(acquired, start, s)
    && ParcelsSound(s)
    && PhasesSound(acquired, s)
  }

  lemma UpdateCounts(phases: seq<Phase>, i: nat, p: Phase)
    requires i < |phases|
    ensures Total(Held, phases[i := p]) == Total(Held, phases) - Held(phases[i]) + Held(p)
    ensures Total(InRender, phases[i := p]) == Total(InRender, phases) - InRender(phases[i]) + InRender(p)
    ensures Total(Alive, phases[i := p]) == Total(Alive, phases) - Alive(phases[i]) + Alive(p)
    ensures Total(Sender, phases[i := p]) == Total(Sender, phases) - Sender(phases[i]) + Sender(p)
  {
    TotalUpdate(Held, phases, i, p);
    TotalUpdate(InRender, phases, i, p);
    TotalUpdate(Alive, phases, i, p);
    TotalUpdate(Sender, phases, i, p);
  }

  // Worker i moves on without settling: outcomes, cache and parcels stand.
  lemma MoveKeeps(acquired: seq<string>, start: BlockCache.Cache, s: State, i: nat, p: Phase)
    requires Inv(acquired, start, s) && i < |s.phases|
    requires HasSettled(p) <==> HasSettled(s.phases[i])
    requires HasSettled(p) ==> p.res == s.phases[i].res
    ensures var t := SetPhase(s, i, p); CacheSound(acquired, start, t) && ParcelsSound(t)
  {
    var t := SetPhase(s, i, p);
    assert InFlight(t) == InFlight(s);
    forall l ensures GivenUp(acquired, t.phases, l) <==> GivenUp(acquired, s.phases, l) {
      if k :| 0 <= k < |s.phases| && acquired[k] == l && HasSettled(s.phases[k]) && s.phases[k].res == [] {
        assert HasSettled(t.phases[k]);
      }
      if k :| 0 <= k < |t.phases| && acquired[k] == l && HasSettled(t.phases[k]) && t.phases[k].res == [] {
        assert HasSettled(s.phases[k]);
      }
    }
    forall k | 0 <= k < |InFlight(s)| ensures ParcelSound(t, InFlight(t)[k]) {
      assert ParcelSound(s, InFlight(s)[k]);
    }
  }

  lemma SettleKeepsParcels(acquired: seq<string>, start: BlockCache.Cache, s: State, i: nat)
    requires Inv(acquired, start, s) && Enabled(acquired, s, Settle(i))
    ensures ParcelsSound(Next(acquired, s, Settle(i)))
  {
    var t := Next(acquired, s, Settle(i));
    var res := s.phases[i].res;
    if res == [] {
      assert InFlight(t) == InFlight(s);
    } else {
      assert InFlight(t) == InFlight(s) + [Parcel(i, res)];
    }
    forall k | 0 <= k < |InFlight(s)| ensures ParcelSound(t, InFlight(s)[k]) && InFlight(s)[k].worker != i {
      assert ParcelSound(s, InFlight(s)[k]);
    }
    ParcelsAppended(InFlight(s), Parcel(i, res));
  }

  lemma ParcelsAppended(ps: seq<Parcel>, p: Parcel)
    requires forall j, k :: 0 <= j < k < |ps| ==> ps[j].worker != ps[k].worker
    requires forall k :: 0 <= k < |ps| ==> ps[k].worker != p.worker
    ensures forall j, k :: 0 <= j < k <= |ps| ==> (ps + [p])[j].worker != (ps + [p])[k].worker
  {}

  lemma {:induction false} SettleKeepsCache(acquired: seq<string>, start: BlockCache.Cache, s: State, i: nat)
    requires Inv(acquired, start, s) && Enabled(acquired, s, Settle(i))
    ensures CacheSound(acquired, start, Next(acquired, s, Settle(i)))
  {
    var t := Next(acquired, s, Settle(i));
    var res := s.phases[i].res;
    forall l
      ensures GivenUp(acquired, t.phases, l) <==> GivenUp(acquired, s.phases, l) || (res == [] && l == acquired[i])
    {
      if k :| 0 <= k < |s.phases| && acquired[k] == l && HasSettled(s.phases[k]) && s.phases[k].res == [] {
        assert HasSettled(t.phases[k]) && t.phases[k].res == [];
      }
      if k :| 0 <= k < |t.phases| && acquired[k] == l && HasSettled(t.phases[k]) && t.phases[k].res == [] {
        assert k != i ==> HasSettled(s.phases[k]);
      }
      assert t.phases[i] == Settled(res);
    }
  }

  lemma WorkerCounts(acquired: seq<string>, start: BlockCache.Cache, s: State, step: Step)
    requires Inv(acquired, start, s) && Enabled(acquired, s, step)
    requires step.Begin? || step.Render? || step.Settle? || step.Lower? || step.Free? || step.Exit?
    ensures CountsSound(acquired, Next(acquired, s, step)) && !s.closed
  {
    UpdateCounts(s.phases, step.worker, Next(acquired, s, step).phases[step.worker]);
    TotalDominates(Alive, s.phases, step.worker);
  }

  lemma WorkerOutcomes(acquired: seq<string>, start: BlockCache.Cache, s: State, step: Step)
    requires Inv(acquired, start, s) && Enabled(acquired, s, step)
    requires step.Begin? || step.Render? || step.Settle? || step.Lower? || step.Free? || step.Exit?
    ensures forall k :: 0 <= k < |acquired| ==> OutcomeSound(Next(acquired, s, step), k)
  {
    forall k | 0 <= k < |acquired| ensures OutcomeSound(Next(acquired, s, step), k) {
      assert OutcomeSound(s, k);
    }
  }

  lemma WorkerStepKeeps(acquired: seq<string>, start: BlockCache.Cache, s: State, step: Step)
    requires Inv(acquired, start, s) && Enabled(acquired, s, step)
    requires step.Begin? || step.Render? || step.Settle? || step.Lower? || step.Free? || step.Exit?
    ensures Inv(acquired, start, Next(acquired, s, step))
  {
    var t := Next(acquired, s, step);
    var i := step.worker;
    WorkerCounts(acquired, start, s, step);
    WorkerOutcomes(acquired, start, s, step);
    if step.Settle? {
      SettleKeepsParcels(acquired, start, s, i);
      SettleKeepsCache(acquired, start, s, i);
    } else {
      MoveKeeps(acquired, start, s, i, t.phases[i]);
      CachesFramed(acquired, start, SetPhase(s, i, t.phases[i]), t);
    }
  }

  lemma {:induction false} CachesFramed(acquired: seq<string>, start: BlockCache.Cache, s: State, t: State)
    requires Sized(acquired, s) && Sized(acquired, t) && CacheSound(acquired, start, s) && ParcelsSound(s)
    requires t.phases == s.phases && t.cache == s.cache && InFlight(t) == InFlight(s)
    ensures CacheSound(acquired, start, t) && ParcelsSound(t)
  {
    forall k | 0 <= k < |InFlight(t)| ensures ParcelSound(t, InFlight(t)[k]) {
      assert ParcelSound(s, InFlight(s)[k]);
    }
  }

  lemma LaunchKeeps(acquired: seq<string>, start: BlockCache.Cache, s: State)
    requires Inv(acquired, start, s) && Enabled(acquired, s, Launch)
    ensures Inv(acquired, start, Next(acquired, s, Launch))
  {
    var t := Next(acquired, s, Launch);
    TotalAppend(Held, s.phases, Ready);
    TotalAppend(InRender, s.phases, Ready);
    TotalAppend(Alive, s.phases, Ready);
    TotalAppend(Sender, s.phases, Ready);
    forall k | 0 <= k < |acquired| ensures OutcomeSound(t, k) {
      assert OutcomeSound(s, k);
    }
    forall l ensures GivenUp(acquired, t.phases, l) <==> GivenUp(acquired, s.phases, l) {
      if k :| 0 <= k < |s.phases| && acquired[k] == l && HasSettled(s.phases[k]) && s.phases[k].res == [] {
        assert HasSettled(t.phases[k]);
      }
      if k :| 0 <= k < |t.phases| && acquired[k] == l && HasSettled(t.phases[k]) && t.phases[k].res == [] {
        assert HasSettled(s.phases[k]);
      }
    }
    assert InFlight(t) == InFlight(s);
    forall k | 0 <= k < |InFlight(t)| ensures ParcelSound(t, InFlight(t)[k]) {
      assert ParcelSound(s, InFlight(s)[k]);
    }
  }

  lemma CollectorStepKeeps(acquired: seq<string>, start: BlockCache.Cache, s: State, step: Step)
    requires Inv(acquired, start, s) && Enabled(acquired, s, step)
    requires step.Close? || step.Receive? || step.Return?
    ensures Inv(acquired, start, Next(acquired, s, step))
  {
    var t := Next(acquired, s, step);
    if step.Receive? {
      assert s.channel == [s.channel[0]] + s.channel[1..];
      assert (s.received + [s.channel[0]])[..|s.received|] == s.received;
    }
    assert InFlight(t) == InFlight(s);
    CachesFramed(acquired, start, s, t);
    forall k | 0 <= k < |acquired| ensures OutcomeSound(t, k) {
      assert OutcomeSound(s, k);
    }
  }

  lemma StepKeeps(acquired: seq<string>, start: BlockCache.Cache, s: State, step: Step)
    requires Inv(acquired, start, s) && Enabled(acquired, s, step)
    ensures Inv(acquired, start, Next(acquired, s, step))
  {
    match step
    case Launch => LaunchKeeps(acquired, start, s);
    case Close => CollectorStepKeeps(acquired, start, s, step);
    case Receive => CollectorStepKeeps(acquired, start, s, step);
    case Return => CollectorStepKeeps(acquired, start, s, step);
    case _ => WorkerStepKeeps(acquired, start, s, step);
  }

  // ---- Runs, in which nobody else uses the cache

  predicate IsRun(acquired: seq<string>, start: BlockCache.Cache, steps: seq<Step>)
    decreases |steps|, 0
  {
    steps == [] ||
    (var front := steps[..|steps| - 1];
     IsRun(acquired, start, front) && Enabled(acquired, After(acquired, start, front), steps[|steps| - 1]))
  }

  function After(acquired: seq<string>, start: BlockCache.Cache, steps: seq<Step>): State
    requires IsRun(acquired, start, steps)
    decreases |steps|, 1
  {
    if steps == [] then Init(acquired, start)
    else Next(acquired, After(acquired, start, steps[..|steps| - 1]), steps[|steps| - 1])
  }

  lemma {:induction false} RunInv(acquired: seq<string>, start: BlockCache.Cache, steps: seq<Step>)
    requires IsRun(acquired, start, steps)
    ensures Inv(acquired, start, After(acquired, start, steps))
  {
    if steps == [] {
      assert InFlight(Init(acquired, start)) == [];
    } else {
      var front := steps[..|steps| - 1];
      RunInv(acquired, start, front);
      StepKeeps(acquired, start, After(acquired, start, front), steps[|steps| - 1]);
    }
  }

  lemma {:induction false} RendersHoldSlots(phases: seq<Phase>)
    ensures 0 <= Total(InRender, phases) <= Total(Held, phases) <= |phases|
  {
    if phases != [] { RendersHoldSlots(phases[..|phases| - 1]); }
  }

  // In every interleaving the renders in flight, which the gauge counts, stay
  // within the admitted engines and hence within the concurrency; and the
  // semaphore holds a slot for each of them.
  lemma RendersBounded(acquired: seq<string>, start: BlockCache.Cache, steps: seq<Step>)
    requires IsRun(acquired, start, steps)
    ensures var s := After(acquired, start, steps);
      0 <= s.gauge == Total(InRender, s.phases) <= s.sem <= |acquired|
  {
    RunInv(acquired, start, steps);
    RendersHoldSlots(After(acquired, start, steps).phases);
  }

  // In every interleaving the renders in flight stay within the configured
  // concurrency, its default replacing one that is not positive.
  lemma ConcurrencyRespected(eligible: seq<string>, configured: int, start: BlockCache.Cache, steps: seq<Step>)
    requires IsRun(eligible[..Admitted(eligible, configured)], start, steps)
    ensures var s := After(eligible[..Admitted(eligible, configured)], start, steps);
      0 <= s.gauge == Total(InRender, s.phases) <= if configured <= 0 then 2 else configured
  {
    RendersBounded(eligible[..Admitted(eligible, configured)], start, steps);
  }

  // A worker with results to send finds room in an open channel.
  lemma SettleNeverBlocks(acquired: seq<string>, start: BlockCache.Cache, steps: seq<Step>, i: nat)
    requires IsRun(acquired, start, steps)
    requires i < |After(acquired, start, steps).phases| && After(acquired, start, steps).phases[i].Rendered?
    ensures Enabled(acquired, After(acquired, start, steps), Settle(i))
  {
    var s := After(acquired, start, steps);
    RunInv(acquired, start, steps);
    TotalDominates(Alive, s.phases, i);
    SenderBound(s.phases, i);
  }

  lemma SenderBound(phases: seq<Phase>, i: nat)
    requires i < |phases| && Sender(phases[i]) == 0
    ensures Total(Sender, phases) < |phases|
  {
    var p := Settled([Result("", "", "", 0.0)]);
    TotalUpdate(Sender, phases, i, p);
    TotalBetween(Sender, phases[i := p], 0, 1);
  }

  // Until the tier has returned its results, some step is possible.
  lemma NeverStuck(acquired: seq<string>, start: BlockCache.Cache, steps: seq<Step>) returns (step: Step)
    requires IsRun(acquired, start, steps) && !After(acquired, start, steps).returned
    ensures Enabled(acquired, After(acquired, start, steps), step)
  {
    var s := After(acquired, start, steps);
    RunInv(acquired, start, steps);
    if |s.phases| < |acquired| {
      return Launch;
    }
    if i :| 0 <= i < |s.phases| && !s.phases[i].Done? {
      match s.phases[i]
      case Ready => return Begin(i);
      case Rendering => return Render(i, FetchError);
      case Rendered(_) =>
        SettleNeverBlocks(acquired, start, steps, i);
        return Settle(i);
      case Settled(_) => return Lower(i);
      case Lowered(_) =>
        TotalNonNegative(Held, s.phases);
        TotalDominates(Held, s.phases, i);
        return Free(i);
      case Freed(_) => return Exit(i);
    }
    TotalBetween(Alive, s.phases, 0, 0);
    return if !s.closed then Close else if s.channel != [] then Receive else Return;
  }

  function PhaseWork(p: Phase): int {
    match p
    case Ready => 7
    case Rendering => 6
    case Rendered(_) => 5
    case Settled(_) => 3
    case Lowered(_) => 2
    case Freed(_) => 1
    case Done(_) => 0
  }

  function Work(acquired: seq<string>, s: State): int {
    8 * (|acquired| - |s.phases|) + Total(PhaseWork, s.phases) + |s.channel|
    + (if s.closed then 0 else 1) + (if s.returned then 0 else 1)
  }

  // A step of worker i spends some of its work, or moves it into the channel.
  lemma PhaseStepWork(acquired: seq<string>, s: State, t: State, i: nat)
    requires i < |s.phases| == |t.phases| && t.phases == s.phases[i := t.phases[i]]
    requires t.closed == s.closed && t.returned == s.returned
    requires PhaseWork(t.phases[i]) + |t.channel| < PhaseWork(s.phases[i]) + |s.channel|
    ensures Work(acquired, t) < Work(acquired, s)
  {
    TotalUpdate(PhaseWork, s.phases, i, t.phases[i]);
  }

  lemma StepLessWork(acquired: seq<string>, s: State, step: Step)
    requires Enabled(acquired, s, step)
    ensures Work(acquired, Next(acquired, s, step)) < Work(acquired, s)
  {
    match step
    case Launch => TotalAppend(PhaseWork, s.phases, Ready);
    case Close =>
    case Receive =>
    case Return =>
    case _ => PhaseStepWork(acquired, s, Next(acquired, s, step), step.worker);
  }

  lemma {:induction false} WorkAtStart(acquired: seq<string>, start: BlockCache.Cache)
    ensures Work(acquired, Init(acquired, start)) == 8 * |acquired| + 2
  {}

  lemma WorkLeft(acquired: seq<string>, start: BlockCache.Cache, s: State)
    requires Inv(acquired, start, s)
    ensures 0 <= Work(acquired, s)
  {
    TotalNonNegative(PhaseWork, s.phases);
  }

  // Every run ends: eight steps per admitted engine and two more.
  lemma {:induction false} RunsAreFinite(acquired: seq<string>, start: BlockCache.Cache, steps: seq<Step>)
    requires IsRun(acquired, start, steps)
    ensures |steps| + Work(acquired, After(acquired, start, steps)) <= 8 * |acquired| + 2
    ensures 0 <= Work(acquired, After(acquired, start, steps))
  {
    if steps == [] {
      WorkAtStart(acquired, start);
    } else {
      var front := steps[..|steps| - 1];
      RunsAreFinite(acquired, start, front);
      StepLessWork(acquired, After(acquired, start, front), steps[|steps| - 1]);
    }
    RunInv(acquired, start, steps);
    WorkLeft(acquired, start, After(acquired, start, steps));
  }

  // ---- The outcome

  lemma AllDone(acquired: seq<string>, start: BlockCache.Cache, s: State)
    requires Inv(acquired, start, s) && s.returned
    ensures |s.phases| == |acquired| && forall i :: 0 <= i < |acquired| ==> s.phases[i].Done?
    ensures InFlight(s) == s.received
  {
    forall i | 0 <= i < |s.phases| ensures s.phases[i].Done? {
      TotalDominates(Alive, s.phases, i);
    }
  }

  // When the tier returns, each admitted engine has exactly one outcome, and it
  // is still marked, with its old deadline, exactly when its render found
  // results.
  lemma AdmittedEngine(acquired: seq<string>, start: BlockCache.Cache, steps: seq<Step>, i: nat)
    requires IsRun(acquired, start, steps) && After(acquired, start, steps).returned
    requires Distinct(acquired) && i < |acquired| && acquired[i] in start.items
    ensures var s := After(acquired, start, steps);
      && |s.outcomes| == |acquired| && |s.outcomes[i]| == 1
      && (acquired[i] in s.cache.items <==> s.outcomes[i] == [RenderOk])
      && (acquired[i] in s.cache.items ==> s.cache.items[acquired[i]] == start.items[acquired[i]])
  {
    RunInv(acquired, start, steps);
    AllDone(acquired, start, After(acquired, start, steps));
    SettledEngine(acquired, start, After(acquired, start, steps), i);
  }

  lemma SettledEngine(acquired: seq<string>, start: BlockCache.Cache, s: State, i: nat)
    requires Inv(acquired, start, s) && |s.phases| == |acquired| && i < |acquired| && s.phases[i].Done?
    requires Distinct(acquired) && acquired[i] in start.items
    ensures |s.outcomes[i]| == 1
    ensures acquired[i] in s.cache.items <==> s.outcomes[i] == [RenderOk]
    ensures acquired[i] in s.cache.items ==> s.cache.items[acquired[i]] == start.items[acquired[i]]
  {
    assert OutcomeSound(s, i);
    assert s.outcomes[i] == [s.outcomes[i][0]];
    assert GivenUp(acquired, s.phases, acquired[i]) <==> s.phases[i].res == [] by {
      assert HasSettled(s.phases[i]);
    }
  }

  // The render outcomes recorded under label l.
  function RenderRecords(acquired: seq<string>, outcomes: seq<seq<RenderOutcome>>, l: string): nat
    requires |acquired| == |outcomes|
  {
    if acquired == [] then 0
    else
      var n := |acquired| - 1;
      RenderRecords(acquired[..n], outcomes[..n], l) + (if acquired[n] == l then |outcomes[n]| else 0)
  }

  lemma {:induction false} OneRecordEach(acquired: seq<string>, outcomes: seq<seq<RenderOutcome>>, l: string)
    requires |acquired| == |outcomes| && forall i :: 0 <= i < |outcomes| ==> |outcomes[i]| == 1
    ensures RenderRecords(acquired, outcomes, l) == multiset(acquired)[l]
  {
    if acquired != [] {
      var n := |acquired| - 1;
      OneRecordEach(acquired[..n], outcomes[..n], l);
      assert acquired == acquired[..n] + [acquired[n]];
    }
  }

  lemma {:induction false} DistinctOnce(s: seq<string>, l: string)
    requires Distinct(s) && l in s
    ensures multiset(s)[l] == 1
  {
    var n := |s| - 1;
    assert s == s[..n] + [s[n]];
    if l == s[n] { assert l !in s[..n]; } else { DistinctOnce(s[..n], l); }
  }

  // When the tier returns, every eligible engine has exactly one outcome on
  // record, its render's or "skipped", and no other label has any.
  lemma EachEligibleOneOutcome(eligible: seq<string>, configured: int, start: BlockCache.Cache, steps: seq<Step>,
                               l: string)
    requires Distinct(eligible)
    requires IsRun(eligible[..Admitted(eligible, configured)], start, steps)
    requires After(eligible[..Admitted(eligible, configured)], start, steps).returned
    ensures var n := Admitted(eligible, configured);
      var s := After(eligible[..n], start, steps);
      && |s.outcomes| == n
      && RenderRecords(eligible[..n], s.outcomes, l) + multiset(eligible[n..])[l] == if l in eligible then 1 else 0
  {
    var n := Admitted(eligible, configured);
    var s := After(eligible[..n], start, steps);
    RunInv(eligible[..n], start, steps);
    AllDone(eligible[..n], start, s);
    forall i | 0 <= i < n ensures |s.outcomes[i]| == 1 { assert OutcomeSound(s, i); }
    OneRecordEach(eligible[..n], s.outcomes, l);
    assert eligible == eligible[..n] + eligible[n..];
    if l in eligible { DistinctOnce(eligible, l); }
  }

  // Any other label, a skipped engine's in particular, keeps its mark as it was.
  lemma {:induction false} OtherLabel(acquired: seq<string>, start: BlockCache.Cache, steps: seq<Step>, l: string)
    requires IsRun(acquired, start, steps) && l !in acquired
    ensures var s := After(acquired, start, steps);
      && (l in s.cache.items <==> l in start.items)
      && (l in s.cache.items ==> s.cache.items[l] == start.items[l])
  {
    RunInv(acquired, start, steps);
    var s := After(acquired, start, steps);
    assert !GivenUp(acquired, s.phases, l);
  }

  // What the tier returns is what its workers sent, each worker's results once,
  // in the order of arrival.
  lemma AllResultsCollected(acquired: seq<string>, start: BlockCache.Cache, steps: seq<Step>)
    requires IsRun(acquired, start, steps) && After(acquired, start, steps).returned
    ensures var s := After(acquired, start, steps);
      && s.all == Unpacked(s.received)
      && |s.received| == Total(Sender, s.phases)
      && (forall j, k :: 0 <= j < k < |s.received| ==> s.received[j].worker != s.received[k].worker)
      && (forall k :: 0 <= k < |s.received| ==> ParcelSound(s, s.received[k]))
  {
    var s := After(acquired, start, steps);
    RunInv(acquired, start, steps);
    AllDone(acquired, start, s);
    forall k | 0 <= k < |s.received| ensures ParcelSound(s, s.received[k]) {
      assert ParcelSound(s, InFlight(s)[k]);
    }
  }

  // The whole tier, for distinct allow-listed labels: an eligible engine is
  // still blocked afterwards, until its old deadline, exactly when it was
  // skipped for want of a slot or its render returned results.
  lemma StillBlockedAfterwards(cache: BlockCache.Cache, labels: seq<string>, clock: seq<int>, configured: int,
                               steps: seq<Step>, k: nat, now: int)
    requires |clock| == |labels| && Distinct(labels)
    requires var (eligible, start) := Scan(cache, labels, clock);
      var n := Admitted(eligible, configured);
      && k < |eligible|
      && eligible[k] in cache.items && now <= cache.items[eligible[k]]
      && IsRun(eligible[..n], start, steps) && After(eligible[..n], start, steps).returned
    ensures var (eligible, start) := Scan(cache, labels, clock);
      var n := Admitted(eligible, configured);
      var s := After(eligible[..n], start, steps);
      BlockCache.Blocks(s.cache, eligible[k], now) <==> k >= n || (k < |s.outcomes| && s.outcomes[k] == [RenderOk])
  {
    var (eligible, start) := Scan(cache, labels, clock);
    var n := Admitted(eligible, configured);
    ScanDistinct(cache, labels, clock);
    BlockedInDistinct(cache, labels, clock);
    assert eligible[k] in eligible;
    if k < n {
      AdmittedEngine(eligible[..n], start, steps, k);
    } else {
      assert forall j :: 0 <= j < n ==> eligible[j] != eligible[k];
      OtherLabel(eligible[..n], start, steps, eligible[k]);
      RunInv(eligible[..n], start, steps);
    }
  }
}

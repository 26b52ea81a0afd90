/** The direct fan-out and the block cache together, up to the question which
    engines are escalated (search/direct.go:395-440, search/direct_runners.go:312-320). */
module SearchDirect {
  import opened SearchTypes
  import opened Collect
  import opened BlockCache
  import FanOut
  import Escalation

  datatype Env = Env(plan: FanOut.Plan, ttl: int, cap: int, initial: Cache)

  // The fan-out's state with the shared cache; `asked` are the clock readings of
  // the dispatches so far, `marked` those of the marks.
  datatype State = State(fan: FanOut.State, cache: Cache, asked: seq<int>, marked: seq<int>)

  // A step of the fan-out at a clock reading.
  datatype Move = Move(step: FanOut.Step, now: int)

  function Init(env: Env): State { State(FanOut.Init(env.plan), env.initial, [], []) }

  // The dispatcher asks the cache about every enabled job, and skips the blocked.
  predicate Enabled(env: Env, s: State, m: Move) {
    FanOut.Enabled(env.plan, s.fan, m.step) &&
    (m.step.Dispatch? ==>
      var j := env.plan.jobs[s.fan.next];
      m.step.blocked == (j.enabled && Blocks(s.cache, j.name, m.now)))
  }

  function AfterAsking(c: Cache, j: FanOut.Job, now: int): Cache {
    if j.enabled then AfterQuery(c, j.name, now) else c
  }

  function Next(env: Env, s: State, m: Move): State
    requires Enabled(env, s, m)
  {
    var fan := FanOut.Next(env.plan, s.fan, m.step);
    match m.step
    case Dispatch(_) =>
      State(fan, AfterAsking(s.cache, env.plan.jobs[s.fan.next], m.now), s.asked + [m.now], s.marked)
    case Receive =>
      if fan.tally.marks == s.fan.tally.marks then State(fan, s.cache, s.asked, s.marked)
      else State(fan, AfterMark(s.cache, env.ttl, env.cap, s.fan.channel[0].source, m.now), s.asked, s.marked + [m.now])
    case _ => State(fan, s.cache, s.asked, s.marked)
  }

  // ---- Runs

  predicate IsRun(env: Env, moves: seq<Move>)
    decreases |moves|, 0
  {
    moves == [] ||
    (IsRun(env, moves[..|moves| - 1]) && Enabled(env, After(env, moves[..|moves| - 1]), moves[|moves| - 1]))
  }

  function After(env: Env, moves: seq<Move>): State
    requires IsRun(env, moves)
    decreases |moves|, 1
  {
    if moves == [] then Init(env) else Next(env, After(env, moves[..|moves| - 1]), moves[|moves| - 1])
  }

  function Steps(moves: seq<Move>): seq<FanOut.Step> {
    if moves == [] then [] else Steps(moves[..|moves| - 1]) + [moves[|moves| - 1].step]
  }

  // Every run is a run of the fan-out, so all that holds of those holds here.
  lemma {:induction false} RunsOfFanOut(env: Env, moves: seq<Move>)
    requires IsRun(env, moves)
    ensures FanOut.IsRun(env.plan, Steps(moves))
    ensures After(env, moves).fan == FanOut.After(env.plan, Steps(moves))
  {
    if moves != [] {
      var front := moves[..|moves| - 1];
      RunsOfFanOut(env, front);
      assert Steps(moves)[..|Steps(moves)| - 1] == Steps(front);
    }
  }

  // ---- The invariant

  // The cache after asking about the jobs in turn.
  function Asked(c: Cache, jobs: seq<FanOut.Job>, clock: seq<int>): Cache
    requires |clock| == |jobs|
  {
    if jobs == [] then c
    else
      var n := |jobs| - 1;
      AfterAsking(Asked(c, jobs[..n], clock[..n]), jobs[n], clock[n])
  }

  predicate Launched(legs: seq<FanOut.Leg>, j: nat) { exists l <- legs :: l.job == j }

  predicate SkipsSound(env: Env, s: State)
    requires s.fan.next <= |env.plan.jobs| && |s.asked| == s.fan.next
  {
    forall j :: 0 <= j < s.fan.next ==>
      (Launched(s.fan.legs, j) <==>
        && env.plan.jobs[j].enabled
        && !Blocks(Asked(env.initial, env.plan.jobs[..j], s.asked[..j]), env.plan.jobs[j].name, s.asked[j]))
  }

  predicate CacheSound(env: Env, s: State)
    requires s.fan.next <= |env.plan.jobs| && |s.asked| == s.fan.next
  {
    && |s.marked| == |s.fan.tally.marks|
    && s.cache == MarkAll(Asked(env.initial, env.plan.jobs[..s.fan.next], s.asked), env.ttl, env.cap,
                          s.fan.tally.marks, s.marked)
    && (s.fan.next < |env.plan.jobs| ==> s.fan.tally.marks == [])
  }

  predicate Inv(env: Env, s: State) {
    && FanOut.Inv(env.plan, s.fan)
    && |s.asked| == s.fan.next
    && SkipsSound(env, s)
    && CacheSound(env, s)
  }

  // Only a dispatch launches a leg, and no step moves a leg to another job.
  lemma LaunchedKept(plan: FanOut.Plan, s: FanOut.State, step: FanOut.Step, j: nat)
    requires FanOut.Enabled(plan, s, step) && !step.Dispatch?
    ensures Launched(FanOut.Next(plan, s, step).legs, j) <==> Launched(s.legs, j)
  {
    var t := FanOut.Next(plan, s, step);
    assert |t.legs| == |s.legs| && forall i :: 0 <= i < |s.legs| ==> t.legs[i].job == s.legs[i].job;
    SameJobs(s.legs, t.legs, j);
    SameJobs(t.legs, s.legs, j);
  }

  lemma SameJobs(a: seq<FanOut.Leg>, b: seq<FanOut.Leg>, j: nat)
    requires |a| == |b| && forall i :: 0 <= i < |a| ==> a[i].job == b[i].job
    ensures Launched(a, j) ==> Launched(b, j)
  {
    if i :| 0 <= i < |a| && a[i].job == j { assert b[i] in b; }
  }

  lemma DispatchSkips(env: Env, s: State, m: Move)
    requires Inv(env, s) && Enabled(env, s, m) && m.step.Dispatch?
    ensures |Next(env, s, m).asked| == Next(env, s, m).fan.next <= |env.plan.jobs| && SkipsSound(env, Next(env, s, m))
  {
    var t := Next(env, s, m);
    var n := s.fan.next;
    assert s.cache == Asked(env.initial, env.plan.jobs[..n], s.asked);
    assert !Launched(s.fan.legs, n);
    forall j | 0 <= j < t.fan.next
      ensures Launched(t.fan.legs, j) <==>
        && env.plan.jobs[j].enabled
        && !Blocks(Asked(env.initial, env.plan.jobs[..j], t.asked[..j]), env.plan.jobs[j].name, t.asked[j])
    {
      assert t.asked[..j] == s.asked[..j];
      if j == n {
        assert s.asked[..n] == s.asked;
        if t.fan.legs != s.fan.legs { assert t.fan.legs[|s.fan.legs|].job == n; }
      } else {
        LaunchedAppended(s.fan.legs, t.fan.legs, j, n);
      }
    }
  }

  lemma LaunchedAppended(a: seq<FanOut.Leg>, b: seq<FanOut.Leg>, j: nat, n: nat)
    requires a == b || (|b| == |a| + 1 && a == b[..|a|] && b[|a|].job == n)
    requires j != n
    ensures Launched(a, j) <==> Launched(b, j)
  {
    if l :| l in b && l.job == j {
      var i :| 0 <= i < |b| && b[i] == l;
      if a != b { assert a[i] == l; }
    }
    if l :| l in a && l.job == j {
      var i :| 0 <= i < |a| && a[i] == l;
      assert b[i] == l;
    }
  }

  lemma DispatchCache(env: Env, s: State, m: Move)
    requires Inv(env, s) && Enabled(env, s, m) && m.step.Dispatch?
    ensures CacheSound(env, Next(env, s, m))
  {
    var t := Next(env, s, m);
    var n := s.fan.next;
    assert t.asked[..n] == s.asked && env.plan.jobs[..n + 1][..n] == env.plan.jobs[..n];
  }

  // The marks grow by the label of the received delivery, or not at all.
  lemma MarksGrow(rules: Rules, t: Tally, d: Delivery)
    ensures Absorb(rules, t, d).marks == t.marks || Absorb(rules, t, d).marks == t.marks + [d.source]
  {}

  // Absorbing a delivery and marking its label, when it is marked, keeps step.
  lemma MarkedCache(base: Cache, ttl: int, cap: int, rules: Rules, t: Tally, marked: seq<int>, d: Delivery, now: int)
    requires |marked| == |t.marks|
    ensures var u := Absorb(rules, t, d);
      u.marks != t.marks ==>
        && |marked + [now]| == |u.marks|
        && MarkAll(base, ttl, cap, u.marks, marked + [now])
           == AfterMark(MarkAll(base, ttl, cap, t.marks, marked), ttl, cap, d.source, now)
  {
    MarksGrow(rules, t, d);
    MarkAllAppend(base, ttl, cap, t.marks, marked, d.source, now);
  }

  lemma ReceiveCache(env: Env, s: State, m: Move)
    requires Inv(env, s) && Enabled(env, s, m) && m.step.Receive?
    ensures CacheSound(env, Next(env, s, m))
  {
    MarkedCache(Asked(env.initial, env.plan.jobs[..s.fan.next], s.asked), env.ttl, env.cap, env.plan.rules,
                s.fan.tally, s.marked, s.fan.channel[0], m.now);
  }

  lemma {:induction false} QuietStep(plan: FanOut.Plan, s: FanOut.State, step: FanOut.Step)
    requires FanOut.Enabled(plan, s, step) && !step.Dispatch? && !step.Receive?
    ensures FanOut.Next(plan, s, step).next == s.next && FanOut.Next(plan, s, step).tally == s.tally
  {}

  lemma SameCache(env: Env, s: State, t: State)
    requires s.fan.next <= |env.plan.jobs| && |s.asked| == s.fan.next && CacheSound(env, s)
    requires t.cache == s.cache && t.asked == s.asked && t.marked == s.marked
    requires t.fan.next == s.fan.next && t.fan.tally == s.fan.tally
    ensures CacheSound(env, t)
  {}

  // A move that is neither a dispatch nor a reception touches neither the cache
  // nor the marks.
  lemma QuietKeeps(env: Env, s: State, m: Move)
    requires Inv(env, s) && Enabled(env, s, m) && !m.step.Dispatch? && !m.step.Receive?
    ensures CacheSound(env, Next(env, s, m))
  {
    QuietStep(env.plan, s.fan, m.step);
    SameCache(env, s, Next(env, s, m));
  }

  lemma SkipsKept(env: Env, s: State, m: Move)
    requires Inv(env, s) && Enabled(env, s, m) && !m.step.Dispatch?
    ensures Next(env, s, m).asked == s.asked && Next(env, s, m).fan.next == s.fan.next
    ensures SkipsSound(env, Next(env, s, m))
  {
    var t := Next(env, s, m);
    forall j | 0 <= j < s.fan.next ensures Launched(t.fan.legs, j) <==> Launched(s.fan.legs, j) {
      LaunchedKept(env.plan, s.fan, m.step, j);
    }
    SameSkips(env, s, t);
  }

  lemma SameSkips(env: Env, s: State, t: State)
    requires s.fan.next <= |env.plan.jobs| && |s.asked| == s.fan.next && SkipsSound(env, s)
    requires t.asked == s.asked && t.fan.next == s.fan.next
    requires forall j :: 0 <= j < s.fan.next ==> (Launched(t.fan.legs, j) <==> Launched(s.fan.legs, j))
    ensures SkipsSound(env, t)
  {}

  lemma MoveKeeps(env: Env, s: State, m: Move)
    requires Inv(env, s) && Enabled(env, s, m)
    ensures Inv(env, Next(env, s, m))
  {
    FanOut.StepKeeps(env.plan, s.fan, m.step);
    if m.step.Dispatch? {
      DispatchSkips(env, s, m);
      DispatchCache(env, s, m);
    } else {
      SkipsKept(env, s, m);
      if m.step.Receive? { ReceiveCache(env, s, m); } else { QuietKeeps(env, s, m); }
    }
  }

  lemma {:induction false} RunInv(env: Env, moves: seq<Move>)
    requires IsRun(env, moves)
    ensures Inv(env, After(env, moves))
  {
    if moves == [] {
      FanOut.InitInv(env.plan);
    } else {
      RunInv(env, moves[..|moves| - 1]);
      MoveKeeps(env, After(env, moves[..|moves| - 1]), moves[|moves| - 1]);
    }
  }

  // Until the collector returns some move other than the return of a source
  // call is possible, whatever the cache answers.
  lemma NeverStuck(env: Env, moves: seq<Move>, now: int) returns (m: Move)
    requires env.plan.rules.kind.Direct?
    requires IsRun(env, moves) && !After(env, moves).fan.returned
    ensures Enabled(env, After(env, moves), m) && !m.step.CallReturns? && m.now == now
  {
    var s := After(env, moves);
    RunsOfFanOut(env, moves);
    var step := FanOut.NeverStuck(env.plan, Steps(moves));
    if step.Dispatch? {
      var j := env.plan.jobs[s.fan.next];
      step := FanOut.Dispatch(j.enabled && Blocks(s.cache, j.name, now));
    }
    m := Move(step, now);
  }

  // ---- Which legs are skipped

  predicate DistinctNames(jobs: seq<FanOut.Job>) {
    forall i, j :: 0 <= i < j < |jobs| && jobs[i].enabled && jobs[j].enabled ==> jobs[i].name != jobs[j].name
  }

  // Asking about other hosts leaves a host's mark alone.
  lemma {:induction false} AskedOthers(c: Cache, jobs: seq<FanOut.Job>, clock: seq<int>, h: Host)
    requires |clock| == |jobs| && forall i :: 0 <= i < |jobs| && jobs[i].enabled ==> jobs[i].name != h
    ensures h in Asked(c, jobs, clock).items <==> h in c.items
    ensures h in c.items ==> Asked(c, jobs, clock).items[h] == c.items[h]
  {
    if jobs != [] { AskedOthers(c, jobs[..|jobs| - 1], clock[..|jobs| - 1], h); }
  }

  // For distinct labels, the jobs launched are exactly the enabled ones that the
  // cache did not block when their turn came.
  lemma SkippedExactly(env: Env, moves: seq<Move>, j: nat)
    requires IsRun(env, moves) && j < After(env, moves).fan.next && DistinctNames(env.plan.jobs)
    ensures var s := After(env, moves);
      && |s.asked| == s.fan.next <= |env.plan.jobs|
      && (Launched(s.fan.legs, j) <==>
            env.plan.jobs[j].enabled && !Blocks(env.initial, env.plan.jobs[j].name, s.asked[j]))
  {
    RunInv(env, moves);
    var s := After(env, moves);
    if env.plan.jobs[j].enabled {
      AskedOthers(env.initial, env.plan.jobs[..j], s.asked[..j], env.plan.jobs[j].name);
    }
  }

  // ---- Which labels are escalated

  // Asking drops only what has expired by then.
  lemma {:induction false} AskedLater(c: Cache, jobs: seq<FanOut.Job>, clock: seq<int>, h: Host, now: int)
    requires |clock| == |jobs| && forall t <- clock :: t <= now
    ensures Asked(c, jobs, clock).items.Keys <= c.items.Keys
    ensures Blocks(Asked(c, jobs, clock), h, now) <==> Blocks(c, h, now)
  {
    if jobs != [] {
      var n := |jobs| - 1;
      assert clock[n] in clock && forall t :: t in clock[..n] ==> t in clock;
      AskedLater(c, jobs[..n], clock[..n], h, now);
    }
  }

  // After the marks, a marked host has the deadline of a mark, and any other host
  // is as it was.
  ghost predicate Deadlines(c: Cache, d: Cache, ttl: int, labels: seq<string>, clock: seq<int>, h: Host) {
    if h in labels then h in d.items && MarkedAt(d.items[h] - ttl, clock) else SameMark(c, d, h)
  }

  predicate MarkedAt(t: int, clock: seq<int>) { t in clock }

  predicate SameMark(c: Cache, d: Cache, h: Host) {
    (h in d.items <==> h in c.items) && (h in c.items ==> d.items[h] == c.items[h])
  }

  // d is front with l freshly marked, as far as l and h go.
  predicate Marked(front: Cache, d: Cache, ttl: int, l: string, now: int, h: Host) {
    l in d.items && d.items[l] == now + ttl && (h != l ==> SameMark(front, d, h))
  }

  lemma LastMark(c: Cache, front: Cache, d: Cache, ttl: int, labels: seq<string>, clock: seq<int>, l: string, now: int,
                 more: seq<string>, later: seq<int>, h: Host)
    requires more == labels + [l] && later == clock + [now]
    requires Deadlines(c, front, ttl, labels, clock, h) && Marked(front, d, ttl, l, now, h)
    ensures Deadlines(c, d, ttl, more, later, h)
  {
    assert now in later && forall t :: t in clock ==> t in later;
  }

  // The deadlines along any chain of caches, each the one before freshly marked.
  lemma {:induction false} ChainDeadlines(c: Cache, chain: nat -> Cache, ttl: int, labels: seq<string>, clock: seq<int>,
                                          h: Host, k: nat)
    requires k <= |labels| == |clock| && chain(0) == c
    requires forall j: nat :: j < k ==> Marked(chain(j), chain(j + 1), ttl, labels[j], clock[j], h)
    ensures Deadlines(c, chain(k), ttl, labels[..k], clock[..k], h)
  {
    if k > 0 {
      var j := k - 1;
      ChainDeadlines(c, chain, ttl, labels, clock, h, j);
      LastMark(c, chain(j), chain(k), ttl, labels[..j], clock[..j], labels[j], clock[j], labels[..k], clock[..k], h);
    }
  }

  lemma OneMarkBelowCapacity(c: Cache, ttl: int, cap: int, l: string, now: int, h: Host)
    requires |c.items.Keys + {l}| <= cap
    ensures Marked(c, AfterMark(c, ttl, cap, l, now), ttl, l, now, h)
  {
    SubsetSize(c.items.Keys, c.items.Keys + {l}, l);
    assert |c.items.Keys| == |c.items|;
  }

  lemma MarkAllPrefix(c: Cache, ttl: int, cap: int, labels: seq<string>, clock: seq<int>, j: nat)
    requires j < |labels| == |clock|
    ensures MarkAll(c, ttl, cap, labels[..j + 1], clock[..j + 1])
      == AfterMark(MarkAll(c, ttl, cap, labels[..j], clock[..j]), ttl, cap, labels[j], clock[j])
  {
    assert labels[..j + 1] == labels[..j] + [labels[j]] && clock[..j + 1] == clock[..j] + [clock[j]];
    MarkAllAppend(c, ttl, cap, labels[..j], clock[..j], labels[j], clock[j]);
  }

  lemma PrefixLabels(labels: seq<string>, j: nat)
    requires j < |labels|
    ensures LabelSet(labels[..j]) <= LabelSet(labels) && labels[j] in LabelSet(labels)
  {}

  lemma PrefixFits(c: Cache, ttl: int, cap: int, labels: seq<string>, clock: seq<int>, j: nat)
    requires j < |labels| == |clock| && |c.items.Keys + LabelSet(labels)| <= cap
    ensures |MarkAll(c, ttl, cap, labels[..j], clock[..j]).items.Keys + {labels[j]}| <= cap
  {
    var keys, all := c.items.Keys + LabelSet(labels[..j]), c.items.Keys + LabelSet(labels);
    PrefixLabels(labels, j);
    FewerKeys(keys + {labels[j]}, all);
    FewerKeys(keys, all);
    MarkAllBelowCapacity(c, ttl, cap, labels[..j], clock[..j]);
  }

  lemma {:induction false} MarkAllDeadlines(c: Cache, ttl: int, cap: int, labels: seq<string>, clock: seq<int>, h: Host)
    requires |clock| == |labels| && |c.items.Keys + LabelSet(labels)| <= cap
    ensures Deadlines(c, MarkAll(c, ttl, cap, labels, clock), ttl, labels, clock, h)
  {
    var chain := (k: nat) => if k <= |labels| then MarkAll(c, ttl, cap, labels[..k], clock[..k]) else c;
    forall j: nat | j < |labels| ensures Marked(chain(j), chain(j + 1), ttl, labels[j], clock[j], h) {
      MarkAllPrefix(c, ttl, cap, labels, clock, j);
      PrefixFits(c, ttl, cap, labels, clock, j);
      OneMarkBelowCapacity(MarkAll(c, ttl, cap, labels[..j], clock[..j]), ttl, cap, labels[j], clock[j], h);
    }
    ChainDeadlines(c, chain, ttl, labels, clock, h, |labels|);
    assert labels[..|labels|] == labels && clock[..|clock|] == clock;
  }

  lemma {:induction false} BlockedInAt(c: Cache, labels: seq<string>, clock: seq<int>, i: nat)
    requires |clock| == |labels| && Distinct(labels) && i < |labels|
    ensures labels[i] in Escalation.BlockedIn(c, labels, clock) <==> Blocks(c, labels[i], clock[i])
  {
    var n := |labels| - 1;
    if i < n {
      BlockedInAt(c, labels[..n], clock[..n], i);
    } else {
      Escalation.ScanDistinct(c, labels[..n], clock[..n]);
      assert labels[n] !in labels[..n];
    }
  }

  // Once the fan-out has returned, an allow-listed label is escalated exactly
  // when this search marked it or it was blocked before the search: for distinct
  // labels, below the capacity of the cache, with a clock that has not gone back
  // and within the time to live of the marks.
  lemma EscalatesWhatIsBlocked(env: Env, moves: seq<Move>, labels: seq<string>, clock: seq<int>, i: nat)
    requires IsRun(env, moves) && After(env, moves).fan.returned
    requires |clock| == |labels| && Distinct(labels) && i < |labels|
    requires var s := After(env, moves);
      && |env.initial.items.Keys + LabelSet(s.fan.tally.marks)| <= env.cap
      && (forall t <- s.asked :: t <= clock[i])
      && (forall t <- s.marked :: clock[i] <= t + env.ttl)
    ensures var s := After(env, moves);
      labels[i] in Escalation.Scan(s.cache, labels, clock).0 <==>
        || (exists d <- s.fan.received :: MustMark(env.plan.rules, d) && d.source == labels[i])
        || Blocks(env.initial, labels[i], clock[i])
  {
    RunInv(env, moves);
    var s := After(env, moves);
    var base := Asked(env.initial, env.plan.jobs[..s.fan.next], s.asked);
    var l, now := labels[i], clock[i];
    var marks := s.fan.tally.marks;
    AskedLater(env.initial, env.plan.jobs[..s.fan.next], s.asked, l, now);
    FewerKeys(base.items.Keys + LabelSet(marks), env.initial.items.Keys + LabelSet(marks));
    MarkAllDeadlines(base, env.ttl, env.cap, marks, s.marked, l);
    FoldOutput(env.plan.rules, s.fan.received);
    MarkedLabelsExact(env.plan.rules, s.fan.received, l);
    Escalation.ScanDistinct(s.cache, labels, clock);
    BlockedInAt(s.cache, labels, clock, i);
    if l !in marks {
      assert Blocks(s.cache, l, now) <==> Blocks(base, l, now);
    }
  }

  lemma {:induction false} FewerKeys(a: set<string>, b: set<string>)
    requires a <= b
    ensures |a| <= |b|
    decreases a
  {
    if x :| x in a {
      FewerKeys(a - {x}, b - {x});
      assert |a - {x}| == |a| - 1 && |b - {x}| == |b| - 1;
    }
  }
}

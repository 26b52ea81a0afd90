/** The fan-out as a system of steps: a dispatcher, one worker and one source
    call per launched leg, the closer and the collector share a buffered channel
    (search/direct.go; with every job enabled and the other rules, pipeline/search.go). */
module FanOut {
  import opened SearchTypes
  import opened Totals
  import opened Collect

  datatype Job = Job(enabled: bool, name: string)

  datatype Plan = Plan(rules: Rules, jobs: seq<Job>)

  // The goroutine that calls the source; its one-slot buffer never blocks it.
  datatype Call = Running | Returned(reply: Reply)

  // The goroutine that races the call against the context.
  datatype Worker = Selecting | Sending(reply: Reply) | Sent(reply: Reply) | Finished(reply: Reply)

  datatype Leg = Leg(job: nat, ctx: Context, call: Call, worker: Worker)

  datatype State = State(
    next: nat,               // jobs dispatched
    legs: seq<Leg>,          // launched legs
    wg: int,                 // sync.WaitGroup counter
    channel: seq<Delivery>,  // buffered, first in first out
    closed: bool,
    received: seq<Delivery>,
    tally: Tally,
    returned: bool)          // the collector has left its loop

  datatype Step =
    | Dispatch(blocked: bool)
    | CallReturns(leg: nat, reply: Reply)
    | ContextEnds(leg: nat, error: Failure, cause: Failure)
    | SelectDone(leg: nat)
    | SelectContext(leg: nat)
    | Send(leg: nat)
    | WorkerExits(leg: nat)
    | Close
    | Receive
    | Return

  function Init(plan: Plan): State { State(0, [], 0, [], false, [], START, false) }

  function EnabledFlag(j: Job): int { if j.enabled then 1 else 0 }

  // The channel has room for every enabled job.
  function Capacity(plan: Plan): int { Total(EnabledFlag, plan.jobs) }

  predicate Enabled(plan: Plan, s: State, step: Step) {
    match step
    case Dispatch(blocked) => s.next < |plan.jobs| && (blocked ==> plan.rules.kind.Direct?)
    case CallReturns(i, _) => i < |s.legs| && s.legs[i].call.Running?
    case ContextEnds(i, _, _) => i < |s.legs| && s.legs[i].ctx.Live?
    case SelectDone(i) => i < |s.legs| && s.legs[i].worker.Selecting? && s.legs[i].call.Returned?
    case SelectContext(i) => i < |s.legs| && s.legs[i].worker.Selecting? && s.legs[i].ctx.Ended?
    case Send(i) => i < |s.legs| && s.legs[i].worker.Sending? && |s.channel| < Capacity(plan) && !s.closed
                    && s.legs[i].job < |plan.jobs|
    case WorkerExits(i) => i < |s.legs| && s.legs[i].worker.Sent?
    case Close => s.next == |plan.jobs| && s.wg == 0 && !s.closed
    case Receive => s.next == |plan.jobs| && s.channel != [] && !s.returned
    case Return => s.next == |plan.jobs| && s.closed && s.channel == [] && !s.returned
  }

  // Cancelling the shared context ends every leg's context that is still live.
  function CancelLeg(l: Leg): Leg { if l.ctx.Live? then l.(ctx := Ended(CANCELED, CANCELED)) else l }

  function CancelAll(legs: seq<Leg>): seq<Leg> { seq(|legs|, i requires 0 <= i < |legs| => CancelLeg(legs[i])) }

  function DeliveryOf(plan: Plan, s: State, i: nat): Delivery
    requires i < |s.legs| && s.legs[i].job < |plan.jobs| && !s.legs[i].worker.Selecting?
  {
    Delivery(i, plan.jobs[s.legs[i].job].name, s.legs[i].worker.reply)
  }

  function Next(plan: Plan, s: State, step: Step): State
    requires Enabled(plan, s, step)
  {
    match step
    case Dispatch(blocked) =>
      var t := s.(next := s.next + 1);
      if plan.jobs[s.next].enabled && !blocked
      then t.(legs := s.legs + [Leg(s.next, Live, Running, Selecting)], wg := s.wg + 1)
      else t
    case CallReturns(i, reply) => s.(legs := s.legs[i := s.legs[i].(call := Returned(reply))])
    case ContextEnds(i, error, cause) => s.(legs := s.legs[i := s.legs[i].(ctx := Ended(error, cause))])
    case SelectDone(i) =>
      var l := s.legs[i];
      s.(legs := s.legs[i := l.(worker := Sending(TakeDone(plan.rules.kind, l.call.reply, l.ctx)))])
    case SelectContext(i) =>
      var l := s.legs[i];
      s.(legs := s.legs[i := l.(worker := Sending(TakeContext(plan.rules.kind, l.ctx)))])
    case Send(i) =>
      s.(legs := s.legs[i := s.legs[i].(worker := Sent(s.legs[i].worker.reply))],
         channel := s.channel + [DeliveryOf(plan, s, i)])
    case WorkerExits(i) =>
      s.(legs := s.legs[i := s.legs[i].(worker := Finished(s.legs[i].worker.reply))], wg := s.wg - 1)
    case Close => s.(closed := true)
    case Receive =>
      var tally := Absorb(plan.rules, s.tally, s.channel[0]);
      s.(channel := s.channel[1..], received := s.received + [s.channel[0]], tally := tally,
         legs := if tally.cancels > s.tally.cancels then CancelAll(s.legs) else s.legs)
    case Return => s.(returned := true)
  }

  // ---- The invariant

  function Unfinished(l: Leg): int { if l.worker.Finished? then 0 else 1 }
  function Delivered(l: Leg): int { if l.worker.Sent? || l.worker.Finished? then 1 else 0 }

  // Where a reply comes from: it is the call's own; or the context ended and its
  // cause (for the pipeline, its error) stands for it; or the direct call failed
  // on a deadline and the cause of its ended context replaces that error.
  predicate Explained(kind: Kind, l: Leg) {
    l.worker.Selecting? ||
    var r := l.worker.reply;
    || l.call == Returned(r)
    || (l.ctx.Ended? && kind.Direct? && r == Reply([], Some(l.ctx.cause)))
    || (l.ctx.Ended? && kind.Pipeline? && r == Reply([], Some(l.ctx.error)))
    || (l.ctx.Ended? && kind.Direct? && DeadlineReconciled(l.call, l.ctx.cause, r))
  }

  predicate DeadlineReconciled(call: Call, cause: Failure, r: Reply) {
    && call.Returned? && call.reply.err.Some? && call.reply.err.value.deadline
    && r == Reply(call.reply.results, Some(cause))
  }

  predicate LegSound(plan: Plan, next: nat, l: Leg) {
    l.job < next && l.job < |plan.jobs| && plan.jobs[l.job].enabled && Explained(plan.rules.kind, l)
  }

  predicate LegsSound(plan: Plan, s: State) { forall l <- s.legs :: LegSound(plan, s.next, l) }

  predicate CountsSound(plan: Plan, s: State)
    requires s.next <= |plan.jobs|
  {
    && s.wg == Total(Unfinished, s.legs)
    && |s.received| + |s.channel| == Total(Delivered, s.legs)
    && |s.legs| <= Total(EnabledFlag, plan.jobs[..s.next])
    && (plan.rules.kind.Pipeline? ==> |s.legs| == Total(EnabledFlag, plan.jobs[..s.next]))
  }

  function InFlight(s: State): seq<Delivery> { s.received + s.channel }

  // Each delivered leg's reply is in the channel or received, once.
  predicate DeliveriesSound(plan: Plan, s: State)
    requires s.next <= |plan.jobs| && LegsSound(plan, s)
  {
    && (forall k :: 0 <= k < |InFlight(s)| ==> FromLeg(plan, s, InFlight(s)[k]))
    && (forall j, k :: 0 <= j < k < |InFlight(s)| ==> InFlight(s)[j].leg != InFlight(s)[k].leg)
    && (forall i :: 0 <= i < |s.legs| && Delivered(s.legs[i]) == 1 ==> HasDelivery(InFlight(s), i))
  }

  predicate HasDelivery(ds: seq<Delivery>, i: nat) { exists d <- ds :: d.leg == i }

  predicate FromLeg(plan: Plan, s: State, d: Delivery)
    requires s.next <= |plan.jobs| && LegsSound(plan, s)
  {
    && d.leg < |s.legs| && Delivered(s.legs[d.leg]) == 1
    && s.legs[d.leg] in s.legs
    && d == DeliveryOf(plan, s, d.leg)
  }

  predicate PhasesSound(plan: Plan, s: State) {
    && (s.closed ==> s.next == |plan.jobs| && s.wg == 0)
    && (s.returned ==> s.closed && s.channel == [])
    && s.tally == Fold(plan.rules, s.received)
  }

  predicate Inv(plan: Plan, s: State) {
    && s.next <= |plan.jobs|
    && LegsSound(plan, s)
    && CountsSound(plan, s)
    && DeliveriesSound(plan, s)
    && PhasesSound(plan, s)
  }

  lemma {:induction false} InitInv(plan: Plan)
    ensures Inv(plan, Init(plan))
  {}

  // ---- Counters

  lemma {:induction false} SameTotals(f: Leg -> int, s: seq<Leg>, t: seq<Leg>)
    requires |s| == |t| && forall i :: 0 <= i < |s| ==> f(s[i]) == f(t[i])
    ensures Total(f, s) == Total(f, t)
  {
    if s != [] { SameTotals(f, s[..|s| - 1], t[..|t| - 1]); }
  }

  lemma {:induction false} CapacityPrefix(plan: Plan, n: nat)
    requires n <= |plan.jobs|
    ensures Total(EnabledFlag, plan.jobs[..n]) <= Capacity(plan)
  {
    assert plan.jobs == plan.jobs[..n] + plan.jobs[n..];
    TotalConcat(EnabledFlag, plan.jobs[..n], plan.jobs[n..]);
    TotalNonNegative(EnabledFlag, plan.jobs[n..]);
  }

  // Every undelivered leg leaves room in the channel.
  lemma {:induction false} DeliveredBound(legs: seq<Leg>, i: nat)
    requires i < |legs| && Delivered(legs[i]) == 0
    ensures Total(Delivered, legs) < |legs|
  {
    var l := legs[i].(worker := Sent(Reply([], None)));
    TotalUpdate(Delivered, legs, i, l);
    TotalBetween(Delivered, legs[i := l], 0, 1);
  }

  // ---- Steps keep the invariant

  // Replacing leg i by one with the same counters and job keeps the counts.
  lemma UpdateCounts(legs: seq<Leg>, i: nat, l: Leg)
    requires i < |legs|
    ensures Total(Unfinished, legs[i := l]) == Total(Unfinished, legs) - Unfinished(legs[i]) + Unfinished(l)
    ensures Total(Delivered, legs[i := l]) == Total(Delivered, legs) - Delivered(legs[i]) + Delivered(l)
  {
    TotalUpdate(Unfinished, legs, i, l);
    TotalUpdate(Delivered, legs, i, l);
  }

  lemma DispatchKeeps(plan: Plan, s: State, blocked: bool)
    requires Inv(plan, s) && Enabled(plan, s, Dispatch(blocked))
    ensures Inv(plan, Next(plan, s, Dispatch(blocked)))
  {
    DispatchKeepsLegs(plan, s, blocked);
    DispatchKeepsCounts(plan, s, blocked);
    var t := Next(plan, s, Dispatch(blocked));
    assert InFlight(t) == InFlight(s);
    forall k | 0 <= k < |InFlight(s)| ensures FromLeg(plan, t, InFlight(s)[k]) {
      assert FromLeg(plan, s, InFlight(s)[k]);
    }
  }

  lemma DispatchKeepsLegs(plan: Plan, s: State, blocked: bool)
    requires Inv(plan, s) && Enabled(plan, s, Dispatch(blocked))
    ensures Next(plan, s, Dispatch(blocked)).next == s.next + 1
    ensures LegsSound(plan, Next(plan, s, Dispatch(blocked)))
  {
    var t := Next(plan, s, Dispatch(blocked));
    forall l | l in t.legs ensures LegSound(plan, t.next, l) {
      assert l in s.legs ==> LegSound(plan, s.next, l);
    }
  }

  lemma DispatchKeepsCounts(plan: Plan, s: State, blocked: bool)
    requires Inv(plan, s) && Enabled(plan, s, Dispatch(blocked))
    ensures CountsSound(plan, Next(plan, s, Dispatch(blocked)))
  {
    var j := plan.jobs[s.next];
    assert plan.jobs[..s.next + 1] == plan.jobs[..s.next] + [j];
    TotalAppend(EnabledFlag, plan.jobs[..s.next], j);
    var l := Leg(s.next, Live, Running, Selecting);
    TotalAppend(Unfinished, s.legs, l);
    TotalAppend(Delivered, s.legs, l);
  }

  // A step of leg i that neither delivers nor finishes it.
  lemma QuietStepKeeps(plan: Plan, s: State, i: nat, l: Leg)
    requires Inv(plan, s) && i < |s.legs|
    requires l.job == s.legs[i].job && Explained(plan.rules.kind, l)
    requires Delivered(l) == Delivered(s.legs[i]) && Unfinished(l) == Unfinished(s.legs[i])
    requires Delivered(l) == 1 ==> l.worker == s.legs[i].worker
    ensures Inv(plan, s.(legs := s.legs[i := l]))
  {
    var t := s.(legs := s.legs[i := l]);
    UpdateCounts(s.legs, i, l);
    assert s.legs[i] in s.legs;
    assert InFlight(t) == InFlight(s);
    forall k | 0 <= k < |InFlight(s)| ensures FromLeg(plan, t, InFlight(s)[k]) {
      assert FromLeg(plan, s, InFlight(s)[k]);
    }
  }

  lemma SendKeepsLegs(plan: Plan, s: State, i: nat)
    requires Inv(plan, s) && Enabled(plan, s, Send(i))
    ensures var t := Next(plan, s, Send(i)); LegsSound(plan, t) && CountsSound(plan, t)
  {
    var t := Next(plan, s, Send(i));
    UpdateCounts(s.legs, i, t.legs[i]);
    assert s.legs[i] in s.legs;
  }

  lemma {:induction false} SendKeepsDeliveries(plan: Plan, s: State, i: nat)
    requires Inv(plan, s) && Enabled(plan, s, Send(i))
    requires LegsSound(plan, Next(plan, s, Send(i)))
    ensures DeliveriesSound(plan, Next(plan, s, Send(i)))
  {
    var t := Next(plan, s, Send(i));
    var d := DeliveryOf(plan, s, i);
    assert t.legs[i] in t.legs;
    assert InFlight(t) == InFlight(s) + [d];
    OthersInFlight(plan, s, i);
    assert FromLeg(plan, t, d);
    forall m | 0 <= m < |t.legs| && Delivered(t.legs[m]) == 1 ensures HasDelivery(InFlight(t), m) {
      if m != i { assert HasDelivery(InFlight(s), m); }
      DeliveryAppended(InFlight(s), d, m);
    }
  }

  lemma OthersInFlight(plan: Plan, s: State, i: nat)
    requires Inv(plan, s) && Enabled(plan, s, Send(i))
    requires LegsSound(plan, Next(plan, s, Send(i)))
    ensures forall k :: 0 <= k < |InFlight(s)| ==>
      FromLeg(plan, Next(plan, s, Send(i)), InFlight(s)[k]) && InFlight(s)[k].leg != i
  {
    var t := Next(plan, s, Send(i));
    forall k | 0 <= k < |InFlight(s)| ensures FromLeg(plan, t, InFlight(s)[k]) && InFlight(s)[k].leg != i {
      assert FromLeg(plan, s, InFlight(s)[k]);
      assert t.legs[InFlight(s)[k].leg] in t.legs;
    }
  }

  lemma DeliveryAppended(ds: seq<Delivery>, d: Delivery, m: nat)
    requires HasDelivery(ds, m) || d.leg == m
    ensures HasDelivery(ds + [d], m)
  {
    if d.leg == m {
      assert d in ds + [d];
    } else {
      var e :| e in ds && e.leg == m;
      assert e in ds + [d];
    }
  }

  lemma SendKeeps(plan: Plan, s: State, i: nat)
    requires Inv(plan, s) && Enabled(plan, s, Send(i))
    ensures Inv(plan, Next(plan, s, Send(i)))
  {
    SendKeepsLegs(plan, s, i);
    SendKeepsDeliveries(plan, s, i);
    TotalDominates(Unfinished, s.legs, i);
  }

  // What a step does that changes neither deliveries nor what leg i delivers.
  lemma DeliveriesFramed(plan: Plan, s: State, t: State, i: nat)
    requires Inv(plan, s) && i < |s.legs| && t.next == s.next && LegsSound(plan, t)
    requires |t.legs| == |s.legs| && t.legs == s.legs[i := t.legs[i]]
    requires t.legs[i].job == s.legs[i].job && Delivered(t.legs[i]) == Delivered(s.legs[i])
    requires Delivered(t.legs[i]) == 1 ==>
      !s.legs[i].worker.Selecting? && !t.legs[i].worker.Selecting? && t.legs[i].worker.reply == s.legs[i].worker.reply
    requires InFlight(t) == InFlight(s)
    ensures DeliveriesSound(plan, t)
  {
    forall k | 0 <= k < |InFlight(s)| ensures FromLeg(plan, t, InFlight(s)[k]) {
      assert FromLeg(plan, s, InFlight(s)[k]);
      assert t.legs[InFlight(s)[k].leg] in t.legs;
    }
    forall m | 0 <= m < |t.legs| && Delivered(t.legs[m]) == 1 ensures HasDelivery(InFlight(t), m) {
      assert Delivered(s.legs[m]) == 1;
    }
  }

  lemma {:induction false} ExitKeepsLegs(plan: Plan, s: State, i: nat)
    requires Inv(plan, s) && Enabled(plan, s, WorkerExits(i))
    ensures var t := Next(plan, s, WorkerExits(i)); LegsSound(plan, t) && CountsSound(plan, t) && s.wg > 0
  {
    UpdateCounts(s.legs, i, Next(plan, s, WorkerExits(i)).legs[i]);
    TotalDominates(Unfinished, s.legs, i);
    assert s.legs[i] in s.legs;
  }

  lemma {:induction false} ExitKeeps(plan: Plan, s: State, i: nat)
    requires Inv(plan, s) && Enabled(plan, s, WorkerExits(i))
    ensures Inv(plan, Next(plan, s, WorkerExits(i)))
  {
    var t := Next(plan, s, WorkerExits(i));
    ExitKeepsLegs(plan, s, i);
    assert InFlight(t) == InFlight(s);
    DeliveriesFramed(plan, s, t, i);
  }

  lemma CancelKeeps(plan: Plan, s: State)
    requires Inv(plan, s)
    ensures Inv(plan, s.(legs := CancelAll(s.legs)))
  {
    var t := s.(legs := CancelAll(s.legs));
    SameTotals(Unfinished, s.legs, t.legs);
    SameTotals(Delivered, s.legs, t.legs);
    forall l | l in t.legs ensures LegSound(plan, t.next, l) {
      var i :| 0 <= i < |t.legs| && t.legs[i] == l;
      assert s.legs[i] in s.legs;
    }
    assert InFlight(t) == InFlight(s);
    forall k | 0 <= k < |InFlight(s)| ensures FromLeg(plan, t, InFlight(s)[k]) {
      assert FromLeg(plan, s, InFlight(s)[k]);
      assert t.legs[InFlight(s)[k].leg] in t.legs;
    }
    forall m | 0 <= m < |t.legs| && Delivered(t.legs[m]) == 1 ensures HasDelivery(InFlight(t), m) {
      assert Delivered(s.legs[m]) == 1;
    }
  }

  lemma {:induction false} ReceiveKeeps(plan: Plan, s: State)
    requires Inv(plan, s) && Enabled(plan, s, Receive)
    ensures Inv(plan, Next(plan, s, Receive))
  {
    var d := s.channel[0];
    var t := s.(channel := s.channel[1..], received := s.received + [d], tally := Absorb(plan.rules, s.tally, d));
    assert InFlight(t) == InFlight(s);
    assert (s.received + [d])[..|s.received|] == s.received;
    forall k | 0 <= k < |InFlight(s)| ensures FromLeg(plan, t, InFlight(t)[k]) {
      assert FromLeg(plan, s, InFlight(s)[k]);
    }
    assert Inv(plan, t);
    CancelKeeps(plan, t);
  }

  lemma StepKeeps(plan: Plan, s: State, step: Step)
    requires Inv(plan, s) && Enabled(plan, s, step)
    ensures Inv(plan, Next(plan, s, step))
  {
    match step
    case Dispatch(blocked) => DispatchKeeps(plan, s, blocked);
    case CallReturns(i, reply) =>
      assert s.legs[i] in s.legs;
      QuietStepKeeps(plan, s, i, s.legs[i].(call := Returned(reply)));
    case ContextEnds(i, error, cause) =>
      assert s.legs[i] in s.legs;
      QuietStepKeeps(plan, s, i, s.legs[i].(ctx := Ended(error, cause)));
    case SelectDone(i) =>
      var l := s.legs[i];
      QuietStepKeeps(plan, s, i, l.(worker := Sending(TakeDone(plan.rules.kind, l.call.reply, l.ctx))));
    case SelectContext(i) =>
      var l := s.legs[i];
      QuietStepKeeps(plan, s, i, l.(worker := Sending(TakeContext(plan.rules.kind, l.ctx))));
    case Send(i) => SendKeeps(plan, s, i);
    case WorkerExits(i) => ExitKeeps(plan, s, i);
    case Close =>
      assert InFlight(s.(closed := true)) == InFlight(s);
      FrameDeliveries(plan, s, s.(closed := true));
    case Receive => ReceiveKeeps(plan, s);
    case Return =>
      assert InFlight(s.(returned := true)) == InFlight(s);
      FrameDeliveries(plan, s, s.(returned := true));
  }

  lemma FrameDeliveries(plan: Plan, s: State, t: State)
    requires Inv(plan, s)
    requires t.next == s.next && t.legs == s.legs && t.received == s.received && t.channel == s.channel
    ensures LegsSound(plan, t) && DeliveriesSound(plan, t)
  {
    assert InFlight(t) == InFlight(s);
    forall k | 0 <= k < |InFlight(s)| ensures FromLeg(plan, t, InFlight(t)[k]) {
      assert FromLeg(plan, s, InFlight(s)[k]);
    }
  }

  // ---- Runs

  // A run: steps taken one after the other from the start, in any interleaving.
  predicate IsRun(plan: Plan, steps: seq<Step>)
    decreases |steps|, 0
  {
    steps == [] ||
    (IsRun(plan, steps[..|steps| - 1]) && Enabled(plan, After(plan, steps[..|steps| - 1]), steps[|steps| - 1]))
  }

  function After(plan: Plan, steps: seq<Step>): State
    requires IsRun(plan, steps)
    decreases |steps|, 1
  {
    if steps == [] then Init(plan) else Next(plan, After(plan, steps[..|steps| - 1]), steps[|steps| - 1])
  }

  lemma {:induction false} RunInv(plan: Plan, steps: seq<Step>)
    requires IsRun(plan, steps)
    ensures Inv(plan, After(plan, steps))
  {
    if steps == [] {
      InitInv(plan);
    } else {
      RunInv(plan, steps[..|steps| - 1]);
      StepKeeps(plan, After(plan, steps[..|steps| - 1]), steps[|steps| - 1]);
    }
  }

  // In every interleaving a worker that wants to send finds room and an open
  // channel: no send blocks, and none follows the close.
  lemma SendNeverBlocks(plan: Plan, steps: seq<Step>, i: nat)
    requires IsRun(plan, steps)
    requires i < |After(plan, steps).legs| && After(plan, steps).legs[i].worker.Sending?
    ensures Enabled(plan, After(plan, steps), Send(i))
  {
    var s := After(plan, steps);
    RunInv(plan, steps);
    assert s.legs[i] in s.legs;
    TotalDominates(Unfinished, s.legs, i);
    DeliveredBound(s.legs, i);
    CapacityPrefix(plan, s.next);
  }

  // What a worker takes at the select. From a call that has returned: its reply,
  // except that a direct call's deadline is told as the cause of a context that
  // has ended by then. From the context: its cause, or its error in the pipeline.
  lemma SelectTakes(plan: Plan, s: State, i: nat)
    requires i < |s.legs| && s.legs[i].worker.Selecting?
    ensures s.legs[i].call.Returned? ==>
      var call, ctx := s.legs[i].call.reply, s.legs[i].ctx;
      var reconciled := plan.rules.kind == Direct && call.err.Some? && call.err.value.deadline && ctx.Ended?;
      && Enabled(plan, s, SelectDone(i))
      && Next(plan, s, SelectDone(i)).legs[i] == Leg(s.legs[i].job, ctx, s.legs[i].call,
           Sending(Reply(call.results, if reconciled then Some(ctx.cause) else call.err)))
    ensures s.legs[i].ctx.Ended? ==>
      var ctx := s.legs[i].ctx;
      && Enabled(plan, s, SelectContext(i))
      && Next(plan, s, SelectContext(i)).legs[i] == Leg(s.legs[i].job, ctx, s.legs[i].call,
           Sending(Reply([], Some(if plan.rules.kind == Direct then ctx.cause else ctx.error))))
  {}

  predicate NoneLive(legs: seq<Leg>) { forall i :: 0 <= i < |legs| ==> legs[i].ctx.Ended? }

  lemma CancelEndsAll(legs: seq<Leg>)
    ensures NoneLive(CancelAll(legs))
  {}

  lemma NoneLiveUpdate(legs: seq<Leg>, i: nat, l: Leg)
    requires NoneLive(legs) && i < |legs| && l.ctx.Ended?
    ensures NoneLive(legs[i := l])
  {}

  lemma StaysCancelled(plan: Plan, s: State, step: Step)
    requires Enabled(plan, s, step) && s.tally.cancels > 0 && s.next == |plan.jobs| && NoneLive(s.legs)
    ensures NoneLive(Next(plan, s, step).legs) && Next(plan, s, step).next == |plan.jobs|
  {
    match step
    case Dispatch(_) => assert false;
    case CallReturns(i, _) => NoneLiveUpdate(s.legs, i, Next(plan, s, step).legs[i]);
    case ContextEnds(_, _, _) => assert false;
    case SelectDone(i) => NoneLiveUpdate(s.legs, i, Next(plan, s, step).legs[i]);
    case SelectContext(i) => NoneLiveUpdate(s.legs, i, Next(plan, s, step).legs[i]);
    case Send(i) => NoneLiveUpdate(s.legs, i, Next(plan, s, step).legs[i]);
    case WorkerExits(i) => NoneLiveUpdate(s.legs, i, Next(plan, s, step).legs[i]);
    case Receive => CancelEndsAll(s.legs);
    case _ =>
  }

  // Once cancel has been called no leg is left with a live context, at any later
  // moment of the run.
  lemma {:induction false} CancelReachesAll(plan: Plan, steps: seq<Step>)
    requires IsRun(plan, steps) && After(plan, steps).tally.cancels > 0
    ensures After(plan, steps).next == |plan.jobs| && NoneLive(After(plan, steps).legs)
  {
    if steps != [] {
      var front, step := steps[..|steps| - 1], steps[|steps| - 1];
      var s := After(plan, front);
      if s.tally.cancels > 0 {
        CancelReachesAll(plan, front);
        StaysCancelled(plan, s, step);
      } else {
        FirstCancel(plan, s, step);
      }
    }
  }

  lemma FirstCancel(plan: Plan, s: State, step: Step)
    requires Enabled(plan, s, step) && s.tally.cancels == 0 && Next(plan, s, step).tally.cancels > 0
    ensures Next(plan, s, step).next == |plan.jobs| && NoneLive(Next(plan, s, step).legs)
  {
    CancelEndsAll(s.legs);
  }

  // A context that the collector's call of cancel ends reports a cancellation, so
  // what it does to a leg is neither a timeout nor a block. Nothing else changes.
  lemma CancelsAsCanceled(plan: Plan, s: State, i: nat)
    requires Enabled(plan, s, Receive) && i < |s.legs|
    ensures var t := Next(plan, s, Receive);
      var e := Failure(false, false, true, false, false);
      |t.legs| == |s.legs| && t.legs[i] ==
        if t.tally.cancels > s.tally.cancels && s.legs[i].ctx == Live then s.legs[i].(ctx := Ended(e, e)) else s.legs[i]
  {}

  // ---- Termination

  function LegWork(l: Leg): int {
    (if l.call.Running? then 1 else 0) + (if l.ctx.Live? then 1 else 0) +
    (match l.worker
     case Selecting => 4
     case Sending(_) => 3
     case Sent(_) => 1
     case Finished(_) => 0)
  }

  // How many steps can still follow, at most.
  function Work(plan: Plan, s: State): int {
    7 * (|plan.jobs| - s.next) + Total(LegWork, s.legs) + |s.channel|
    + (if s.closed then 0 else 1) + (if s.returned then 0 else 1)
  }

  lemma {:induction false} TotalSmaller(f: Leg -> int, s: seq<Leg>, t: seq<Leg>)
    requires |s| == |t| && forall i :: 0 <= i < |s| ==> f(s[i]) <= f(t[i])
    ensures Total(f, s) <= Total(f, t)
  {
    if s != [] { TotalSmaller(f, s[..|s| - 1], t[..|t| - 1]); }
  }

  // A step of leg i spends some of its work, or moves it into the channel.
  lemma LegStepWork(plan: Plan, s: State, t: State, i: nat)
    requires i < |s.legs| == |t.legs| && t.legs == s.legs[i := t.legs[i]]
    requires t.next == s.next && t.closed == s.closed && t.returned == s.returned
    requires LegWork(t.legs[i]) + |t.channel| < LegWork(s.legs[i]) + |s.channel|
    ensures Work(plan, t) < Work(plan, s)
  {
    TotalUpdate(LegWork, s.legs, i, t.legs[i]);
  }

  lemma LegStepLess(plan: Plan, s: State, step: Step)
    requires Enabled(plan, s, step)
    requires step.CallReturns? || step.ContextEnds? || step.SelectDone? || step.SelectContext? || step.Send?
      || step.WorkerExits?
    ensures Work(plan, Next(plan, s, step)) < Work(plan, s)
  {
    LegStepWork(plan, s, Next(plan, s, step), step.leg);
  }

  lemma StepLessWork(plan: Plan, s: State, step: Step)
    requires Enabled(plan, s, step)
    ensures Work(plan, Next(plan, s, step)) < Work(plan, s)
  {
    match step
    case Dispatch(_) => TotalAppend(LegWork, s.legs, Leg(s.next, Live, Running, Selecting));
    case Close =>
    case Receive => TotalSmaller(LegWork, CancelAll(s.legs), s.legs);
    case Return =>
    case _ => LegStepLess(plan, s, step);
  }

  lemma {:induction false} WorkAtStart(plan: Plan)
    ensures Work(plan, Init(plan)) == 7 * |plan.jobs| + 2
  {}

  lemma WorkLeft(plan: Plan, s: State)
    requires Inv(plan, s)
    ensures 0 <= Work(plan, s)
  {
    TotalNonNegative(LegWork, s.legs);
  }

  // Every run is finite, with at most seven steps per job and two more.
  lemma {:induction false} RunsAreFinite(plan: Plan, steps: seq<Step>)
    requires IsRun(plan, steps)
    ensures |steps| + Work(plan, After(plan, steps)) <= 7 * |plan.jobs| + 2
    ensures 0 <= Work(plan, After(plan, steps))
  {
    if steps == [] {
      WorkAtStart(plan);
    } else {
      var front := steps[..|steps| - 1];
      RunsAreFinite(plan, front);
      StepLessWork(plan, After(plan, front), steps[|steps| - 1]);
    }
    RunInv(plan, steps);
    WorkLeft(plan, After(plan, steps));
  }

  // Even if no source call ever returns, the collector gets to return: until it
  // has, some other step is possible (a timer ending a context, at the least).
  lemma NeverStuck(plan: Plan, steps: seq<Step>) returns (step: Step)
    requires IsRun(plan, steps) && !After(plan, steps).returned
    ensures Enabled(plan, After(plan, steps), step) && !step.CallReturns?
  {
    var s := After(plan, steps);
    RunInv(plan, steps);
    if s.next < |plan.jobs| {
      step := Dispatch(false);
    } else if i :| 0 <= i < |s.legs| && !s.legs[i].worker.Finished? {
      match s.legs[i].worker
      case Selecting =>
        step := if s.legs[i].ctx.Live? then ContextEnds(i, DEADLINE_EXCEEDED, PER_SOURCE_TIMEOUT) else SelectContext(i);
      case Sending(_) =>
        SendNeverBlocks(plan, steps, i);
        step := Send(i);
      case Sent(_) =>
        step := WorkerExits(i);
    } else {
      TotalBetween(Unfinished, s.legs, 0, 0);
      step := if !s.closed then Close else if s.channel != [] then Receive else Return;
    }
  }

  // ---- The outcome of a finished run

  lemma AllFinished(plan: Plan, s: State)
    requires Inv(plan, s) && s.returned
    ensures forall i :: 0 <= i < |s.legs| ==> s.legs[i].worker.Finished?
    ensures |s.received| == |s.legs|
    ensures InFlight(s) == s.received
  {
    forall i | 0 <= i < |s.legs| ensures s.legs[i].worker.Finished? {
      TotalDominates(Unfinished, s.legs, i);
    }
    TotalBetween(Delivered, s.legs, 1, 1);
  }

  lemma ReceivedIsExplained(plan: Plan, s: State, k: nat)
    requires Inv(plan, s) && s.returned && k < |s.received|
    ensures s.received[k].leg < |s.legs| && ReplyOfLeg(plan, s.legs[s.received[k].leg], s.received[k])
  {
    AllFinished(plan, s);
    assert FromLeg(plan, s, InFlight(s)[k]);
  }

  // When the collector returns, every launched leg has been received exactly
  // once, with a reply that its own call or the end of its context explains.
  lemma EachLegReceivedOnce(plan: Plan, steps: seq<Step>)
    requires IsRun(plan, steps) && After(plan, steps).returned
    ensures var s := After(plan, steps);
      && s.next == |plan.jobs| && |s.received| == |s.legs|
      && (forall i :: 0 <= i < |s.legs| ==> HasDelivery(s.received, i))
      && (forall j, k :: 0 <= j < k < |s.received| ==> s.received[j].leg != s.received[k].leg)
      && (forall k :: 0 <= k < |s.received| ==>
            s.received[k].leg < |s.legs| && ReplyOfLeg(plan, s.legs[s.received[k].leg], s.received[k]))
  {
    var s := After(plan, steps);
    RunInv(plan, steps);
    AllFinished(plan, s);
    assert DeliveriesSound(plan, s);
    forall k | 0 <= k < |s.received|
      ensures s.received[k].leg < |s.legs| && ReplyOfLeg(plan, s.legs[s.received[k].leg], s.received[k])
    {
      ReceivedIsExplained(plan, s, k);
    }
  }

  predicate ReplyOfLeg(plan: Plan, l: Leg, d: Delivery) {
    && l.worker == Finished(d.reply)
    && (d.reply.err == None ==> l.call == Returned(d.reply))
    && Explained(plan.rules.kind, l)
    && l.job < |plan.jobs| && plan.jobs[l.job].enabled && plan.jobs[l.job].name == d.source
  }

  // The collector's result at the end of every run of the direct fan-out.
  lemma DirectFanOutResult(plan: Plan, steps: seq<Step>)
    requires plan.rules.kind.Direct?
    requires IsRun(plan, steps) && After(plan, steps).returned
    ensures var s := After(plan, steps);
      var stats := s.tally.stats;
      && stats.attempted + stats.shed == |s.legs|
      && stats.attempted == stats.ok + stats.empty + stats.failed
      && s.tally.all == OkResults(Direct, s.received)
      && s.tally.marks == MarkedLabels(plan.rules, s.received)
      && s.tally.cancels == if SomeReaches(plan.rules, s.received) then 1 else 0
  {
    RunInv(plan, steps);
    var s := After(plan, steps);
    AllFinished(plan, s);
    FoldStats(plan.rules, s.received);
    FoldOutput(plan.rules, s.received);
    FoldCancels(plan.rules, s.received);
  }

  // The same for the pipeline's twin, which has no block cache and launches
  // every source.
  lemma PipelineFanOutResult(plan: Plan, steps: seq<Step>)
    requires plan.rules.kind.Pipeline?
    requires IsRun(plan, steps) && After(plan, steps).returned
    ensures var s := After(plan, steps);
      && |s.tally.outcomes| == |s.legs| == Capacity(plan)
      && s.tally.all == OkResults(Pipeline, s.received)
      && s.tally.cancels == if SomeReaches(plan.rules, s.received) then 1 else 0
  {
    RunInv(plan, steps);
    var s := After(plan, steps);
    AllFinished(plan, s);
    assert plan.jobs[..s.next] == plan.jobs;
    FoldOutput(plan.rules, s.received);
    FoldCancels(plan.rules, s.received);
  }

  // Never more than one cancel call, at any moment of any run.
  lemma CancelledAtMostOnce(plan: Plan, steps: seq<Step>)
    requires IsRun(plan, steps)
    ensures After(plan, steps).tally.cancels <= 1
  {
    RunInv(plan, steps);
    FoldCancels(plan.rules, After(plan, steps).received);
  }
}

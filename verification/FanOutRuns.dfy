/** What the collectors receive, told by the source calls and the contexts of the
    whole run (search/direct.go:224-266, pipeline/search.go:38-57). */
module FanOutRuns {
  import opened SearchTypes
  import opened Collect
  import opened FanOut

  // The call of leg i returned r in the run.
  predicate CallGave(steps: seq<Step>, i: nat, r: Reply) { CallReturns(i, r) in steps }

  predicate IsCallOf(step: Step, i: nat) { step.CallReturns? && step.leg == i }

  // The context of leg i ended in the run with that error and cause: by itself, or
  // by the collector's cancel.
  predicate ContextGave(s: State, steps: seq<Step>, i: nat, error: Failure, cause: Failure) {
    || ContextEnds(i, error, cause) in steps
    || (s.tally.cancels > 0 && error == cause == Failure(false, false, true, false, false))
  }

  // ---- Calls

  lemma CallKept(plan: Plan, s: State, step: Step, i: nat)
    requires Enabled(plan, s, step) && i < |Next(plan, s, step).legs| && Next(plan, s, step).legs[i].call.Returned?
    ensures IsCallOf(step, i) ==> step == CallReturns(i, Next(plan, s, step).legs[i].call.reply)
    ensures !IsCallOf(step, i) ==> i < |s.legs| && s.legs[i].call == Next(plan, s, step).legs[i].call
  {}

  // A returned call has the reply of a step of the run.
  lemma {:induction false} CallOfRun(plan: Plan, steps: seq<Step>, i: nat)
    requires IsRun(plan, steps) && i < |After(plan, steps).legs| && After(plan, steps).legs[i].call.Returned?
    ensures CallGave(steps, i, After(plan, steps).legs[i].call.reply)
  {
    if steps != [] {
      var front, step := steps[..|steps| - 1], steps[|steps| - 1];
      CallKept(plan, After(plan, front), step, i);
      if !IsCallOf(step, i) { CallOfRun(plan, front, i); }
      assert steps == front + [step];
    }
  }

  lemma {:induction false} ReturnedStays(plan: Plan, s: State, step: Step, i: nat)
    requires Enabled(plan, s, step) && i < |s.legs| && s.legs[i].call.Returned?
    ensures i < |Next(plan, s, step).legs| && Next(plan, s, step).legs[i].call == s.legs[i].call
    ensures !IsCallOf(step, i)
  {}

  lemma {:induction false} CallIsKnown(plan: Plan, steps: seq<Step>, k: nat, i: nat)
    requires IsRun(plan, steps) && k < |steps| && IsCallOf(steps[k], i)
    ensures i < |After(plan, steps).legs| && After(plan, steps).legs[i].call == Returned(steps[k].reply)
  {
    var n := |steps| - 1;
    var front := steps[..n];
    if k < n {
      CallIsKnown(plan, front, k, i);
      ReturnedStays(plan, After(plan, front), steps[n], i);
    }
  }

  // Each call returns at most once in a run.
  lemma {:induction false} OneCallEach(plan: Plan, steps: seq<Step>, j: nat, k: nat, i: nat)
    requires IsRun(plan, steps) && j < k < |steps|
    ensures !(IsCallOf(steps[j], i) && IsCallOf(steps[k], i))
  {
    var n := |steps| - 1;
    var front := steps[..n];
    if k < n {
      OneCallEach(plan, front, j, k, i);
    } else if IsCallOf(steps[j], i) {
      CallIsKnown(plan, front, j, i);
      ReturnedStays(plan, After(plan, front), steps[n], i);
    }
  }

  // ---- Contexts

  lemma ContextKept(plan: Plan, s: State, step: Step, i: nat)
    requires Enabled(plan, s, step) && i < |Next(plan, s, step).legs| && Next(plan, s, step).legs[i].ctx.Ended?
    ensures var t := Next(plan, s, step);
      var error, cause := t.legs[i].ctx.error, t.legs[i].ctx.cause;
      || (i < |s.legs| && s.legs[i].ctx == t.legs[i].ctx)
      || step == ContextEnds(i, error, cause)
      || (t.tally.cancels > s.tally.cancels && error == cause == Failure(false, false, true, false, false))
  {}

  lemma CancelsGrow(rules: Rules, t: Tally, d: Delivery)
    ensures Absorb(rules, t, d).cancels >= t.cancels
  {}

  lemma CancelsStay(plan: Plan, s: State, step: Step)
    requires Enabled(plan, s, step)
    ensures Next(plan, s, step).tally.cancels >= s.tally.cancels
  {
    if step.Receive? { CancelsGrow(plan.rules, s.tally, s.channel[0]); }
  }

  lemma {:induction false} ContextOfRun(plan: Plan, steps: seq<Step>, i: nat)
    requires IsRun(plan, steps) && i < |After(plan, steps).legs| && After(plan, steps).legs[i].ctx.Ended?
    ensures var s := After(plan, steps); ContextGave(s, steps, i, s.legs[i].ctx.error, s.legs[i].ctx.cause)
  {
    if steps != [] {
      var front, step := steps[..|steps| - 1], steps[|steps| - 1];
      var s, t := After(plan, front), After(plan, steps);
      ContextKept(plan, s, step, i);
      CancelsStay(plan, s, step);
      if i < |s.legs| && s.legs[i].ctx == t.legs[i].ctx { ContextOfRun(plan, front, i); }
      assert steps == front + [step];
    }
  }

  // ---- What is received

  // A delivery is the reply its leg's call returned; or its leg's context ended and
  // stands in for it, told by its cause, for the pipeline by its error; or the call
  // of a direct leg returned a deadline, told by the cause of the ended context.
  ghost predicate Accounted(kind: Kind, s: State, steps: seq<Step>, d: Delivery) {
    || CallGave(steps, d.leg, d.reply)
    || exists error, cause :: ContextGave(s, steps, d.leg, error, cause) && ToldByContext(kind, steps, d, error, cause)
  }

  ghost predicate ToldByContext(kind: Kind, steps: seq<Step>, d: Delivery, error: Failure, cause: Failure) {
    || (kind.Direct? && d.reply == Reply([], Some(cause)))
    || (kind.Pipeline? && d.reply == Reply([], Some(error)))
    || (kind.Direct? && exists r :: CallGave(steps, d.leg, r) && DeadlineTold(r, cause, d.reply))
  }

  predicate DeadlineTold(r: Reply, cause: Failure, told: Reply) {
    r.err.Some? && r.err.value.deadline && told == Reply(r.results, Some(cause))
  }

  // When the collector returns, it has received one delivery per launched leg, each
  // accounted for by the run; one without an error is what the source returned.
  lemma ReceivedIsAccounted(plan: Plan, steps: seq<Step>, k: nat)
    requires IsRun(plan, steps) && After(plan, steps).returned && k < |After(plan, steps).received|
    ensures var s := After(plan, steps);
      && Accounted(plan.rules.kind, s, steps, s.received[k])
      && (s.received[k].reply.err == None ==> CallGave(steps, s.received[k].leg, s.received[k].reply))
  {
    var s := After(plan, steps);
    var d := s.received[k];
    EachLegReceivedOnce(plan, steps);
    assert ReplyOfLeg(plan, s.legs[d.leg], d);
    LegIsAccounted(plan, steps, d);
  }

  lemma LegIsAccounted(plan: Plan, steps: seq<Step>, d: Delivery)
    requires IsRun(plan, steps) && d.leg < |After(plan, steps).legs|
    requires ReplyOfLeg(plan, After(plan, steps).legs[d.leg], d)
    ensures Accounted(plan.rules.kind, After(plan, steps), steps, d)
    ensures d.reply.err == None ==> CallGave(steps, d.leg, d.reply)
  {
    var s := After(plan, steps);
    var l := s.legs[d.leg];
    if l.call.Returned? { CallOfRun(plan, steps, d.leg); }
    if l.call != Returned(d.reply) {
      ContextOfRun(plan, steps, d.leg);
      if l.call.Returned? { assert CallGave(steps, d.leg, l.call.reply); }
      assert ToldByContext(plan.rules.kind, steps, d, l.ctx.error, l.ctx.cause);
    }
  }
}

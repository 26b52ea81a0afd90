/** What the render tier returns, told by the renders of the whole run
    (search/direct_runners.go): each admitted engine renders once, and the
    results are those of the pages fetched. */
module EscalationRuns {
  import opened SearchTypes
  import opened Totals
  import opened Escalation
  import BlockCache

  predicate IsRender(step: Step, i: nat) { step.Render? && step.worker == i }

  // Step k is the one render of worker i.
  predicate OnlyRender(steps: seq<Step>, i: nat, k: nat) {
    k < |steps| && IsRender(steps[k], i) && forall j :: 0 <= j < |steps| && j != k ==> !IsRender(steps[j], i)
  }

  predicate NoRender(steps: seq<Step>, i: nat) {
    forall j :: 0 <= j < |steps| ==> !IsRender(steps[j], i)
  }

  predicate HasFinished(s: State, i: nat) { i < |s.phases| && HasRendered(s.phases[i]) }

  // The one render of worker i explains its results and its outcome.
  predicate ExplainedBy(engine: string, s: State, steps: seq<Step>, i: nat, k: nat)
    requires HasFinished(s, i) && i < |s.outcomes|
  {
    OnlyRender(steps, i, k) && |s.outcomes[i]| == 1
    && RenderedAs(engine, steps[k].fetched, s.phases[i].res, s.outcomes[i][0])
  }

  ghost predicate Rendered(acquired: seq<string>, s: State, steps: seq<Step>, i: nat)
    requires i < |acquired| == |s.outcomes|
  {
    if HasFinished(s, i) then exists k :: ExplainedBy(acquired[i], s, steps, i, k) else NoRender(steps, i)
  }

  lemma OtherStepRenders(steps: seq<Step>, step: Step, i: nat, k: nat)
    requires OnlyRender(steps, i, k) && !IsRender(step, i)
    ensures OnlyRender(steps + [step], i, k) && (steps + [step])[k] == steps[k]
  {}

  lemma FirstRenders(steps: seq<Step>, step: Step, i: nat)
    requires NoRender(steps, i) && IsRender(step, i)
    ensures OnlyRender(steps + [step], i, |steps|) && (steps + [step])[|steps|] == step
  {}

  // A step that is no render of worker i leaves what it found as it was.
  lemma OtherStep(acquired: seq<string>, s: State, step: Step, i: nat)
    requires Enabled(acquired, s, step) && i < |acquired| && !IsRender(step, i)
    ensures var t := Next(acquired, s, step);
      && Sized(acquired, t)
      && (HasFinished(t, i) <==> HasFinished(s, i))
      && (HasFinished(s, i) ==> t.phases[i].res == s.phases[i].res)
      && t.outcomes[i] == s.outcomes[i]
  {}

  lemma RenderStep(acquired: seq<string>, s: State, i: nat, f: Fetched)
    requires Enabled(acquired, s, Render(i, f)) && s.outcomes[i] == []
    ensures var t := Next(acquired, s, Render(i, f));
      && Sized(acquired, t)
      && HasFinished(t, i) && |t.outcomes[i]| == 1
      && RenderedAs(acquired[i], f, t.phases[i].res, t.outcomes[i][0])
  {
    RenderSound(acquired[i], f);
  }

  lemma StepRenders(acquired: seq<string>, s: State, steps: seq<Step>, step: Step, i: nat)
    requires Enabled(acquired, s, step) && i < |acquired| && Rendered(acquired, s, steps, i) && OutcomeSound(s, i)
    ensures Sized(acquired, Next(acquired, s, step))
    ensures Rendered(acquired, Next(acquired, s, step), steps + [step], i)
  {
    var t := Next(acquired, s, step);
    if IsRender(step, i) {
      RenderStep(acquired, s, i, step.fetched);
      FirstRenders(steps, step, i);
      assert ExplainedBy(acquired[i], t, steps + [step], i, |steps|);
    } else {
      OtherStep(acquired, s, step, i);
      if HasFinished(s, i) {
        var k :| ExplainedBy(acquired[i], s, steps, i, k);
        OtherStepRenders(steps, step, i, k);
        assert ExplainedBy(acquired[i], t, steps + [step], i, k);
      }
    }
  }

  // At any moment of any run a worker past its render has rendered exactly once,
  // with the results and the outcome of that fetch; any other has not rendered.
  lemma {:induction false} RendersOfRun(acquired: seq<string>, start: BlockCache.Cache, steps: seq<Step>, i: nat)
    requires IsRun(acquired, start, steps) && i < |acquired|
    ensures Sized(acquired, After(acquired, start, steps))
    ensures Rendered(acquired, After(acquired, start, steps), steps, i)
  {
    if steps != [] {
      var front := steps[..|steps| - 1];
      RendersOfRun(acquired, start, front, i);
      RunInv(acquired, start, front);
      StepRenders(acquired, After(acquired, start, front), front, steps[|steps| - 1], i);
      assert steps == front + [steps[|steps| - 1]];
    }
  }

  // ---- Every page with results arrives

  predicate HasParcel(ps: seq<Parcel>, i: nat) { exists k :: 0 <= k < |ps| && ps[k].worker == i }

  predicate Sent(s: State, i: nat) { i < |s.phases| && HasSettled(s.phases[i]) && s.phases[i].res != [] }

  lemma ParcelKept(acquired: seq<string>, s: State, step: Step, i: nat)
    requires Enabled(acquired, s, step) && HasParcel(InFlight(s), i)
    ensures HasParcel(InFlight(Next(acquired, s, step)), i)
  {
    var k :| 0 <= k < |InFlight(s)| && InFlight(s)[k].worker == i;
    var t := Next(acquired, s, step);
    if step.Receive? { assert InFlight(t) == InFlight(s); }
    assert InFlight(t)[k] == InFlight(s)[k];
  }

  lemma ParcelSent(acquired: seq<string>, s: State, step: Step, i: nat)
    requires Enabled(acquired, s, step) && !Sent(s, i) && Sent(Next(acquired, s, step), i)
    ensures HasParcel(InFlight(Next(acquired, s, step)), i)
  {
    assert step == Settle(i);
    var t := Next(acquired, s, step);
    assert InFlight(t)[|InFlight(s)|].worker == i;
  }

  lemma {:induction false} SentArrives(acquired: seq<string>, start: BlockCache.Cache, steps: seq<Step>, i: nat)
    requires IsRun(acquired, start, steps) && Sent(After(acquired, start, steps), i)
    ensures HasParcel(InFlight(After(acquired, start, steps)), i)
  {
    if steps != [] {
      var front, step := steps[..|steps| - 1], steps[|steps| - 1];
      var s := After(acquired, start, front);
      if Sent(s, i) {
        SentArrives(acquired, start, front, i);
        ParcelKept(acquired, s, step, i);
      } else {
        ParcelSent(acquired, s, step, i);
      }
    }
  }

  // ---- The output

  function Size(p: Parcel): int { |p.res| }

  lemma {:induction false} SizeOf(ps: seq<Parcel>)
    ensures Total(Size, ps) == |Unpacked(ps)|
  {
    if ps != [] { SizeOf(ps[..|ps| - 1]); }
  }

  // Parcel k fills the output from where those before it end.
  lemma {:induction false} UnpackedAt(ps: seq<Parcel>, k: nat)
    requires k < |ps|
    ensures var from := Total(Size, ps[..k]);
      0 <= from <= from + |ps[k].res| <= |Unpacked(ps)|
      && Unpacked(ps)[from..from + |ps[k].res|] == ps[k].res
  {
    var n := |ps| - 1;
    SizeOf(ps[..k]);
    if k < n {
      UnpackedAt(ps[..n], k);
      assert ps[..n][..k] == ps[..k];
    }
  }

  // When the tier returns, every admitted engine has rendered exactly once, its
  // recorded outcome is what that fetch came to, and what arrived from it is one
  // parcel with that page's results, or nothing when there are none.
  lemma EachEngineDelivers(acquired: seq<string>, start: BlockCache.Cache, steps: seq<Step>, i: nat)
    returns (k: nat)
    requires IsRun(acquired, start, steps) && After(acquired, start, steps).returned && i < |acquired|
    ensures OnlyRender(steps, i, k)
    ensures var s := After(acquired, start, steps);
      && |s.outcomes| == |acquired| && |s.outcomes[i]| == 1
      && (!HasParcel(s.received, i) ==> RenderedAs(acquired[i], steps[k].fetched, [], s.outcomes[i][0]))
      && (forall m :: 0 <= m < |s.received| && s.received[m].worker == i ==>
            s.received[m].res != [] && RenderedAs(acquired[i], steps[k].fetched, s.received[m].res, s.outcomes[i][0]))
      && (forall m, n :: 0 <= m < n < |s.received| ==> s.received[m].worker != s.received[n].worker)
  {
    var s := After(acquired, start, steps);
    RunInv(acquired, start, steps);
    AllDone(acquired, start, s);
    RendersOfRun(acquired, start, steps, i);
    assert HasFinished(s, i);
    k :| ExplainedBy(acquired[i], s, steps, i, k);
    AllResultsCollected(acquired, start, steps);
    if s.phases[i].res != [] { SentArrives(acquired, start, steps, i); }
    forall m | 0 <= m < |s.received| && s.received[m].worker == i ensures s.received[m].res == s.phases[i].res != [] {
      assert ParcelSound(s, s.received[m]);
    }
  }

  // The output is the parcels one behind the other, in the order of arrival.
  lemma OutputIsTheParcels(acquired: seq<string>, start: BlockCache.Cache, steps: seq<Step>)
    requires IsRun(acquired, start, steps)
    ensures var s := After(acquired, start, steps);
      && |s.all| == Total(Size, s.received)
      && forall k :: 0 <= k < |s.received| ==>
           s.received[k].worker < |acquired| && FillsFrom(s.all, Total(Size, s.received[..k]), s.received[k].res)
  {
    RunInv(acquired, start, steps);
    var s := After(acquired, start, steps);
    SizeOf(s.received);
    forall k | 0 <= k < |s.received|
      ensures s.received[k].worker < |acquired|
      ensures FillsFrom(s.all, Total(Size, s.received[..k]), s.received[k].res)
    {
      assert ParcelSound(s, InFlight(s)[k]);
      UnpackedAt(s.received, k);
    }
  }

  // `part` stands in `all` from place `from` on.
  predicate FillsFrom(all: seq<Result>, from: int, part: seq<Result>) {
    0 <= from <= from + |part| <= |all| && all[from..from + |part|] == part
  }
}

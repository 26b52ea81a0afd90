/** What the collectors make of the deliveries they receive: the direct fan-out
    (search/direct.go) and its smaller twin (pipeline/search.go). */
module Collect {
  import opened SearchTypes
  import opened Totals
  import BlockCache

  // An error by what errors.Is and errors.As report about it. A wrapped error
  // may answer yes to several questions.
  datatype Failure = Failure(
    rateLimited: bool,     // errors.As(*ErrRateLimited)
    sourceTimeout: bool,   // errors.Is(errPerSourceTimeout)
    canceled: bool,        // errors.Is(context.Canceled)
    deadline: bool,        // errors.Is(context.DeadlineExceeded)
    quotaExhausted: bool)  // errors.Is(ErrMarginaliaQuotaExhausted)

  const PER_SOURCE_TIMEOUT := Failure(false, true, false, false, false)
  const CANCELED := Failure(false, false, true, false, false)
  const DEADLINE_EXCEEDED := Failure(false, false, false, true, false)

  datatype Reply = Reply(results: seq<Result>, err: Option<Failure>)

  datatype Delivery = Delivery(leg: nat, source: string, reply: Reply)

  datatype Kind = Direct | Pipeline

  datatype Stats = Stats(attempted: nat, ok: nat, empty: nat, failed: nat, shed: nat)

  datatype Outcome =
    | OutcomeOk | OutcomeEmpty | OutcomeCaptcha | OutcomeTimeout | OutcomeBlocked | OutcomeFail | OutcomeShed

  // What a collector holds while it drains the channel. `cancels` counts the
  // calls of the cancel function, `marks` lists the labels passed to Mark.
  datatype Tally = Tally(
    all: seq<Result>, stats: Stats, cancelled: bool, cancels: nat, outcomes: seq<Outcome>, marks: seq<string>)

  const START := Tally([], Stats(0, 0, 0, 0, 0), false, 0, [], [])

  datatype Rules = Rules(kind: Kind, earlyAt: int, oxEscalate: seq<string>)

  // handleSourceError: the outcome of an error.
  function ErrorOutcome(rules: Rules, source: string, e: Failure): Outcome {
    if e.rateLimited then OutcomeCaptcha
    else if e.sourceTimeout && source in rules.oxEscalate then OutcomeTimeout
    else if !e.canceled && !e.deadline && source in rules.oxEscalate then OutcomeBlocked
    else OutcomeFail
  }

  predicate Marking(o: Outcome) { o in {OutcomeCaptcha, OutcomeTimeout, OutcomeBlocked} }

  function WithResults(rules: Rules, t: Tally, results: seq<Result>): Tally {
    var all := t.all + results;
    if !t.cancelled && |all| >= rules.earlyAt then t.(all := all, cancelled := true, cancels := t.cancels + 1)
    else t.(all := all)
  }

  // One turn of the loop in collectResults.
  function AbsorbDirect(rules: Rules, t: Tally, d: Delivery): Tally {
    match d.reply.err
    case Some(e) =>
      if e.quotaExhausted then
        t.(stats := t.stats.(shed := t.stats.shed + 1), outcomes := t.outcomes + [OutcomeShed])
      else
        var o := ErrorOutcome(rules, d.source, e);
        t.(stats := t.stats.(attempted := t.stats.attempted + 1, failed := t.stats.failed + 1),
           outcomes := t.outcomes + [o],
           marks := if Marking(o) then t.marks + [d.source] else t.marks)
    case None =>
      if d.reply.results == [] then
        t.(stats := t.stats.(attempted := t.stats.attempted + 1, empty := t.stats.empty + 1),
           outcomes := t.outcomes + [OutcomeEmpty])
      else
        WithResults(rules,
          t.(stats := t.stats.(attempted := t.stats.attempted + 1, ok := t.stats.ok + 1),
             outcomes := t.outcomes + [OutcomeOk]),
          d.reply.results)
  }

  // One turn of the loop in collectPipelineResults, which keeps no statistics.
  function AbsorbPipeline(rules: Rules, t: Tally, d: Delivery): Tally {
    if d.reply.err.Some? then t.(outcomes := t.outcomes + [OutcomeFail])
    else WithResults(rules, t.(outcomes := t.outcomes + [OutcomeOk]), d.reply.results)
  }

  function Absorb(rules: Rules, t: Tally, d: Delivery): Tally {
    match rules.kind
    case Direct => AbsorbDirect(rules, t, d)
    case Pipeline => AbsorbPipeline(rules, t, d)
  }

  function Fold(rules: Rules, ds: seq<Delivery>): Tally {
    if ds == [] then START else Absorb(rules, Fold(rules, ds[..|ds| - 1]), ds[|ds| - 1])
  }

  // ---- What the tally means

  predicate IsOk(kind: Kind, r: Reply) { r.err.None? && (kind.Pipeline? || r.results != []) }
  predicate IsShed(r: Reply) { r.err.Some? && r.err.value.quotaExhausted }
  predicate IsFailed(r: Reply) { r.err.Some? && !r.err.value.quotaExhausted }
  predicate IsEmpty(r: Reply) { r.err.None? && r.results == [] }

  // Which errors block an engine: a rate limit on any label; on an allow-listed
  // label the per-source timeout, or an error that is neither a cancellation
  // nor a deadline.
  predicate MustMark(rules: Rules, d: Delivery) {
    && rules.kind.Direct? && IsFailed(d.reply)
    && var e := d.reply.err.value;
       e.rateLimited || (d.source in rules.oxEscalate && (e.sourceTimeout || !(e.canceled || e.deadline)))
  }

  // The results of the legs that delivered some, in arrival order.
  function OkResults(kind: Kind, ds: seq<Delivery>): seq<Result> {
    if ds == [] then []
    else OkResults(kind, ds[..|ds| - 1]) + (if IsOk(kind, ds[|ds| - 1].reply) then ds[|ds| - 1].reply.results else [])
  }

  function MarkedLabels(rules: Rules, ds: seq<Delivery>): seq<string> {
    if ds == [] then []
    else MarkedLabels(rules, ds[..|ds| - 1]) + (if MustMark(rules, ds[|ds| - 1]) then [ds[|ds| - 1].source] else [])
  }

  function CountOk(d: Delivery): int { if IsOk(Direct, d.reply) then 1 else 0 }
  function CountEmpty(d: Delivery): int { if IsEmpty(d.reply) then 1 else 0 }
  function CountFailed(d: Delivery): int { if IsFailed(d.reply) then 1 else 0 }
  function CountShed(d: Delivery): int { if IsShed(d.reply) then 1 else 0 }

  // Delivery k is an OK one that brings the output to the threshold.
  predicate Reaches(rules: Rules, ds: seq<Delivery>, k: nat)
    requires k < |ds|
  {
    IsOk(rules.kind, ds[k].reply) && |OkResults(rules.kind, ds[..k + 1])| >= rules.earlyAt
  }

  predicate SomeReaches(rules: Rules, ds: seq<Delivery>) {
    exists k :: 0 <= k < |ds| && Reaches(rules, ds, k)
  }

  lemma {:induction false} FoldOutput(rules: Rules, ds: seq<Delivery>)
    ensures var t := Fold(rules, ds);
      t.all == OkResults(rules.kind, ds) && t.marks == MarkedLabels(rules, ds) && |t.outcomes| == |ds|
  {
    if ds != [] { FoldOutput(rules, ds[..|ds| - 1]); }
  }

  // The outcome recorded for a delivery, class by class.
  predicate RecordedAs(rules: Rules, d: Delivery, o: Outcome) {
    match d.reply.err
    case None =>
      o == if rules.kind.Direct? && d.reply.results == [] then OutcomeEmpty else OutcomeOk
    case Some(e) =>
      if rules.kind.Pipeline? then o == OutcomeFail
      else
        var listed, ended := d.source in rules.oxEscalate, e.canceled || e.deadline;
        && (o == OutcomeShed <==> e.quotaExhausted)
        && (o == OutcomeCaptcha <==> !e.quotaExhausted && e.rateLimited)
        && (o == OutcomeTimeout <==> !e.quotaExhausted && !e.rateLimited && e.sourceTimeout && listed)
        && (o == OutcomeBlocked <==> !e.quotaExhausted && !e.rateLimited && !e.sourceTimeout && listed && !ended)
        && (o == OutcomeFail <==> !e.quotaExhausted && !e.rateLimited && (!listed || (!e.sourceTimeout && ended)))
  }

  lemma OutcomeRecorded(rules: Rules, d: Delivery)
    ensures RecordedAs(rules, d, OutcomeOf(rules, d))
  {}

  lemma AbsorbedResults(rules: Rules, t: Tally, d: Delivery)
    ensures Absorb(rules, t, d).all == t.all + (if d.reply.err == None then d.reply.results else [])
  {
    assert t.all + [] == t.all;
  }

  // What delivery k adds: one outcome by its class, and behind the output so far
  // its results, unless it is an error.
  lemma EachDelivery(rules: Rules, ds: seq<Delivery>, k: nat)
    requires k < |ds|
    ensures var s, t, d := Fold(rules, ds[..k]), Fold(rules, ds[..k + 1]), ds[k];
      && |s.outcomes| == k && |t.outcomes| == k + 1
      && t.outcomes[..k] == s.outcomes && RecordedAs(rules, d, t.outcomes[k])
      && t.all == s.all + (if d.reply.err == None then d.reply.results else [])
  {
    FoldStep(rules, ds, k);
    FoldOutput(rules, ds[..k]);
    OutcomeAppended(rules, Fold(rules, ds[..k]), ds[k]);
    OutcomeRecorded(rules, ds[k]);
    AbsorbedResults(rules, Fold(rules, ds[..k]), ds[k]);
  }

  // So the outcomes are those of the deliveries, place by place.
  lemma {:induction false} OutcomesExact(rules: Rules, ds: seq<Delivery>)
    ensures |Fold(rules, ds).outcomes| == |ds|
    ensures forall k :: 0 <= k < |ds| ==> RecordedAs(rules, ds[k], Fold(rules, ds).outcomes[k])
  {
    if ds != [] {
      var n := |ds| - 1;
      OutcomesExact(rules, ds[..n]);
      EachDelivery(rules, ds, n);
      assert ds[..n + 1] == ds;
    }
  }

  // cancel is called exactly once if some OK delivery reaches the threshold,
  // and not at all otherwise.
  lemma {:induction false} FoldCancels(rules: Rules, ds: seq<Delivery>)
    ensures var t := Fold(rules, ds);
      && (t.cancelled <==> SomeReaches(rules, ds))
      && t.cancels == if t.cancelled then 1 else 0
  {
    if ds != [] {
      var n := |ds| - 1;
      var front := ds[..n];
      FoldCancels(rules, front);
      FoldOutput(rules, front);
      assert ds[..n + 1] == ds;
      assert SomeReaches(rules, ds) <==> SomeReaches(rules, front) || Reaches(rules, ds, n) by {
        forall k | 0 <= k < n ensures Reaches(rules, ds, k) <==> Reaches(rules, front, k) {
          assert front[..k + 1] == ds[..k + 1];
        }
      }
    }
  }

  // The call happens at the first OK delivery that reaches the threshold.
  lemma CancelsAtFirstReach(rules: Rules, ds: seq<Delivery>, k: nat)
    requires k < |ds|
    ensures Fold(rules, ds[..k + 1]).cancels > Fold(rules, ds[..k]).cancels
      <==> Reaches(rules, ds, k) && forall j :: 0 <= j < k ==> !Reaches(rules, ds, j)
  {
    var p, q := ds[..k], ds[..k + 1];
    FoldCancels(rules, p);
    FoldCancels(rules, q);
    forall j | 0 <= j <= k ensures (j < k ==> (Reaches(rules, ds, j) <==> Reaches(rules, p, j)))
                               && (Reaches(rules, ds, j) <==> Reaches(rules, q, j))
    {
      assert q[..j + 1] == ds[..j + 1];
      if j < k { assert p[..j + 1] == ds[..j + 1]; }
    }
  }

  // The statistics count the deliveries by what they are, each exactly once.
  lemma {:induction false} FoldStats(rules: Rules, ds: seq<Delivery>)
    requires rules.kind.Direct?
    ensures var s := Fold(rules, ds).stats;
      && s.attempted + s.shed == |ds|
      && s.attempted == s.ok + s.empty + s.failed
      && s.ok == Total(CountOk, ds) && s.empty == Total(CountEmpty, ds)
      && s.failed == Total(CountFailed, ds) && s.shed == Total(CountShed, ds)
  {
    if ds != [] {
      FoldStats(rules, ds[..|ds| - 1]);
      StatsStep(rules, Fold(rules, ds[..|ds| - 1]), ds[|ds| - 1]);
    }
  }

  // One delivery is counted once, by what it is.
  lemma StatsStep(rules: Rules, t: Tally, d: Delivery)
    requires rules.kind.Direct?
    ensures Absorb(rules, t, d).stats == Stats(
      t.stats.attempted + 1 - CountShed(d), t.stats.ok + CountOk(d), t.stats.empty + CountEmpty(d),
      t.stats.failed + CountFailed(d), t.stats.shed + CountShed(d))
    ensures CountOk(d) + CountEmpty(d) + CountFailed(d) + CountShed(d) == 1
  {}

  // A fan-out whose every leg was shed does not read as degraded.
  lemma {:induction false} ShedIsNotDegraded(rules: Rules, ds: seq<Delivery>)
    requires rules.kind.Direct? && forall d <- ds :: IsShed(d.reply)
    ensures Fold(rules, ds).stats.attempted == 0
  {
    FoldStats(rules, ds);
    TotalBetween(CountShed, ds, 1, 1);
  }

  // ---- The race between a returned error and the end of its context

  datatype Context = Live | Ended(error: Failure, cause: Failure)

  // The case r := <-done of the select.
  function TakeDone(kind: Kind, r: Reply, ctx: Context): Reply {
    if kind.Direct? && r.err.Some? && ctx.Ended? && r.err.value.deadline then r.(err := Some(ctx.cause)) else r
  }

  // The case <-srcCtx.Done() of the select.
  function TakeContext(kind: Kind, ctx: Context): Reply
    requires ctx.Ended?
  {
    Reply([], Some(if kind.Direct? then ctx.cause else ctx.error))
  }

  // Both cases of the select leave the collector in the same state.
  predicate RaceHarmless(rules: Rules, t: Tally, leg: nat, source: string, r: Reply, ctx: Context)
    requires ctx.Ended?
  {
    Absorb(rules, t, Delivery(leg, source, TakeDone(rules.kind, r, ctx)))
      == Absorb(rules, t, Delivery(leg, source, TakeContext(rules.kind, ctx)))
  }

  // Two errors that the collector does not tell apart for a source.
  predicate SameClass(rules: Rules, source: string, e: Failure, f: Failure) {
    e.quotaExhausted == f.quotaExhausted
    && (e.quotaExhausted || ErrorOutcome(rules, source, e) == ErrorOutcome(rules, source, f))
  }

  // What is appended last tells two sequences apart.
  lemma AppendedDiffers<T>(s: seq<T>, x: T, y: T)
    requires x != y
    ensures s + [x] != s + [y]
  {
    assert (s + [x])[|s|] != (s + [y])[|s|];
  }

  // With an ended context it does not matter which case of the select is taken
  // exactly when the source fails with a deadline, which is reconciled to the
  // cause, or with an error of the same class as the cause. A source that
  // reports a deadline is delivered with the very same error.
  lemma RaceIsHarmless(rules: Rules, t: Tally, leg: nat, source: string, r: Reply, ctx: Context)
    requires rules.kind.Direct? && ctx.Ended?
    ensures r.err.Some? && r.err.value.deadline ==> TakeDone(Direct, r, ctx).err == TakeContext(Direct, ctx).err
    ensures RaceHarmless(rules, t, leg, source, r, ctx)
      <==> r.err.Some? && (r.err.value.deadline || SameClass(rules, source, r.err.value, ctx.cause))
  {
    var a := Absorb(rules, t, Delivery(leg, source, TakeDone(Direct, r, ctx)));
    var b := Absorb(rules, t, Delivery(leg, source, TakeContext(Direct, ctx)));
    OutcomeAppended(rules, t, Delivery(leg, source, TakeDone(Direct, r, ctx)));
    OutcomeAppended(rules, t, Delivery(leg, source, TakeContext(Direct, ctx)));
    assert a == b ==> a.outcomes[|t.outcomes|] == b.outcomes[|t.outcomes|];
  }

  // The outcome the collector records for one delivery.
  function OutcomeOf(rules: Rules, d: Delivery): Outcome {
    match d.reply.err
    case Some(e) =>
      if rules.kind.Pipeline? then OutcomeFail
      else if e.quotaExhausted then OutcomeShed
      else ErrorOutcome(rules, d.source, e)
    case None => if rules.kind.Direct? && d.reply.results == [] then OutcomeEmpty else OutcomeOk
  }

  lemma OutcomeAppended(rules: Rules, t: Tally, d: Delivery)
    ensures Absorb(rules, t, d).outcomes == t.outcomes + [OutcomeOf(rules, d)]
  {}

  // The twin reconciles nothing but drops every error alike, so there the race
  // is harmless exactly when the source fails.
  lemma PipelineRaceIsHarmless(rules: Rules, t: Tally, leg: nat, source: string, r: Reply, ctx: Context)
    requires rules.kind.Pipeline? && ctx.Ended?
    ensures RaceHarmless(rules, t, leg, source, r, ctx) <==> r.err.Some?
  {
    OutcomeAppended(rules, t, Delivery(leg, source, TakeDone(Pipeline, r, ctx)));
    OutcomeAppended(rules, t, Delivery(leg, source, TakeContext(Pipeline, ctx)));
    if r.err.None? { AppendedDiffers(t.outcomes, OutcomeOk, OutcomeFail); }
  }

  // ---- Marks and the block cache

  function MarkAll(c: BlockCache.Cache, ttl: int, cap: int, labels: seq<string>, clock: seq<int>): BlockCache.Cache
    requires |clock| >= |labels|
  {
    if labels == [] then c
    else
      var n := |labels| - 1;
      BlockCache.AfterMark(MarkAll(c, ttl, cap, labels[..n], clock[..n]), ttl, cap, labels[n], clock[n])
  }

  function LabelSet(labels: seq<string>): set<string> { set l | l in labels }

  lemma {:induction false} MarkBelowCapacity(c: BlockCache.Cache, ttl: int, cap: int, h: string, now: int)
    requires |c.items.Keys + {h}| <= cap
    ensures BlockCache.AfterMark(c, ttl, cap, h, now).items.Keys == c.items.Keys + {h}
  {
    BlockCache.KeysPlus(c.items, h, now + ttl);
    assert |c.items.Keys| == |c.items|;
    SubsetSize(c.items.Keys, c.items.Keys + {h}, h);
  }

  lemma LabelSetStep(c: BlockCache.Cache, cap: int, labels: seq<string>, l: string, more: seq<string>)
    requires more == labels + [l] && |c.items.Keys + LabelSet(more)| <= cap
    ensures c.items.Keys + LabelSet(more) == c.items.Keys + LabelSet(labels) + {l}
    ensures |c.items.Keys + LabelSet(labels)| <= cap
  {
    assert LabelSet(more) == LabelSet(labels) + {l};
    SubsetSize(c.items.Keys + LabelSet(labels), c.items.Keys + LabelSet(more), l);
  }

  // Below capacity, marking adds exactly the marked labels and evicts nothing.
  lemma {:induction false} MarkAllBelowCapacity(c: BlockCache.Cache, ttl: int, cap: int, labels: seq<string>,
                                                clock: seq<int>)
    requires |clock| >= |labels|
    requires |c.items.Keys + LabelSet(labels)| <= cap
    ensures MarkAll(c, ttl, cap, labels, clock).items.Keys == c.items.Keys + LabelSet(labels)
  {
    if labels == [] {
      assert LabelSet(labels) == {};
    } else {
      var n := |labels| - 1;
      LabelSetStep(c, cap, labels[..n], labels[n], labels);
      MarkAllBelowCapacity(c, ttl, cap, labels[..n], clock[..n]);
      MarkBelowCapacity(MarkAll(c, ttl, cap, labels[..n], clock[..n]), ttl, cap, labels[n], clock[n]);
    }
  }

  lemma {:induction false} SubsetSize(a: set<string>, b: set<string>, h: string)
    requires b == a + {h}
    ensures |a| <= |b| && (h !in a ==> |a| < |b|)
  {
    if h in a { assert a == b; } else { assert |a + {h}| == |a| + 1; }
  }

  lemma {:induction false} MarkedLabelsExact(rules: Rules, ds: seq<Delivery>, l: string)
    ensures l in MarkedLabels(rules, ds) <==> exists d <- ds :: MustMark(rules, d) && d.source == l
  {
    if ds != [] {
      var front := ds[..|ds| - 1];
      MarkedLabelsExact(rules, front, l);
      assert ds == front + [ds[|ds| - 1]];
    }
  }

  // After collection, and below capacity, the newly marked labels are exactly
  // those of the blocking errors.
  lemma {:induction false} NewlyMarked(rules: Rules, ds: seq<Delivery>, c: BlockCache.Cache, ttl: int, cap: int,
                                       clock: seq<int>, l: string)
    requires |clock| >= |Fold(rules, ds).marks|
    requires |c.items.Keys + LabelSet(Fold(rules, ds).marks)| <= cap
    requires l !in c.items
    ensures l in MarkAll(c, ttl, cap, Fold(rules, ds).marks, clock).items
      <==> exists d <- ds :: MustMark(rules, d) && d.source == l
  {
    FoldOutput(rules, ds);
    MarkAllBelowCapacity(c, ttl, cap, Fold(rules, ds).marks, clock);
    MarkedLabelsExact(rules, ds, l);
  }

  // ---- The loops

  // A cache, when there is one, is what `before` becomes by the given marks.
  ghost predicate MarksApplied(cache: BlockCache.DirectBlockCache?, before: BlockCache.Cache, marks: seq<string>,
                               times: seq<int>)
    reads cache
  {
    |times| == |marks| &&
    (cache != null ==> (cache.Valid() && cache.State() == MarkAll(before, cache.ttl, cache.cap, marks, times)))
  }

  // The same for at most one mark.
  ghost predicate CacheAfter(cache: BlockCache.DirectBlockCache?, before: BlockCache.Cache, marked: bool,
                             source: string, now: int)
    reads cache
  {
    cache != null ==>
      && cache.Valid()
      && cache.State() == (if marked then BlockCache.AfterMark(before, cache.ttl, cache.cap, source, now) else before)
  }

  function StateOf(cache: BlockCache.DirectBlockCache?): BlockCache.Cache
    reads cache
  {
    if cache == null then BlockCache.EMPTY else cache.State()
  }

  // handleSourceError.
  method HandleSourceError(rules: Rules, source: string, e: Failure, blockCache: BlockCache.DirectBlockCache?, now: int)
    returns (outcome: Outcome)
    requires blockCache != null ==> blockCache.Valid()
    modifies blockCache
    ensures outcome == ErrorOutcome(rules, source, e)
    ensures CacheAfter(blockCache, old(StateOf(blockCache)), Marking(outcome), source, now)
  {
    if e.rateLimited {
      outcome := OutcomeCaptcha;
      if blockCache != null {
        blockCache.Mark(source, now);
      }
    } else if e.sourceTimeout && source in rules.oxEscalate {
      outcome := OutcomeTimeout;
      if blockCache != null {
        blockCache.Mark(source, now);
      }
    } else if !e.canceled && !e.deadline && source in rules.oxEscalate {
      outcome := OutcomeBlocked;
      if blockCache != null {
        blockCache.Mark(source, now);
      }
    } else {
      outcome := OutcomeFail;
    }
  }

  lemma FoldStep(rules: Rules, ds: seq<Delivery>, k: nat)
    requires k < |ds|
    ensures Fold(rules, ds[..k + 1]) == Absorb(rules, Fold(rules, ds[..k]), ds[k])
  {
    assert ds[..k + 1][..k] == ds[..k];
  }

  lemma {:induction false} MarkAllAppend(c: BlockCache.Cache, ttl: int, cap: int, labels: seq<string>,
                                         clock: seq<int>, l: string, now: int)
    requires |clock| == |labels|
    ensures MarkAll(c, ttl, cap, labels + [l], clock + [now])
      == BlockCache.AfterMark(MarkAll(c, ttl, cap, labels, clock), ttl, cap, l, now)
  {
    assert (labels + [l])[..|labels|] == labels && (clock + [now])[..|clock|] == clock;
  }

  // The body of the loop in collectResults.
  method CollectOne(rules: Rules, before: Tally, d: Delivery, blockCache: BlockCache.DirectBlockCache?, now: int)
    returns (tally: Tally)
    requires rules.kind.Direct?
    requires blockCache != null ==> blockCache.Valid()
    modifies blockCache
    ensures tally == Absorb(rules, before, d)
    ensures tally.marks == before.marks || tally.marks == before.marks + [d.source]
    ensures CacheAfter(blockCache, old(StateOf(blockCache)), tally.marks != before.marks, d.source, now)
  {
    tally := before;
    if d.reply.err.Some? && d.reply.err.value.quotaExhausted {
      tally := tally.(stats := tally.stats.(shed := tally.stats.shed + 1), outcomes := tally.outcomes + [OutcomeShed]);
      return;
    }
    tally := tally.(stats := tally.stats.(attempted := tally.stats.attempted + 1));
    if d.reply.err.Some? {
      tally := tally.(stats := tally.stats.(failed := tally.stats.failed + 1));
      var o := HandleSourceError(rules, d.source, d.reply.err.value, blockCache, now);
      tally := tally.(outcomes := tally.outcomes + [o],
                      marks := if Marking(o) then tally.marks + [d.source] else tally.marks);
      return;
    }
    if |d.reply.results| == 0 {
      tally := tally.(stats := tally.stats.(empty := tally.stats.empty + 1),
                      outcomes := tally.outcomes + [OutcomeEmpty]);
      return;
    }
    tally := tally.(stats := tally.stats.(ok := tally.stats.ok + 1), outcomes := tally.outcomes + [OutcomeOk]);
    tally := tally.(all := tally.all + d.reply.results);
    if !tally.cancelled && |tally.all| >= rules.earlyAt {
      tally := tally.(cancels := tally.cancels + 1, cancelled := true);
    }
  }

  // collectResults on the deliveries in arrival order; clock gives the time
  // read while each one is handled.
  method CollectResults(rules: Rules, arrivals: seq<Delivery>, blockCache: BlockCache.DirectBlockCache?,
                        clock: seq<int>)
    returns (tally: Tally, ghost markTimes: seq<int>)
    requires rules.kind.Direct? && |clock| == |arrivals|
    requires blockCache != null ==> blockCache.Valid()
    modifies blockCache
    ensures tally == Fold(rules, arrivals)
    ensures MarksApplied(blockCache, old(StateOf(blockCache)), tally.marks, markTimes)
    ensures forall t <- markTimes :: t in clock
  {
    tally, markTimes := START, [];
    for k := 0 to |arrivals|
      invariant tally == Fold(rules, arrivals[..k])
      invariant MarksApplied(blockCache, old(StateOf(blockCache)), tally.marks, markTimes)
      invariant forall t <- markTimes :: t in clock
    {
      FoldStep(rules, arrivals, k);
      var next := CollectOne(rules, tally, arrivals[k], blockCache, clock[k]);
      if next.marks != tally.marks {
        if blockCache != null {
          MarkAllAppend(old(StateOf(blockCache)), blockCache.ttl, blockCache.cap, tally.marks, markTimes,
                        arrivals[k].source, clock[k]);
        }
        markTimes := markTimes + [clock[k]];
      }
      tally := next;
    }
    assert arrivals[..|arrivals|] == arrivals;
  }

  // collectPipelineResults.
  method CollectPipelineResults(rules: Rules, arrivals: seq<Delivery>) returns (tally: Tally)
    requires rules.kind.Pipeline?
    ensures tally == Fold(rules, arrivals)
  {
    tally := START;
    for k := 0 to |arrivals|
      invariant tally == Fold(rules, arrivals[..k])
    {
      var d := arrivals[k];
      FoldStep(rules, arrivals, k);
      if d.reply.err.Some? {
        tally := tally.(outcomes := tally.outcomes + [OutcomeFail]);
        continue;
      }
      tally := tally.(outcomes := tally.outcomes + [OutcomeOk], all := tally.all + d.reply.results);
      if !tally.cancelled && |tally.all| >= rules.earlyAt {
        tally := tally.(cancels := tally.cancels + 1, cancelled := true);
      }
    }
    assert arrivals[..|arrivals|] == arrivals;
  }
}

/** The daily query budget of the Marginalia source (search/marginalia.go,
    search/direct_runners.go). Clock readings are seconds; a day is a UTC
    calendar day. */
module Marginalia {
  import opened SearchTypes

  const DEFAULT_DAILY_BUDGET := 80
  const SECONDS_PER_DAY := 86400

  // The UTC calendar day of a clock reading.
  function Day(now: int): int { now / SECONDS_PER_DAY }

  // A day is 24 hours of 60 minutes of 60 seconds, counted from the epoch.
  lemma {:induction false} DayBounds(now: int)
    ensures Day(now) * (24 * 60 * 60) <= now < (Day(now) + 1) * (24 * 60 * 60)
  {}

  datatype Budget = Budget(day: int, spent: nat)

  // One Acquire on a given day.
  function Acquired(b: Budget, limit: int, today: int): (Budget, bool) {
    var window := if today != b.day then Budget(today, 0) else b;
    if window.spent >= limit then (window, false) else (window.(spent := window.spent + 1), true)
  }

  // ---- Call sequences

  // The budget after calls on the given days, starting fresh on day `first`.
  function After(limit: int, first: int, days: seq<int>): Budget {
    if days == [] then Budget(first, 0)
    else Acquired(After(limit, first, days[..|days| - 1]), limit, days[|days| - 1]).0
  }

  function Granted(limit: int, first: int, days: seq<int>): bool
    requires days != []
  {
    Acquired(After(limit, first, days[..|days| - 1]), limit, days[|days| - 1]).1
  }

  // Grants on day d among the calls.
  function Grants(limit: int, first: int, days: seq<int>, d: int): nat {
    if days == [] then 0
    else
      var counted := days[|days| - 1] == d && Granted(limit, first, days);
      Grants(limit, first, days[..|days| - 1], d) + (if counted then 1 else 0)
  }

  function Calls(days: seq<int>, d: int): nat {
    if days == [] then 0 else Calls(days[..|days| - 1], d) + (if days[|days| - 1] == d then 1 else 0)
  }

  predicate Monotone(first: int, days: seq<int>) {
    && (forall i :: 0 <= i < |days| ==> first <= days[i])
    && (forall i, j :: 0 <= i < j < |days| ==> days[i] <= days[j])
  }

  function Min(a: int, b: int): int { if a < b then a else b }

  lemma {:induction false} NoCallsYet(limit: int, first: int, days: seq<int>, d: int)
    requires forall i :: 0 <= i < |days| ==> days[i] != d
    ensures Grants(limit, first, days, d) == 0 && Calls(days, d) == 0
  {
    if days != [] { NoCallsYet(limit, first, days[..|days| - 1], d); }
  }

  // The window is that of the last call, and holds what was granted on its day.
  lemma {:induction false} WindowIsCurrent(limit: int, first: int, days: seq<int>)
    requires limit > 0 && Monotone(first, days)
    ensures var b := After(limit, first, days);
      && b.day == (if days == [] then first else days[|days| - 1])
      && b.spent == Grants(limit, first, days, b.day) <= limit
  {
    if days != [] {
      var front, today := days[..|days| - 1], days[|days| - 1];
      assert forall i :: 0 <= i < |front| ==> front[i] == days[i];
      WindowIsCurrent(limit, first, front);
      if today != After(limit, first, front).day { NoCallsYet(limit, first, front, today); }
    }
  }

  // With a clock whose day never goes back, each day grants min(limit, calls).
  lemma {:induction false} DailyGrants(limit: int, first: int, days: seq<int>, d: int)
    requires limit > 0 && Monotone(first, days)
    ensures Grants(limit, first, days, d) == Min(limit, Calls(days, d))
  {
    if days != [] {
      var front, today := days[..|days| - 1], days[|days| - 1];
      assert forall i :: 0 <= i < |front| ==> front[i] == days[i];
      DailyGrants(limit, first, front, d);
      WindowIsCurrent(limit, first, front);
      if today != After(limit, first, front).day { NoCallsYet(limit, first, front, today); }
    }
  }

  // How many of the last calls fell on the day of the last one, uninterrupted.
  function Stretch(days: seq<int>): nat {
    if days == [] then 0
    else if |days| > 1 && days[|days| - 1] == days[|days| - 2] then Stretch(days[..|days| - 1]) + 1
    else 1
  }

  // With any clock, a call is permitted exactly when it is among the first
  // `limit` of its uninterrupted stretch on one day.
  lemma {:induction false} GrantedWithinStretch(limit: int, first: int, days: seq<int>)
    requires limit > 0 && days != []
    ensures Granted(limit, first, days) <==> Stretch(days) <= limit
    ensures After(limit, first, days) == Budget(days[|days| - 1], Min(limit, Stretch(days)))
  {
    if |days| > 1 { GrantedWithinStretch(limit, first, days[..|days| - 1]); }
  }

  // The calls on day d are not interrupted by one on another day.
  predicate OneStretch(days: seq<int>, d: int) {
    forall i, j, k :: 0 <= i < j < k < |days| && days[i] == d && days[k] == d ==> days[j] == d
  }

  // A stretch on the day of the last call is all of that day's calls exactly
  // when they are one stretch.
  lemma {:induction false} StretchOfDay(days: seq<int>)
    requires days != []
    ensures var d := days[|days| - 1];
      Stretch(days) <= Calls(days, d) && (Stretch(days) == Calls(days, d) <==> OneStretch(days, d))
  {
    var n := |days| - 1;
    var front, d := days[..n], days[n];
    if n > 0 && days[n - 1] == d {
      StretchOfDay(front);
      OneMore(days);
    } else if n > 0 {
      NoneOrSome(front, d);
      if k :| 0 <= k < n && front[k] == d {
        assert days[k] == d && days[n - 1] != d && days[n] == d && k < n - 1;
      }
    }
  }

  // A day has calls exactly when some call is on it.
  lemma {:induction false} NoneOrSome(days: seq<int>, d: int)
    ensures Calls(days, d) == 0 <==> forall k :: 0 <= k < |days| ==> days[k] != d
  {
    if days != [] {
      var n := |days| - 1;
      NoneOrSome(days[..n], d);
      assert forall k :: 0 <= k < n ==> days[..n][k] == days[k];
    }
  }

  // One more call on the day of the call before keeps what is one stretch.
  lemma OneMore(days: seq<int>)
    requires |days| > 1 && days[|days| - 1] == days[|days| - 2]
    ensures OneStretch(days, days[|days| - 1]) <==> OneStretch(days[..|days| - 1], days[|days| - 1])
  {
    var n := |days| - 1;
    var front, d := days[..n], days[n];
    assert forall k :: 0 <= k < n ==> front[k] == days[k];
    if OneStretch(front, d) {
      forall i, j | 0 <= i < j < n && days[i] == d ensures days[j] == d {
        assert j == n - 1 || (front[i] == d && front[n - 1] == d);
      }
    }
  }

  lemma OneStretchFront(days: seq<int>, d: int)
    requires days != []
    ensures OneStretch(days, d) ==> OneStretch(days[..|days| - 1], d)
    ensures days[|days| - 1] != d ==> (OneStretch(days, d) <==> OneStretch(days[..|days| - 1], d))
  {
    assert forall k :: 0 <= k < |days| - 1 ==> days[..|days| - 1][k] == days[k];
  }

  // With any clock a day grants at least min(limit, calls), and more than the
  // limit exactly when it has more calls than that, not all in one stretch.
  lemma {:induction false} GrantsOfDay(limit: int, first: int, days: seq<int>, d: int)
    requires limit > 0
    ensures Grants(limit, first, days, d) >= Min(limit, Calls(days, d))
    ensures Calls(days, d) <= limit ==> Grants(limit, first, days, d) == Calls(days, d)
    ensures Grants(limit, first, days, d) > limit <==> Calls(days, d) > limit && !OneStretch(days, d)
  {
    if days != [] {
      var n := |days| - 1;
      GrantsOfDay(limit, first, days[..n], d);
      OneStretchFront(days, d);
      if days[n] == d {
        GrantedWithinStretch(limit, first, days);
        StretchOfDay(days);
        if n > 0 { StretchOfDay(days[..n]); }
      }
      if days[n] == d && n > 0 && days[n - 1] == d { OneMore(days); }
    }
  }

  // With any clock, a day grants min(limit, calls) exactly when its calls are
  // within the limit or not interrupted by a call on another day.
  lemma DailyCapExactly(limit: int, first: int, days: seq<int>, d: int)
    requires limit > 0
    ensures Grants(limit, first, days, d) == Min(limit, Calls(days, d))
      <==> Calls(days, d) <= limit || OneStretch(days, d)
  {
    GrantsOfDay(limit, first, days, d);
  }

  // It can fail: one step back and forth grants a day twice over.
  lemma ClockGoingBack(d: int)
    ensures Grants(1, d, [d, d - 1, d], d) == 2 && Calls([d, d - 1, d], d) == 2
    ensures !OneStretch([d, d - 1, d], d)
  {
    var days := [d, d - 1, d];
    assert days[..2] == [d, d - 1] && [d, d - 1][..1] == [d] && [d][..0] == [];
    assert days[0] == d && days[1] != d && days[2] == d;
    GrantedWithinStretch(1, d, [d]);
    GrantedWithinStretch(1, d, days);
    assert Grants(1, d, [d], d) == 1 && Calls([d], d) == 1;
    assert Grants(1, d, [d, d - 1], d) == 1 && Calls([d, d - 1], d) == 1;
  }

  // ---- The class

  class MarginaliaBudget {
    const limit: int
    const publishes: bool     // whether a metrics registry is wired
    var day: int
    var spent: nat
    var gauge: Option<int>    // the last published remaining budget

    ghost predicate Valid()
      reads this
    {
      && limit > 0 && spent <= limit
      && gauge == if publishes then Some(limit - spent) else None
    }

    function State(): Budget
      reads this
    {
      Budget(day, spent)
    }

    constructor (limit: int, publishes: bool, now: int)
      ensures Valid() && State() == Budget(Day(now), 0)
      ensures this.limit == (if limit <= 0 then 80 else limit) && this.publishes == publishes
    {
      this.limit := if limit <= 0 then DEFAULT_DAILY_BUDGET else limit;
      this.publishes := publishes;
      this.gauge := None;
      new;
      Reset(now);
    }

    method Reset(now: int)
      requires limit > 0 && (publishes || gauge == None)
      modifies this
      ensures Valid() && State() == Budget(Day(now), 0)
    {
      day := Day(now);
      spent := 0;
      PublishRemaining();
    }

    method Acquire(now: int) returns (permitted: bool)
      requires Valid()
      modifies this
      ensures Valid()
      ensures (State(), permitted) == Acquired(old(State()), limit, Day(now))
    {
      var today := Day(now);
      if today != day {
        day := today;
        spent := 0;
      }
      if spent >= limit {
        PublishRemaining();
        return false;
      }
      spent := spent + 1;
      PublishRemaining();
      return true;
    }

    method PublishRemaining()
      modifies this`gauge
      ensures gauge == if publishes then Some(limit - spent) else old(gauge)
    {
      if !publishes {
        return;
      }
      gauge := Some(limit - spent);
    }
  }

  // ---- runMarginalia

  datatype Answer = Shed | Issued(reply: seq<Result>)

  // The outbound calls made so far are counted where the request is issued.
  class Requests {
    var issued: nat

    constructor ()
      ensures issued == 0
    {
      issued := 0;
    }

    method Search(reply: seq<Result>) returns (r: seq<Result>)
      modifies this
      ensures issued == old(issued) + 1 && r == reply
    {
      issued := issued + 1;
      return reply;
    }
  }

  // runMarginalia: the budget is asked before any request; without one of its
  // own the configuration falls back to the default budget.
  method RunMarginalia(configured: MarginaliaBudget?, fallback: MarginaliaBudget, http: Requests,
                       reply: seq<Result>, now: int)
    returns (answer: Answer)
    requires fallback.Valid() && (configured != null ==> configured.Valid())
    modifies configured, fallback, http
    ensures fallback.Valid() && (configured != null ==> configured.Valid())
    ensures var b: MarginaliaBudget := if configured == null then fallback else configured;
      && (b.State(), answer.Issued?) == Acquired(old(b.State()), b.limit, Day(now))
      && http.issued == old(http.issued) + (if answer.Issued? then 1 else 0)
    ensures configured != null && configured != fallback ==> fallback.State() == old(fallback.State())
    ensures answer.Issued? ==> answer.reply == reply
  {
    var budget := fallback;
    if configured != null {
      budget := configured;
    }
    var ok := budget.Acquire(now);
    if !ok {
      return Shed;
    }
    var r := http.Search(reply);
    return Issued(r);
  }
}

/** The cache of blocked hosts (fetch/blockcache.go): a map with time to live
    and an insertion-order list, first as operations on values with their run
    properties, then as the class that updates its fields. */
module BlockCache {
  import opened SearchTypes

  type Host = string

  // items: host to unblock time; order: insertion order for eviction.
  datatype Cache = Cache(items: map<Host, int>, order: seq<Host>)

  const EMPTY := Cache(map[], [])

  // evictOldest: drop stale entries from the front, then the first live one.
  function AfterEviction(c: Cache): Cache
    decreases |c.order|
  {
    if c.order == [] then c
    else if c.order[0] in c.items then Cache(c.items - {c.order[0]}, c.order[1..])
    else AfterEviction(c.(order := c.order[1..]))
  }

  function AfterMark(c: Cache, ttl: int, cap: int, host: Host, now: int): Cache {
    var room :=
      if host in c.items then c
      else
        var e := if |c.items| >= cap then AfterEviction(c) else c;
        e.(order := e.order + [host]);
    room.(items := room.items[host := now + ttl])
  }

  // IsBlocked: an expired entry is dropped from items, but not from order.
  function AfterQuery(c: Cache, host: Host, now: int): Cache {
    if host in c.items && now > c.items[host] then c.(items := c.items - {host}) else c
  }

  predicate Blocks(c: Cache, host: Host, now: int) { host in c.items && now <= c.items[host] }

  function RemoveFirst(s: seq<Host>, host: Host): seq<Host> {
    if s == [] then [] else if s[0] == host then s[1..] else [s[0]] + RemoveFirst(s[1..], host)
  }

  function AfterUnmark(c: Cache, host: Host): Cache {
    if host !in c.items then c else Cache(c.items - {host}, RemoveFirst(c.order, host))
  }

  // ---- Eviction

  // The first entry of the order that is live.
  function FirstLive(order: seq<Host>, live: set<Host>): (k: nat)
    ensures k <= |order|
    ensures forall i :: 0 <= i < k ==> order[i] !in live
    ensures k < |order| ==> order[k] in live
  {
    if order == [] then 0
    else if order[0] in live then 0
    else 1 + FirstLive(order[1..], live)
  }

  lemma {:induction false} EvictionDropsFirstLive(c: Cache)
    ensures var k := FirstLive(c.order, c.items.Keys);
      AfterEviction(c) ==
        if k < |c.order| then Cache(c.items - {c.order[k]}, c.order[k + 1..]) else c.(order := [])
    decreases |c.order|
  {
    if c.order != [] && c.order[0] !in c.items {
      EvictionDropsFirstLive(c.(order := c.order[1..]));
    }
  }

  // What every operation keeps: live hosts are listed, and never too many.
  predicate Sound(c: Cache, cap: int) {
    (forall h <- c.items :: h in c.order) && |c.items| <= cap
  }

  lemma {:induction false} LiveEntryFound(c: Cache, cap: int)
    requires Sound(c, cap) && |c.items| > 0
    ensures FirstLive(c.order, c.items.Keys) < |c.order|
  {
    assert |c.items.Keys| > 0;
    var h :| h in c.items.Keys;
    assert h in c.order;
  }

  lemma {:induction false} OthersStayListed(order: seq<Host>, k: nat, live: set<Host>, g: Host)
    requires k == FirstLive(order, live) < |order|
    requires g in order && g in live && g != order[k]
    ensures g in order[k + 1..]
  {
    var i :| 0 <= i < |order| && order[i] == g;
    assert i > k;
    assert order[k + 1..][i - k - 1] == g;
  }

  // At capacity, evictOldest removes exactly one live entry.
  lemma EvictionRemovesOne(c: Cache, cap: int)
    requires cap > 0 && Sound(c, cap) && |c.items| == cap
    ensures FirstLive(c.order, c.items.Keys) < |c.order|
    ensures var victim := c.order[FirstLive(c.order, c.items.Keys)];
      && victim in c.items
      && AfterEviction(c).items == c.items - {victim}
      && |AfterEviction(c).items| == cap - 1
    ensures Sound(AfterEviction(c), cap)
  {
    LiveEntryFound(c, cap);
    EvictionDropsFirstLive(c);
    var k := FirstLive(c.order, c.items.Keys);
    CardinalityMinus(c.items, c.order[k]);
    forall g | g in c.items && g != c.order[k] ensures g in c.order[k + 1..] {
      OthersStayListed(c.order, k, c.items.Keys, g);
    }
  }

  lemma {:induction false} CardinalityMinus(m: map<Host, int>, h: Host)
    requires h in m
    ensures |m - {h}| == |m| - 1
  {
    assert (m - {h}).Keys == m.Keys - {h};
    assert |(m - {h}).Keys| == |m - {h}| && |m.Keys| == |m|;
  }

  lemma {:induction false} CardinalityPlus(m: map<Host, int>, h: Host, v: int)
    ensures |m[h := v]| == |m| + (if h in m then 0 else 1)
  {
    assert m[h := v].Keys == m.Keys + {h};
    assert |m[h := v].Keys| == |m[h := v]| && |m.Keys| == |m|;
  }

  lemma {:induction false} RemoveFirstKeepsOthers(s: seq<Host>, h: Host, g: Host)
    requires g != h
    ensures g in RemoveFirst(s, h) <==> g in s
  {
    if s != [] && s[0] != h { RemoveFirstKeepsOthers(s[1..], h, g); }
  }

  // ---- Runs

  datatype Op =
    | MarkOp(host: Host, now: int)
    | UnmarkOp(host: Host)
    | QueryOp(host: Host, now: int)

  function Apply(c: Cache, ttl: int, cap: int, op: Op): Cache {
    match op
    case MarkOp(h, now) => AfterMark(c, ttl, cap, h, now)
    case UnmarkOp(h) => AfterUnmark(c, h)
    case QueryOp(h, now) => AfterQuery(c, h, now)
  }

  // The cache after a sequence of calls on a new cache.
  function Run(ops: seq<Op>, ttl: int, cap: int): Cache {
    if ops == [] then EMPTY else Apply(Run(ops[..|ops| - 1], ttl, cap), ttl, cap, ops[|ops| - 1])
  }

  lemma MarkSound(c: Cache, ttl: int, cap: int, h: Host, now: int)
    requires cap > 0 && Sound(c, cap)
    ensures Sound(AfterMark(c, ttl, cap, h, now), cap)
  {
    if h in c.items {
      CardinalityPlus(c.items, h, now + ttl);
    } else {
      if |c.items| >= cap { EvictionRemovesOne(c, cap); }
      var e := if |c.items| >= cap then AfterEviction(c) else c;
      CardinalityPlus(e.items, h, now + ttl);
    }
  }

  lemma UnmarkSound(c: Cache, cap: int, h: Host)
    requires Sound(c, cap)
    ensures Sound(AfterUnmark(c, h), cap)
  {
    if h in c.items {
      CardinalityMinus(c.items, h);
      forall g | g in c.items && g != h ensures g in RemoveFirst(c.order, h) { RemoveFirstKeepsOthers(c.order, h, g); }
    }
  }

  lemma StepSound(c: Cache, ttl: int, cap: int, op: Op)
    requires cap > 0 && Sound(c, cap)
    ensures Sound(Apply(c, ttl, cap, op), cap)
  {
    match op
    case MarkOp(h, now) => MarkSound(c, ttl, cap, h, now);
    case UnmarkOp(h) => UnmarkSound(c, cap, h);
    case QueryOp(h, now) => if h in c.items { CardinalityMinus(c.items, h); }
  }

  // In every run, expiry included, live hosts are listed and the capacity holds.
  lemma {:induction false} RunSound(ops: seq<Op>, ttl: int, cap: int)
    requires cap > 0
    ensures Sound(Run(ops, ttl, cap), cap)
  {
    if ops != [] {
      RunSound(ops[..|ops| - 1], ttl, cap);
      StepSound(Run(ops[..|ops| - 1], ttl, cap), ttl, cap, ops[|ops| - 1]);
    }
  }

  // ---- Runs without an observed expiry: a bounded first-in first-out queue

  predicate ObservesExpiry(c: Cache, op: Op) {
    op.QueryOp? && op.host in c.items && op.now > c.items[op.host]
  }

  predicate NoExpirySeen(ops: seq<Op>, ttl: int, cap: int) {
    forall k :: 0 <= k < |ops| ==> !ObservesExpiry(Run(ops[..k], ttl, cap), ops[k])
  }

  // The simple specification: hosts in insertion order, each once; the oldest
  // leaves when a new host finds the queue full.
  function QueueApply(q: seq<Host>, cap: int, op: Op): seq<Host> {
    match op
    case MarkOp(h, _) => if h in q then q else (if |q| >= cap && q != [] then q[1..] else q) + [h]
    case UnmarkOp(h) => Without(q, h)
    case QueryOp(_, _) => q
  }

  function Without(q: seq<Host>, h: Host): seq<Host> {
    if q == [] then [] else if q[0] == h then Without(q[1..], h) else [q[0]] + Without(q[1..], h)
  }

  function QueueRun(ops: seq<Op>, cap: int): seq<Host> {
    if ops == [] then [] else QueueApply(QueueRun(ops[..|ops| - 1], cap), cap, ops[|ops| - 1])
  }

  function Elements(s: seq<Host>): set<Host> { set h | h in s }

  // No stale entry and no repetition: order lists exactly the live hosts.
  predicate Exact(c: Cache) { Distinct(c.order) && Elements(c.order) == c.items.Keys }

  lemma {:induction false} DistinctSize(s: seq<Host>)
    requires Distinct(s)
    ensures |Elements(s)| == |s|
  {
    if s != [] {
      DistinctSize(s[1..]);
      assert Elements(s) == {s[0]} + Elements(s[1..]);
    }
  }

  lemma {:induction false} WithoutIsRemoveFirst(s: seq<Host>, h: Host)
    requires Distinct(s)
    ensures Without(s, h) == RemoveFirst(s, h)
    ensures Distinct(RemoveFirst(s, h)) && Elements(RemoveFirst(s, h)) == Elements(s) - {h}
  {
    if s != [] {
      WithoutIsRemoveFirst(s[1..], h);
      if s[0] == h {
        AbsentWithout(s[1..], h);
      } else {
        var r := RemoveFirst(s[1..], h);
        assert forall g :: g in r <==> g in Elements(r);
        assert Elements([s[0]] + r) == {s[0]} + Elements(r);
        assert Elements(s) == {s[0]} + Elements(s[1..]);
      }
    }
  }

  lemma {:induction false} AbsentWithout(s: seq<Host>, h: Host)
    requires h !in s
    ensures Without(s, h) == s
  {
    if s != [] { AbsentWithout(s[1..], h); }
  }

  lemma ExactMembers(c: Cache)
    requires Exact(c)
    ensures forall g :: g in c.order <==> g in c.items
    ensures |c.order| == |c.items|
  {
    DistinctSize(c.order);
    assert forall g :: g in c.order <==> g in Elements(c.order);
    assert |c.items.Keys| == |c.items|;
  }

  lemma {:induction false} ExactEviction(c: Cache)
    requires Exact(c) && c.order != []
    ensures AfterEviction(c) == Cache(c.items - {c.order[0]}, c.order[1..])
    ensures Exact(AfterEviction(c))
  {
    ExactMembers(c);
    assert c.order[0] in c.order;
    assert Elements(c.order[1..]) == Elements(c.order) - {c.order[0]};
  }

  lemma {:induction false} ExactAppend(c: Cache, h: Host, deadline: int)
    requires Exact(c) && h !in c.items
    ensures Exact(Cache(c.items[h := deadline], c.order + [h]))
  {
    ExactMembers(c);
    assert Elements(c.order + [h]) == Elements(c.order) + {h};
  }

  lemma ExactMark(c: Cache, ttl: int, cap: int, h: Host, now: int)
    requires cap > 0 && Exact(c)
    ensures Exact(AfterMark(c, ttl, cap, h, now))
    ensures AfterMark(c, ttl, cap, h, now).order == QueueApply(c.order, cap, MarkOp(h, now))
  {
    ExactMembers(c);
    if h !in c.items {
      if |c.items| >= cap {
        ExactEviction(c);
        ExactAppend(AfterEviction(c), h, now + ttl);
      } else {
        ExactAppend(c, h, now + ttl);
      }
    }
  }

  lemma ExactStep(c: Cache, ttl: int, cap: int, op: Op)
    requires cap > 0 && Exact(c) && !ObservesExpiry(c, op)
    ensures Exact(Apply(c, ttl, cap, op))
    ensures Apply(c, ttl, cap, op).order == QueueApply(c.order, cap, op)
  {
    match op
    case MarkOp(h, now) => ExactMark(c, ttl, cap, h, now);
    case UnmarkOp(h) =>
      ExactMembers(c);
      WithoutIsRemoveFirst(c.order, h);
      if h !in c.items { AbsentWithout(c.order, h); }
    case QueryOp(_, _) =>
  }

  // While no expired entry has been observed, the cache is that queue.
  lemma {:induction false} RefinesQueue(ops: seq<Op>, ttl: int, cap: int)
    requires cap > 0 && NoExpirySeen(ops, ttl, cap)
    ensures Exact(Run(ops, ttl, cap))
    ensures Run(ops, ttl, cap).order == QueueRun(ops, cap)
  {
    if ops != [] {
      var front := ops[..|ops| - 1];
      forall k | 0 <= k < |front| ensures !ObservesExpiry(Run(front[..k], ttl, cap), front[k]) {
        assert front[..k] == ops[..k];
      }
      RefinesQueue(front, ttl, cap);
      ExactStep(Run(front, ttl, cap), ttl, cap, ops[|ops| - 1]);
    }
  }

  // ---- When a host counts as blocked

  ghost predicate Monotone(ops: seq<Op>) {
    forall i, j :: 0 <= i < j < |ops| && !ops[i].UnmarkOp? && !ops[j].UnmarkOp? ==> ops[i].now <= ops[j].now
  }

  // The host evicted by an operation, if any.
  predicate Evicts(c: Cache, cap: int, op: Op, h: Host) {
    && op.MarkOp? && op.host !in c.items && |c.items| >= cap
    && var k := FirstLive(c.order, c.items.Keys); k < |c.order| && c.order[k] == h
  }

  // One call on the history of h; c is the cache before it.
  function LastStep(c: Cache, cap: int, last: Option<int>, op: Op, h: Host): Option<int> {
    if op.MarkOp? && op.host == h then Some(op.now)
    else if op == UnmarkOp(h) || Evicts(c, cap, op, h) then None
    else last
  }

  // The time of the last Mark of h with no later Unmark or eviction of h.
  function LastMark(ops: seq<Op>, ttl: int, cap: int, h: Host): Option<int> {
    if ops == [] then None
    else
      var front := ops[..|ops| - 1];
      LastStep(Run(front, ttl, cap), cap, LastMark(front, ttl, cap, h), ops[|ops| - 1], h)
  }

  // Some call has read a clock later than the deadline.
  predicate SeenLater(ops: seq<Op>, deadline: int) {
    ops != [] &&
    var op := ops[|ops| - 1];
    ((!op.UnmarkOp? && op.now > deadline) || SeenLater(ops[..|ops| - 1], deadline))
  }

  // What items records about h, against the history.
  predicate Remembers(c: Cache, last: Option<int>, ops: seq<Op>, ttl: int, h: Host) {
    match last
    case None => h !in c.items
    case Some(t) => if h in c.items then c.items[h] == t + ttl else SeenLater(ops, t + ttl)
  }

  lemma RememberStep(c: Cache, last: Option<int>, ops: seq<Op>, ttl: int, cap: int, h: Host)
    requires cap > 0 && ops != []
    requires Remembers(c, last, ops[..|ops| - 1], ttl, h)
    ensures var op := ops[|ops| - 1];
      Remembers(Apply(c, ttl, cap, op), LastStep(c, cap, last, op, h), ops, ttl, h)
  {
    EvictionDropsFirstLive(c);
  }

  lemma {:induction false} HistoryIsRemembered(ops: seq<Op>, ttl: int, cap: int, h: Host)
    requires cap > 0
    ensures Remembers(Run(ops, ttl, cap), LastMark(ops, ttl, cap, h), ops, ttl, h)
  {
    if ops != [] {
      var front := ops[..|ops| - 1];
      HistoryIsRemembered(front, ttl, cap, h);
      RememberStep(Run(front, ttl, cap), LastMark(front, ttl, cap, h), ops, ttl, cap, h);
    }
  }

  lemma {:induction false} LaterMeansExpired(ops: seq<Op>, h: Host, now: int, deadline: int)
    requires Monotone(ops + [QueryOp(h, now)]) && SeenLater(ops, deadline)
    ensures now > deadline
  {
    var n := |ops| - 1;
    var all := ops + [QueryOp(h, now)];
    assert all[n] == ops[n] && all[|ops|] == QueryOp(h, now);
    if ops[n].UnmarkOp? || ops[n].now <= deadline {
      var shorter := ops[..n] + [QueryOp(h, now)];
      forall i, j | 0 <= i < j < |shorter| && !shorter[i].UnmarkOp? && !shorter[j].UnmarkOp?
        ensures shorter[i].now <= shorter[j].now
      {
        assert shorter[i] == all[i];
        assert shorter[j] == if j == n then all[|ops|] else all[j];
      }
      LaterMeansExpired(ops[..n], h, now, deadline);
    }
  }

  // With a clock that never goes back, IsBlocked answers exactly whether the
  // last Mark is within the time to live, with no Unmark or eviction since.
  lemma {:induction false} BlockedIffRecentlyMarked(ops: seq<Op>, ttl: int, cap: int, h: Host, now: int)
    requires cap > 0 && Monotone(ops + [QueryOp(h, now)])
    ensures Blocks(Run(ops, ttl, cap), h, now) <==>
      LastMark(ops, ttl, cap, h).Some? && now <= LastMark(ops, ttl, cap, h).value + ttl
  {
    HistoryIsRemembered(ops, ttl, cap, h);
    var last := LastMark(ops, ttl, cap, h);
    if h !in Run(ops, ttl, cap).items && last.Some? {
      LaterMeansExpired(ops, h, now, last.value + ttl);
    }
  }

  // ---- Where strict first-in first-out order fails

  // One call on the queue of live hosts, oldest first; c is the cache before it.
  function LiveStep(c: Cache, q: seq<Host>, cap: int, op: Op): seq<Host> {
    match op
    case MarkOp(h, _) =>
      if h in c.items then q
      else
        var k := FirstLive(c.order, c.items.Keys);
        (if |c.items| >= cap && k < |c.order| then Without(q, c.order[k]) else q) + [h]
    case UnmarkOp(h) => Without(q, h)
    case QueryOp(h, _) => if ObservesExpiry(c, op) then Without(q, h) else q
  }

  // The live hosts in the order in which they became live, over a whole run.
  function LiveQueue(ops: seq<Op>, ttl: int, cap: int): seq<Host> {
    if ops == [] then []
    else
      var front, op := ops[..|ops| - 1], ops[|ops| - 1];
      LiveStep(Run(front, ttl, cap), LiveQueue(front, ttl, cap), cap, op)
  }

  // The live hosts by their last entry in the order.
  function KeepLast(order: seq<Host>, live: set<Host>): seq<Host> {
    if order == [] then []
    else if order[0] in live && order[0] !in order[1..] then [order[0]] + KeepLast(order[1..], live)
    else KeepLast(order[1..], live)
  }

  lemma {:induction false} KeepLastAppend(order: seq<Host>, live: set<Host>, h: Host)
    requires h !in live
    ensures KeepLast(order + [h], live + {h}) == KeepLast(order, live) + [h]
  {
    if order == [] {
      assert [h][1..] == [];
    } else {
      KeepLastAppend(order[1..], live, h);
      assert (order + [h])[1..] == order[1..] + [h];
    }
  }

  lemma {:induction false} KeepLastMembers(order: seq<Host>, live: set<Host>, g: Host)
    ensures g in KeepLast(order, live) <==> g in order && g in live
  {
    if order != [] { KeepLastMembers(order[1..], live, g); }
  }

  lemma {:induction false} KeepLastLess(order: seq<Host>, live: set<Host>, h: Host)
    ensures KeepLast(order, live - {h}) == Without(KeepLast(order, live), h)
  {
    if order != [] { KeepLastLess(order[1..], live, h); }
  }

  lemma {:induction false} KeepLastRemoved(order: seq<Host>, live: set<Host>, h: Host)
    requires h !in live
    ensures KeepLast(RemoveFirst(order, h), live) == KeepLast(order, live)
  {
    if order != [] && order[0] != h {
      KeepLastRemoved(order[1..], live, h);
      RemoveFirstKeepsOthers(order[1..], h, order[0]);
      var r := RemoveFirst(order[1..], h);
      assert ([order[0]] + r)[1..] == r;
    }
  }

  lemma {:induction false} KeepLastDropped(order: seq<Host>, live: set<Host>, k: nat)
    requires k <= |order| && forall i :: 0 <= i < k ==> order[i] !in live
    ensures KeepLast(order[k..], live) == KeepLast(order, live)
  {
    if k > 0 {
      KeepLastDropped(order[1..], live, k - 1);
      assert order[1..][k - 1..] == order[k..];
    } else {
      assert order[0..] == order;
    }
  }

  lemma {:induction false} KeysMinus(m: map<Host, int>, h: Host)
    ensures (m - {h}).Keys == m.Keys - {h}
  {}

  lemma {:induction false} KeysPlus(m: map<Host, int>, h: Host, v: int)
    ensures m[h := v].Keys == m.Keys + {h}
  {}

  lemma QueueMarked(c: Cache, ttl: int, cap: int, h: Host, now: int)
    requires cap > 0 && Sound(c, cap) && h !in c.items
    ensures var d := AfterMark(c, ttl, cap, h, now);
      KeepLast(d.order, d.items.Keys) == LiveStep(c, KeepLast(c.order, c.items.Keys), cap, MarkOp(h, now))
  {
    if |c.items| >= cap {
      QueueEvicted(c, cap);
      QueueAppended(AfterEviction(c), h, now + ttl);
    } else {
      QueueAppended(c, h, now + ttl);
    }
  }

  lemma QueueAppended(e: Cache, h: Host, deadline: int)
    requires h !in e.items
    ensures KeepLast(e.order + [h], e.items[h := deadline].Keys) == KeepLast(e.order, e.items.Keys) + [h]
  {
    KeepLastAppend(e.order, e.items.Keys, h);
    KeysPlus(e.items, h, deadline);
  }

  lemma QueueEvicted(c: Cache, cap: int)
    requires cap > 0 && Sound(c, cap) && |c.items| == cap
    ensures var k := FirstLive(c.order, c.items.Keys);
      && k < |c.order|
      && AfterEviction(c).items.Keys == c.items.Keys - {c.order[k]}
      && KeepLast(AfterEviction(c).order, AfterEviction(c).items.Keys)
         == Without(KeepLast(c.order, c.items.Keys), c.order[k])
  {
    LiveEntryFound(c, cap);
    EvictionDropsFirstLive(c);
    QueueWithout(c, FirstLive(c.order, c.items.Keys), AfterEviction(c));
  }

  lemma QueueWithout(c: Cache, k: nat, d: Cache)
    requires k == FirstLive(c.order, c.items.Keys) < |c.order|
    requires d == Cache(c.items - {c.order[k]}, c.order[k + 1..])
    ensures d.items.Keys == c.items.Keys - {c.order[k]}
    ensures KeepLast(d.order, d.items.Keys) == Without(KeepLast(c.order, c.items.Keys), c.order[k])
  {
    KeysMinus(c.items, c.order[k]);
    DropFirstLive(c.order, c.items.Keys, k);
  }

  lemma DropFirstLive(order: seq<Host>, live: set<Host>, k: nat)
    requires k == FirstLive(order, live) < |order|
    ensures KeepLast(order[k + 1..], live - {order[k]}) == Without(KeepLast(order, live), order[k])
  {
    KeepLastLess(order, live, order[k]);
    KeepLastDropped(order, live - {order[k]}, k + 1);
  }

  lemma QueueUnmarked(c: Cache, h: Host)
    ensures var d := AfterUnmark(c, h);
      KeepLast(d.order, d.items.Keys) == Without(KeepLast(c.order, c.items.Keys), h)
  {
    KeepLastMembers(c.order, c.items.Keys, h);
    if h in c.items {
      KeysMinus(c.items, h);
      KeepLastLess(c.order, c.items.Keys, h);
      KeepLastRemoved(c.order, c.items.Keys - {h}, h);
    } else {
      AbsentWithout(KeepLast(c.order, c.items.Keys), h);
    }
  }

  lemma QueueStep(c: Cache, ttl: int, cap: int, op: Op)
    requires cap > 0 && Sound(c, cap)
    ensures var d := Apply(c, ttl, cap, op);
      KeepLast(d.order, d.items.Keys) == LiveStep(c, KeepLast(c.order, c.items.Keys), cap, op)
  {
    match op
    case MarkOp(h, now) =>
      if h in c.items {
        KeysPlus(c.items, h, now + ttl);
        assert c.items.Keys + {h} == c.items.Keys;
      } else {
        QueueMarked(c, ttl, cap, h, now);
      }
    case UnmarkOp(h) =>
      QueueUnmarked(c, h);
    case QueryOp(h, now) =>
      KeysMinus(c.items, h);
      KeepLastLess(c.order, c.items.Keys, h);
  }

  // In every run the live hosts by last entry are the live hosts by insertion.
  lemma {:induction false} LastEntriesAreInsertions(ops: seq<Op>, ttl: int, cap: int)
    requires cap > 0
    ensures KeepLast(Run(ops, ttl, cap).order, Run(ops, ttl, cap).items.Keys) == LiveQueue(ops, ttl, cap)
  {
    if ops != [] {
      var front, op := ops[..|ops| - 1], ops[|ops| - 1];
      LastEntriesAreInsertions(front, ttl, cap);
      RunSound(front, ttl, cap);
      QueueStep(Run(front, ttl, cap), ttl, cap, op);
    }
  }

  // The host that eviction takes has a later entry, behind the only remaining
  // entry of another live host.
  predicate Overtaking(order: seq<Host>, live: set<Host>) {
    var k := FirstLive(order, live);
    && k < |order|
    && exists i, j :: 0 <= i < j < |order| && order[j] == order[k] && LastOfOther(order, live, order[k], i)
  }

  // Position i holds the last entry of a live host other than `host`.
  predicate LastOfOther(order: seq<Host>, live: set<Host>, host: Host, i: nat)
    requires i < |order|
  {
    order[i] in live && order[i] != host && order[i] !in order[i + 1..]
  }

  function FirstLast(order: seq<Host>, live: set<Host>): (m: nat)
    ensures m <= |order|
  {
    if order == [] then 0
    else if order[0] in live && order[0] !in order[1..] then 0
    else 1 + FirstLast(order[1..], live)
  }

  predicate Repeated(order: seq<Host>, i: nat)
    requires i < |order|
  {
    order[i] in order[i + 1..]
  }

  lemma RepeatedShift(order: seq<Host>, i: nat)
    requires 1 <= i < |order|
    ensures Repeated(order, i) <==> Repeated(order[1..], i - 1)
  {
    assert order[1..][i - 1 + 1..] == order[i + 1..];
  }

  lemma {:induction false} FirstLastIsHead(order: seq<Host>, live: set<Host>)
    ensures var m := FirstLast(order, live);
      && (forall i :: 0 <= i < m ==> order[i] !in live || Repeated(order, i))
      && (if m < |order| then
            && order[m] in live && !Repeated(order, m)
            && KeepLast(order, live) != [] && KeepLast(order, live)[0] == order[m]
          else KeepLast(order, live) == [])
  {
    if order != [] && !(order[0] in live && order[0] !in order[1..]) {
      FirstLastIsHead(order[1..], live);
      forall i | 1 <= i < |order| ensures Repeated(order, i) <==> Repeated(order[1..], i - 1) {
        RepeatedShift(order, i);
      }
    }
  }

  lemma {:induction false} LastEntry(order: seq<Host>, g: Host) returns (j: nat)
    requires g in order
    ensures j < |order| && order[j] == g && g !in order[j + 1..]
  {
    if order[|order| - 1] == g {
      j := |order| - 1;
    } else {
      var front := order[..|order| - 1];
      j := LastEntry(front, g);
      assert order[j + 1..] == front[j + 1..] + [order[|order| - 1]];
    }
  }

  // Eviction at capacity takes the host that has been live longest exactly
  // when no such overtaking is in the order.
  lemma EvictsOldestUnlessOvertaken(ops: seq<Op>, ttl: int, cap: int)
    requires cap > 0 && |Run(ops, ttl, cap).items| == cap
    ensures var c := Run(ops, ttl, cap);
      var k := FirstLive(c.order, c.items.Keys);
      && k < |c.order| && LiveQueue(ops, ttl, cap) != []
      && (c.order[k] == LiveQueue(ops, ttl, cap)[0] <==> !Overtaking(c.order, c.items.Keys))
  {
    var c := Run(ops, ttl, cap);
    RunSound(ops, ttl, cap);
    LastEntriesAreInsertions(ops, ttl, cap);
    LiveEntryFound(c, cap);
    OldestByLastEntry(c.order, c.items.Keys);
  }

  lemma OldestByLastEntry(order: seq<Host>, live: set<Host>)
    requires FirstLive(order, live) < |order|
    ensures KeepLast(order, live) != []
    ensures order[FirstLive(order, live)] == KeepLast(order, live)[0] <==> !Overtaking(order, live)
  {
    var k, m := FirstLive(order, live), FirstLast(order, live);
    FirstLastIsHead(order, live);
    var j := LastEntry(order, order[k]);
    LastNotBefore(order, live, m, j);
    if m < j {
      assert LastOfOther(order, live, order[k], m) by { LaterEntry(order, m, j); }
    } else {
      NoneLater(order, j);
    }
  }

  lemma LaterEntry(order: seq<Host>, i: nat, j: nat)
    requires i < j < |order|
    ensures order[j] in order[i + 1..]
  {
    assert order[j] == order[i + 1..][j - i - 1];
  }

  lemma NoneLater(order: seq<Host>, j: nat)
    requires j < |order| && order[j] !in order[j + 1..]
    ensures forall b :: j < b < |order| ==> order[b] != order[j]
  {
    forall b | j < b < |order| ensures order[b] != order[j] { LaterEntry(order, j, b); }
  }

  // The last entry of a live host is not in front of the first such entry.
  lemma LastNotBefore(order: seq<Host>, live: set<Host>, m: nat, j: nat)
    requires m <= |order| && j < |order| && order[j] in live && !Repeated(order, j)
    requires forall i :: 0 <= i < m ==> order[i] !in live || Repeated(order, i)
    ensures m <= j
  {}

  // It can fail: an expired entry leaves a stale one behind, and re-marking the
  // host makes the newest host the first victim.
  lemma StaleEntryOvertakes()
    ensures var ops := [MarkOp("a", 0), QueryOp("a", 11), MarkOp("b", 12), MarkOp("a", 13)];
      var c := Run(ops, 10, 2);
      && c.order == ["a", "b", "a"] && |c.items| == 2
      && AfterEviction(c).items.Keys == {"b"}
      && LiveQueue(ops, 10, 2) == ["b", "a"]
  {
    var o0, o1, o2, o3 := MarkOp("a", 0), QueryOp("a", 11), MarkOp("b", 12), MarkOp("a", 13);
    var s1, s2, s3 := [o0], [o0] + [o1], [o0] + [o1] + [o2];
    var ops := s3 + [o3];
    assert ops == [o0, o1, o2, o3];
    RunStep([], o0, 10, 2);
    assert [] + [o0] == s1;
    RunStep(s1, o1, 10, 2);
    RunStep(s2, o2, 10, 2);
    RunStep(s3, o3, 10, 2);
    StaleSteps();
    LastEntriesAreInsertions(ops, 10, 2);
    StaleOrder(Run(ops, 10, 2).items.Keys);
  }

  lemma {:induction false} StaleSteps()
    ensures var c1 := AfterMark(EMPTY, 10, 2, "a", 0);
      var c2 := AfterQuery(c1, "a", 11);
      var c3 := AfterMark(c2, 10, 2, "b", 12);
      var c4 := AfterMark(c3, 10, 2, "a", 13);
      && c4.order == ["a", "b", "a"] && c4.items.Keys == {"a", "b"} && |c4.items| == 2
      && AfterEviction(c4).items.Keys == {"b"}
  {
    var c1 := AfterMark(EMPTY, 10, 2, "a", 0);
    assert c1 == Cache(map["a" := 10], ["a"]);
    var c2 := AfterQuery(c1, "a", 11);
    assert c2 == Cache(map[], ["a"]);
    var c3 := AfterMark(c2, 10, 2, "b", 12);
    CardinalityPlus(map[], "b", 22);
    assert c3 == Cache(map["b" := 22], ["a", "b"]);
    var c4 := AfterMark(c3, 10, 2, "a", 13);
    CardinalityPlus(c3.items, "a", 23);
    assert c4 == Cache(map["b" := 22, "a" := 23], ["a", "b", "a"]);
  }

  lemma {:induction false} RunStep(ops: seq<Op>, op: Op, ttl: int, cap: int)
    ensures Run(ops + [op], ttl, cap) == Apply(Run(ops, ttl, cap), ttl, cap, op)
  {
    assert (ops + [op])[..|ops|] == ops;
  }

  lemma StaleOrder(live: set<Host>)
    requires live == {"a", "b"}
    ensures KeepLast(["a", "b", "a"], live) == ["b", "a"]
  {
    assert ["a", "b", "a"][1..] == ["b", "a"] && ["b", "a"][1..] == ["a"] && ["a"][1..] == [];
    assert "b" != "a";
    assert KeepLast(["a"], live) == ["a"];
    assert KeepLast(["b", "a"], live) == ["b", "a"];
  }

  // ---- Mark undone by Unmark

  predicate OnlyFrom(s: seq<Host>, h: Host) {
    if s == [] then true else if s[0] == h then (forall i :: 0 <= i < |s| ==> s[i] == h) else OnlyFrom(s[1..], h)
  }

  lemma {:induction false} RemoveAppended(s: seq<Host>, h: Host)
    ensures RemoveFirst(s + [h], h) == s <==> OnlyFrom(s, h)
  {
    if s == [] {
    } else if s[0] == h {
      assert (s + [h])[1..] == s[1..] + [h];
      if s[1..] + [h] == s {
        AllSame(s, h, |s|);
      }
    } else {
      RemoveAppended(s[1..], h);
      assert (s + [h])[1..] == s[1..] + [h];
      var r := RemoveFirst(s[1..] + [h], h);
      assert [s[0]] + r == s <==> r == s[1..];
    }
  }

  lemma {:induction false} AllSame(s: seq<Host>, h: Host, n: nat)
    requires s != [] && s[0] == h && s[1..] + [h] == s && n <= |s|
    ensures forall i :: 0 <= i < n ==> s[i] == h
  {
    if n > 1 {
      AllSame(s, h, n - 1);
      assert s[n - 1] == (s[1..] + [h])[n - 1];
      assert (s[1..] + [h])[n - 2] == s[n - 1];
    }
  }

  // Unmark undoes the Mark of a new host below capacity: items always, the
  // order exactly when the host left no stale entry in front of another host's.
  lemma MarkThenUnmark(c: Cache, ttl: int, cap: int, h: Host, now: int)
    requires h !in c.items && |c.items| < cap
    ensures var d := AfterUnmark(AfterMark(c, ttl, cap, h, now), h);
      && d.items == c.items
      && (d.order == c.order <==> OnlyFrom(c.order, h))
    ensures h !in c.order ==> OnlyFrom(c.order, h)
  {
    RemoveAppended(c.order, h);
    AbsentOnly(c.order, h);
  }

  lemma StaleBefore()
    ensures Run([MarkOp("a", 0), QueryOp("a", 11), MarkOp("b", 12)], 10, 3) == Cache(map["b" := 22], ["a", "b"])
  {
    var a, q, b := MarkOp("a", 0), QueryOp("a", 11), MarkOp("b", 12);
    RunTwo([], a, q, 10, 3);
    assert [] + [a, q] == [a, q];
    OneCycle(EMPTY, 0, 3);
    assert Run([a, q], 10, 3) == Cache(map[], ["a"]);
    RunStep([a, q], b, 10, 3);
    assert [a, q] + [b] == [a, q, b];
  }

  lemma TakesStaleEntry(c: Cache)
    requires c == Cache(map["b" := 22], ["a", "b"])
    ensures AfterUnmark(AfterMark(c, 10, 3, "a", 13), "a").order == ["b", "a"]
  {
    var d := AfterMark(c, 10, 3, "a", 13);
    assert d.order == ["a", "b", "a"] && "a" in d.items;
    assert d.order[1..] == ["b", "a"];
  }

  // It can fail: with a stale entry of "a" in front of "b", marking "a" anew and
  // un-marking it takes the stale entry away instead of the new one.
  lemma UnmarkTakesStaleEntry()
    ensures var c := Run([MarkOp("a", 0), QueryOp("a", 11), MarkOp("b", 12)], 10, 3);
      && "a" !in c.items && |c.items| == 1 && c.order == ["a", "b"]
      && AfterUnmark(AfterMark(c, 10, 3, "a", 13), "a").order == ["b", "a"]
  {
    StaleBefore();
    TakesStaleEntry(Cache(map["b" := 22], ["a", "b"]));
  }

  lemma {:induction false} AbsentOnly(s: seq<Host>, h: Host)
    ensures h !in s ==> OnlyFrom(s, h)
  {
    if s != [] { AbsentOnly(s[1..], h); }
  }

  // ---- The length of the order

  // A host marked and then found expired, n times over (time to live 10).
  function Cycles(n: nat): seq<Op> {
    if n == 0 then [] else Cycles(n - 1) + [MarkOp("a", 20 * n), QueryOp("a", 20 * n + 11)]
  }

  lemma RunTwo(ops: seq<Op>, a: Op, b: Op, ttl: int, cap: int)
    ensures Run(ops + [a, b], ttl, cap) == Apply(Apply(Run(ops, ttl, cap), ttl, cap, a), ttl, cap, b)
  {
    RunStep(ops, a, ttl, cap);
    RunStep(ops + [a], b, ttl, cap);
    assert ops + [a, b] == ops + [a] + [b];
  }

  // The order is not bounded by the capacity: each cycle leaves one more stale
  // entry, with nothing marked.
  lemma {:induction false} OrderOutgrows(n: nat, cap: int)
    requires cap > 0
    ensures Run(Cycles(n), 10, cap).items == map[] && |Run(Cycles(n), 10, cap).order| == n
  {
    if n > 0 {
      OrderOutgrows(n - 1, cap);
      CycleAfter(Cycles(n - 1), Cycles(n), 20 * n, cap);
    }
  }

  lemma CycleAfter(ops: seq<Op>, more: seq<Op>, t: int, cap: int)
    requires cap > 0 && Run(ops, 10, cap).items == map[]
    requires more == ops + [MarkOp("a", t), QueryOp("a", t + 11)]
    ensures var d := Run(more, 10, cap);
      d.items == map[] && |d.order| == |Run(ops, 10, cap).order| + 1
  {
    RunTwo(ops, MarkOp("a", t), QueryOp("a", t + 11), 10, cap);
    OneCycle(Run(ops, 10, cap), t, cap);
  }

  lemma {:induction false} OneCycle(c: Cache, t: int, cap: int)
    requires cap > 0 && c.items == map[]
    ensures var d := Apply(Apply(c, 10, cap, MarkOp("a", t)), 10, cap, QueryOp("a", t + 11));
      d.items == map[] && d.order == c.order + ["a"]
  {}

  // Mark keeps the order within the capacity exactly unless stale entries fill
  // it up: the host is new, there is room for it, and the order is full.
  lemma OrderWithinCapacity(c: Cache, ttl: int, cap: int, h: Host, now: int)
    requires cap > 0 && Sound(c, cap) && |c.order| <= cap
    ensures |AfterMark(c, ttl, cap, h, now).order| <= cap
       <==> h in c.items || |c.items| == cap || |c.order| < cap
  {
    if h !in c.items && |c.items| == cap {
      EvictionRemovesOne(c, cap);
      EvictionDropsFirstLive(c);
    }
  }

  lemma {:induction false} KeepLastSet(order: seq<Host>, live: set<Host>)
    ensures Distinct(KeepLast(order, live)) && Elements(KeepLast(order, live)) == Elements(order) * live
  {
    var kept := KeepLast(order, live);
    forall g ensures g in kept <==> g in order && g in live { KeepLastMembers(order, live, g); }
    if order != [] {
      KeepLastSet(order[1..], live);
      var rest := KeepLast(order[1..], live);
      if order[0] in live && order[0] !in order[1..] { KeepLastMembers(order[1..], live, order[0]); }
    }
  }

  // As many hosts are marked as the order has live entries, each host counted
  // once.
  lemma LiveCount(c: Cache, cap: int)
    requires Sound(c, cap)
    ensures |c.items| == |KeepLast(c.order, c.items.Keys)|
  {
    KeepLastSet(c.order, c.items.Keys);
    DistinctSize(KeepLast(c.order, c.items.Keys));
    assert Elements(c.order) * c.items.Keys == c.items.Keys;
    assert |c.items.Keys| == |c.items|;
  }

  // ---- The class

  const DEFAULT_BLOCK_TTL := 600_000_000_000   // ten minutes in nanoseconds
  const DEFAULT_BLOCK_CACHE_CAP := 1024

  class DirectBlockCache {
    var items: map<Host, int>
    var order: seq<Host>
    const ttl: int
    const cap: int

    function State(): Cache
      reads this
    {
      Cache(items, order)
    }

    ghost predicate Valid()
      reads this
    {
      ttl > 0 && cap > 0 && Sound(State(), cap)
    }

    constructor (ttl: int, cap: int)
      ensures Valid() && State() == EMPTY
      ensures this.ttl == if ttl <= 0 then 10 * 60 * 1_000_000_000 else ttl
      ensures this.cap == if cap <= 0 then 1024 else cap
    {
      this.ttl := if ttl <= 0 then DEFAULT_BLOCK_TTL else ttl;
      this.cap := if cap <= 0 then DEFAULT_BLOCK_CACHE_CAP else cap;
      items := map[];
      order := [];
    }

    method IsBlocked(host: Host, now: int) returns (blocked: bool)
      requires Valid()
      modifies this
      ensures Valid()
      ensures blocked <==> Blocks(old(State()), host, now)
      ensures State() == AfterQuery(old(State()), host, now)
    {
      StepSound(State(), ttl, cap, QueryOp(host, now));
      if host !in items {
        return false;
      }
      if now > items[host] {
        items := items - {host};
        return false;
      }
      return true;
    }

    method Mark(host: Host, now: int)
      requires Valid()
      modifies this
      ensures Valid()
      ensures State() == AfterMark(old(State()), ttl, cap, host, now)
    {
      StepSound(State(), ttl, cap, MarkOp(host, now));
      if host !in items {
        if |items| >= cap {
          EvictOldest();
        }
        order := order + [host];
      }
      items := items[host := now + ttl];
    }

    method Unmark(host: Host)
      requires Valid()
      modifies this
      ensures Valid()
      ensures State() == AfterUnmark(old(State()), host)
    {
      StepSound(State(), ttl, cap, UnmarkOp(host));
      if host !in items {
        return;
      }
      items := items - {host};
      for i := 0 to |order|
        invariant order == old(order) && items == old(items) - {host}
        invariant forall j :: 0 <= j < i ==> order[j] != host
      {
        if order[i] == host {
          RemoveFirstAt(order, host, i);
          order := order[..i] + order[i + 1..];
          return;
        }
      }
      RemoveFirstAbsent(order, host);
    }

    // Len: the live hosts of the order, within the capacity.
    method Len() returns (n: nat)
      requires Valid()
      ensures n == |items| == |KeepLast(order, items.Keys)| && n <= cap
    {
      LiveCount(State(), cap);
      return |items|;
    }

    // evictOldest.
    method EvictOldest()
      modifies this
      ensures State() == AfterEviction(old(State()))
    {
      while |order| > 0
        invariant AfterEviction(State()) == AfterEviction(old(State()))
        decreases |order|
      {
        var oldest := order[0];
        order := order[1..];
        if oldest in items {
          items := items - {oldest};
          return;
        }
      }
    }
  }

  lemma {:induction false} RemoveFirstAt(s: seq<Host>, h: Host, i: nat)
    requires i < |s| && s[i] == h && forall j :: 0 <= j < i ==> s[j] != h
    ensures RemoveFirst(s, h) == s[..i] + s[i + 1..]
  {
    if i > 0 { RemoveFirstAt(s[1..], h, i - 1); }
  }

  lemma {:induction false} RemoveFirstAbsent(s: seq<Host>, h: Host)
    requires forall j :: 0 <= j < |s| ==> s[j] != h
    ensures RemoveFirst(s, h) == s
  {
    if s != [] { RemoveFirstAbsent(s[1..], h); }
  }
}

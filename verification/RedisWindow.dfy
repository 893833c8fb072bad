/** The shared fixed-window limiter: requests on any number of replicas, interleaved at
    every point where Allow talks to the clock or to Redis. */
module RedisWindow {
  import opened Options

  /** `limit` requests per window of `window` seconds. */
  datatype Config = Config(limit: nat, window: nat)

  /** The counter of one client in one window. */
  type RKey = (string, nat)

  datatype Counter = Counter(value: nat, expiresAt: Option<nat>)

  /** A request that has read the clock and not yet reached INCR. */
  datatype Reading = Reading(key: string, window: nat, readAt: nat) {
    function RKey(): RKey {
      (key, window)
    }
  }

  /** Redis, the common clock in milliseconds, requests between the clock and INCR, and
      requests that got count 1 and have still to send EXPIRE. */
  datatype World = World(now: nat, counters: map<RKey, Counter>, clocked: map<nat, Reading>, expiring: map<nat, RKey>)

  /** `IncrFails` is an INCR that never took effect, `IncrLost` one that did but whose reply
      was lost. An EXPIRE that fails is one that is never sent. */
  datatype Step =
    | Tick(ms: nat)
    | ReadClock(id: nat, key: string)
    | Incr(id: nat)
    | IncrFails(id: nat)
    | IncrLost(id: nat)
    | Expire(id: nat)

  function Span(cfg: Config): nat {
    cfg.window * 1000
  }

  /** The window index: whole seconds, divided by the window. */
  function WindowOf(cfg: Config, now: nat): nat
    requires cfg.window >= 1
  {
    (now / 1000) / cfg.window
  }

  function EndOf(cfg: Config, window: nat): nat {
    (window + 1) * Span(cfg)
  }

  function Reply(s: World, rk: RKey): nat {
    if rk in s.counters then s.counters[rk].value + 1 else 1
  }

  /** What INCR does to the counters. */
  function Bumped(s: World, rk: RKey): map<RKey, Counter> {
    s.counters[rk := Counter(Reply(s, rk), if rk in s.counters then s.counters[rk].expiresAt else None)]
  }

  function Evict(counters: map<RKey, Counter>, now: nat): map<RKey, Counter> {
    map rk | rk in counters && !(counters[rk].expiresAt.Some? && counters[rk].expiresAt.value <= now) :: counters[rk]
  }

  /** One atomic step. A step of a request that is not at that point does nothing. */
  function Next(cfg: Config, s: World, step: Step): World
    requires cfg.window >= 1
  {
    match step
    case Tick(ms) => s.(now := s.now + ms, counters := Evict(s.counters, s.now + ms))
    case ReadClock(id, key) =>
      if id in s.clocked || id in s.expiring then s
      else s.(clocked := s.clocked[id := Reading(key, WindowOf(cfg, s.now), s.now)])
    case Incr(id) =>
      if id !in s.clocked then s
      else
        var rk := s.clocked[id].RKey();
        World(s.now, Bumped(s, rk), s.clocked - {id},
              if Reply(s, rk) == 1 then s.expiring[id := rk] else s.expiring)
    case IncrFails(id) => s.(clocked := s.clocked - {id})
    case IncrLost(id) =>
      if id !in s.clocked then s
      else s.(counters := Bumped(s, s.clocked[id].RKey()), clocked := s.clocked - {id})
    case Expire(id) =>
      if id !in s.expiring then s
      else
        var rk := s.expiring[id];
        s.(counters := if rk in s.counters then s.counters[rk := s.counters[rk].(expiresAt := Some(s.now + Span(cfg)))]
                       else s.counters,
           expiring := s.expiring - {id})
  }

  function Exec(cfg: Config, steps: seq<Step>): World
    requires cfg.window >= 1
  {
    if steps == [] then World(0, map[], map[], map[])
    else Next(cfg, Exec(cfg, steps[..|steps| - 1]), steps[|steps| - 1])
  }

  /** `step` decides a request of `rk` that is waiting in world `s`. */
  predicate Decides(s: World, step: Step, rk: RKey) {
    (step.Incr? || step.IncrFails? || step.IncrLost?) && step.id in s.clocked && s.clocked[step.id].RKey() == rk
  }

  /** ... and Redis counts it. */
  predicate Counts(s: World, step: Step, rk: RKey) {
    Decides(s, step, rk) && !step.IncrFails?
  }

  /** ... and it is let through on an error alone: not counted, or counted past the limit. */
  predicate FailsOpen(cfg: Config, s: World, step: Step, rk: RKey) {
    Decides(s, step, rk) && !step.Incr? && (step.IncrLost? ==> Reply(s, rk) > cfg.limit)
  }

  /** The counts that Redis gave out for `rk`, in order. */
  function Replies(cfg: Config, steps: seq<Step>, rk: RKey): seq<nat>
    requires cfg.window >= 1
  {
    if steps == [] then []
    else
      var front := steps[..|steps| - 1];
      var s := Exec(cfg, front);
      Replies(cfg, front, rk) + (if Counts(s, steps[|steps| - 1], rk) then [Reply(s, rk)] else [])
  }

  /** Requests of `rk` let through on an error alone. */
  function Failures(cfg: Config, steps: seq<Step>, rk: RKey): nat
    requires cfg.window >= 1
  {
    if steps == [] then 0
    else
      var front := steps[..|steps| - 1];
      Failures(cfg, front, rk) + (if FailsOpen(cfg, Exec(cfg, front), steps[|steps| - 1], rk) then 1 else 0)
  }

  /** Allow answers yes to the request that `step` decides: its count came back and is within
      the limit, or no count came back. */
  predicate Granted(cfg: Config, s: World, step: Step, rk: RKey) {
    Decides(s, step, rk) && (step.Incr? ==> Reply(s, rk) <= cfg.limit)
  }

  function Grants(cfg: Config, steps: seq<Step>, rk: RKey): nat
    requires cfg.window >= 1
  {
    if steps == [] then 0
    else
      var front := steps[..|steps| - 1];
      Grants(cfg, front, rk) + (if Granted(cfg, Exec(cfg, front), steps[|steps| - 1], rk) then 1 else 0)
  }

  /** INCRs of `rk` that found its earlier counter expired and started a new one. */
  function Revivals(cfg: Config, steps: seq<Step>, rk: RKey): nat
    requires cfg.window >= 1
  {
    if steps == [] then 0
    else
      var front := steps[..|steps| - 1];
      var s := Exec(cfg, front);
      Revivals(cfg, front, rk)
      + (if Counts(s, steps[|steps| - 1], rk) && rk !in s.counters && Replies(cfg, front, rk) != [] then 1 else 0)
  }

  // The counts of one key: each is 1 or one more than the last.

  predicate Continues(r: seq<nat>, i: nat)
    requires i < |r|
  {
    r[i] == 1 || (i > 0 && r[i] == r[i - 1] + 1)
  }

  ghost predicate Consecutive(r: seq<nat>) {
    forall i :: 0 <= i < |r| ==> Continues(r, i)
  }

  lemma {:induction false} ConsecutivePrefix(r: seq<nat>)
    requires Consecutive(r) && r != []
    ensures Consecutive(r[..|r| - 1])
    ensures |r| == 1 ==> r[0] == 1
    ensures |r| > 1 ==> r[|r| - 1] == 1 || r[|r| - 1] == r[..|r| - 1][|r| - 2] + 1
  {
    var front := r[..|r| - 1];
    forall i | 0 <= i < |front| ensures Continues(front, i) {
      assert Continues(r, i) && front[i] == r[i] && (i > 0 ==> front[i - 1] == r[i - 1]);
    }
    assert Continues(r, |r| - 1);
  }

  lemma {:induction false} ConsecutiveSnoc(r: seq<nat>, x: nat)
    requires Consecutive(r) && (x == 1 || (r != [] && x == r[|r| - 1] + 1))
    ensures Consecutive(r + [x])
  {
    var all := r + [x];
    forall i | 0 <= i < |all| ensures Continues(all, i) {
      if i < |r| {
        assert Continues(r, i) && all[i] == r[i] && (i > 0 ==> all[i - 1] == r[i - 1]);
      } else {
        assert all[i] == x && (i > 0 ==> all[i - 1] == r[|r| - 1]);
      }
    }
  }

  lemma {:induction false} LivesSnoc(r: seq<nat>, x: nat)
    ensures |Lives(r + [x])| == if x == 1 || Lives(r) == [] then |Lives(r)| + 1 else |Lives(r)|
  {
    assert (r + [x])[..|r|] == r;
  }

  function CountAtMost(r: seq<nat>, limit: nat): nat {
    if r == [] then 0 else CountAtMost(r[..|r| - 1], limit) + (if r[|r| - 1] <= limit then 1 else 0)
  }

  /** How many counts each counter gave out before it expired. */
  function Lives(r: seq<nat>): seq<nat> {
    if r == [] then []
    else
      var front := Lives(r[..|r| - 1]);
      if r[|r| - 1] == 1 || front == [] then front + [1]
      else front[..|front| - 1] + [front[|front| - 1] + 1]
  }

  function Min(a: nat, b: nat): nat {
    if a < b then a else b
  }

  function SumMin(xs: seq<nat>, limit: nat): nat {
    if xs == [] then 0 else SumMin(xs[..|xs| - 1], limit) + Min(xs[|xs| - 1], limit)
  }

  lemma {:induction false} SumMinSnoc(xs: seq<nat>, x: nat, limit: nat)
    ensures SumMin(xs + [x], limit) == SumMin(xs, limit) + Min(x, limit)
  {
    assert (xs + [x])[..|xs|] == xs;
  }

  ghost predicate Positive(xs: seq<nat>) {
    forall i :: 0 <= i < |xs| ==> xs[i] >= 1
  }

  /** The last life has given out as many counts as the last count says. */
  lemma {:induction false} LivesShape(r: seq<nat>)
    requires Consecutive(r)
    ensures r != [] ==> Lives(r) != [] && Lives(r)[|Lives(r)| - 1] == r[|r| - 1]
    ensures Positive(Lives(r))
  {
    if r != [] {
      ConsecutivePrefix(r);
      LivesShape(r[..|r| - 1]);
    }
  }

  /** Each life lets `limit` requests through, and no more. */
  lemma {:induction false} LivesCount(r: seq<nat>, limit: nat)
    requires Consecutive(r)
    ensures CountAtMost(r, limit) == SumMin(Lives(r), limit)
  {
    if r != [] {
      var front := r[..|r| - 1];
      ConsecutivePrefix(r);
      LivesCount(front, limit);
      LivesShape(front);
      if r[|r| - 1] == 1 {
        SumMinSnoc(Lives(front), 1, limit);
      } else {
        LongerLife(Lives(front), limit);
      }
    }
  }

  lemma {:induction false} LongerLife(lives: seq<nat>, limit: nat)
    requires lives != []
    ensures var last := lives[|lives| - 1];
      SumMin(lives[..|lives| - 1] + [last + 1], limit) == SumMin(lives, limit) + (if last + 1 <= limit then 1 else 0)
  {
    var most, last := lives[..|lives| - 1], lives[|lives| - 1];
    assert lives == most + [last];
    SumMinSnoc(most, last, limit);
    SumMinSnoc(most, last + 1, limit);
  }

  /** Without a bound on a life, the lives add up to all the counts. */
  lemma {:induction false} AllCounted(r: seq<nat>, limit: nat)
    requires limit >= |r| && Consecutive(r)
    ensures CountAtMost(r, limit) == |r| && (r != [] ==> r[|r| - 1] <= |r|)
  {
    if r != [] {
      ConsecutivePrefix(r);
      AllCounted(r[..|r| - 1], limit);
    }
  }

  function Total(xs: seq<nat>): nat {
    if xs == [] then 0 else Total(xs[..|xs| - 1]) + xs[|xs| - 1]
  }

  /** Either nothing is cut off, or one life fills the limit and each other adds to it. */
  lemma {:induction false} SumMinCases(xs: seq<nat>, limit: nat)
    requires Positive(xs) && limit >= 1
    ensures SumMin(xs, limit) >= |xs|
    ensures SumMin(xs, limit) == Total(xs) || SumMin(xs, limit) >= limit + |xs| - 1
  {
    if xs != [] {
      SumMinCases(xs[..|xs| - 1], limit);
    }
  }

  lemma {:induction false} TotalOfLives(r: seq<nat>)
    requires Consecutive(r)
    ensures Total(Lives(r)) == |r|
  {
    if r != [] {
      ConsecutivePrefix(r);
      TotalOfLives(r[..|r| - 1]);
      LivesShape(r[..|r| - 1]);
      var lives := Lives(r[..|r| - 1]);
      if r[|r| - 1] == 1 || lives == [] {
        assert (lives + [1])[..|lives|] == lives;
      } else {
        var most := lives[..|lives| - 1];
        assert (most + [lives[|lives| - 1] + 1])[..|most|] == most;
      }
    }
  }

  /** Exactly min(limit, n) of n counts are within the limit if and only if the counter lived
      once, or n is within the limit anyway, or the limit is zero. */
  lemma {:induction false} ExactIff(r: seq<nat>, limit: nat)
    requires Consecutive(r)
    ensures CountAtMost(r, limit) == Min(limit, |r|) <==> |Lives(r)| <= 1 || |r| <= limit || limit == 0
  {
    LivesCount(r, limit);
    LivesShape(r);
    TotalOfLives(r);
    var lives := Lives(r);
    if limit == 0 {
      NothingCounted(r);
    } else if |r| <= limit {
      AllCounted(r, limit);
    } else if |lives| <= 1 {
      SumMinOne(lives, limit);
    } else {
      SumMinCases(lives, limit);
    }
  }

  lemma {:induction false} NothingCounted(r: seq<nat>)
    requires Consecutive(r)
    ensures CountAtMost(r, 0) == 0
  {
    if r != [] {
      ConsecutivePrefix(r);
      NothingCounted(r[..|r| - 1]);
    }
  }

  lemma {:induction false} SumMinOne(xs: seq<nat>, limit: nat)
    requires |xs| <= 1
    ensures SumMin(xs, limit) == Min(Total(xs), limit)
  {
    if xs != [] {
      assert xs[..0] == [];
    }
  }

  // Invariants of every run.

  /** What holds between the world and the counts given out so far. */
  ghost predicate CountersMatch(s: World, r: seq<nat>, rk: RKey) {
    && Consecutive(r)
    && (rk in s.counters ==> r != [] && s.counters[rk].value == r[|r| - 1])
    && (forall i :: 0 <= i < |r| ==> r[i] >= 1)
  }

  lemma {:induction false} RepliesAreConsecutive(cfg: Config, steps: seq<Step>, rk: RKey)
    requires cfg.window >= 1
    ensures CountersMatch(Exec(cfg, steps), Replies(cfg, steps, rk), rk)
  {
    if steps != [] {
      var front, step := steps[..|steps| - 1], steps[|steps| - 1];
      RepliesAreConsecutive(cfg, front, rk);
      StepKeepsCounters(cfg, Exec(cfg, front), step, Replies(cfg, front, rk), rk);
    }
  }

  lemma {:induction false} StepKeepsCounters(cfg: Config, s: World, step: Step, r: seq<nat>, rk: RKey)
    requires cfg.window >= 1 && CountersMatch(s, r, rk)
    ensures CountersMatch(Next(cfg, s, step), r + (if Counts(s, step, rk) then [Reply(s, rk)] else []), rk)
  {
    if Counts(s, step, rk) {
      ConsecutiveSnoc(r, Reply(s, rk));
    } else {
      assert r + [] == r;
    }
  }

  lemma {:induction false} GrantsSplit(cfg: Config, steps: seq<Step>, rk: RKey)
    requires cfg.window >= 1
    ensures Grants(cfg, steps, rk) == CountAtMost(Replies(cfg, steps, rk), cfg.limit) + Failures(cfg, steps, rk)
  {
    if steps != [] {
      var front, step := steps[..|steps| - 1], steps[|steps| - 1];
      GrantsSplit(cfg, front, rk);
      var r := Replies(cfg, front, rk);
      if Counts(Exec(cfg, front), step, rk) {
        assert (r + [Reply(Exec(cfg, front), rk)])[..|r|] == r;
      } else {
        assert r + [] == r;
      }
    }
  }

  function LivesFor(r: seq<nat>, revivals: nat): nat {
    if r == [] then 0 else 1 + revivals
  }

  lemma {:induction false} LivesStep(s: World, step: Step, rk: RKey, r: seq<nat>, revivals: nat)
    requires CountersMatch(s, r, rk) && Counts(s, step, rk) && (r == [] ==> revivals == 0)
    requires |Lives(r)| == LivesFor(r, revivals)
    ensures |Lives(r + [Reply(s, rk)])|
         == LivesFor(r + [Reply(s, rk)], revivals + (if rk !in s.counters && r != [] then 1 else 0))
  {
    LivesSnoc(r, Reply(s, rk));
  }

  lemma {:induction false} LivesAreRevivals(cfg: Config, steps: seq<Step>, rk: RKey)
    requires cfg.window >= 1
    ensures |Lives(Replies(cfg, steps, rk))| == LivesFor(Replies(cfg, steps, rk), Revivals(cfg, steps, rk))
    ensures Replies(cfg, steps, rk) == [] ==> Revivals(cfg, steps, rk) == 0
  {
    if steps != [] {
      var front, step := steps[..|steps| - 1], steps[|steps| - 1];
      LivesAreRevivals(cfg, front, rk);
      RepliesAreConsecutive(cfg, front, rk);
      var s, r := Exec(cfg, front), Replies(cfg, front, rk);
      if Counts(s, step, rk) {
        LivesStep(s, step, rk, r, Revivals(cfg, front, rk));
      } else {
        assert r + [] == r;
      }
    }
  }

  /** For every interleaving, the requests granted for a client in a window are `limit` per
      life of its counter plus those let through on errors alone. Without those they are
      exactly min(limit, requests) if and only if no INCR revived an expired counter, or the
      requests were within the limit anyway. */
  lemma {:induction false} WindowGrantsExactly(cfg: Config, steps: seq<Step>, rk: RKey)
    requires cfg.window >= 1
    ensures var r := Replies(cfg, steps, rk);
      && Grants(cfg, steps, rk) == SumMin(Lives(r), cfg.limit) + Failures(cfg, steps, rk)
      && (Failures(cfg, steps, rk) == 0 ==>
            (Grants(cfg, steps, rk) == Min(cfg.limit, |r|) <==>
             Revivals(cfg, steps, rk) == 0 || |r| <= cfg.limit || cfg.limit == 0))
  {
    RepliesAreConsecutive(cfg, steps, rk);
    GrantsSplit(cfg, steps, rk);
    LivesAreRevivals(cfg, steps, rk);
    LivesCount(Replies(cfg, steps, rk), cfg.limit);
    ExactIff(Replies(cfg, steps, rk), cfg.limit);
  }

  ghost predicate Seen(cfg: Config, steps: seq<Step>, rk: RKey, w: World, r: seq<nat>, granted: nat)
    requires cfg.window >= 1
  {
    Exec(cfg, steps) == w && Replies(cfg, steps, rk) == r && Failures(cfg, steps, rk) == 0 && Grants(cfg, steps, rk) == granted
  }

  lemma {:induction false} OneMore(cfg: Config, steps: seq<Step>, step: Step, rk: RKey, w: World, r: seq<nat>, granted: nat)
    requires cfg.window >= 1 && Seen(cfg, steps, rk, w, r, granted) && !step.IncrFails? && !step.IncrLost?
    ensures Seen(cfg, steps + [step], rk, Next(cfg, w, step),
                 if Counts(w, step, rk) then r + [Reply(w, rk)] else r,
                 granted + (if Granted(cfg, w, step, rk) then 1 else 0))
  {
    assert (steps + [step])[..|steps|] == steps;
    assert r + [] == r;
  }

  // A run of two requests of one client with limit one and a window of one second.

  function One(): Config {
    Config(1, 1)
  }

  /** Both have read the clock. */
  function BothRead(key: string): World {
    World(0, map[], map[0 := Reading(key, 0, 0), 1 := Reading(key, 0, 0)], map[])
  }

  /** The first has been counted. */
  function FirstCounted(key: string): World {
    World(0, map[(key, 0) := Counter(1, None)], map[1 := Reading(key, 0, 0)], map[0 := (key, 0)])
  }

  /** A second later, after its EXPIRE, its counter is gone. */
  function Expired(key: string): World {
    World(1000, map[], map[1 := Reading(key, 0, 0)], map[])
  }

  lemma {:induction false} ReadingStep(key: string)
    ensures Next(One(), Next(One(), World(0, map[], map[], map[]), ReadClock(0, key)), ReadClock(1, key)) == BothRead(key)
  {
  }

  lemma {:induction false} CountingStep(key: string)
    ensures Next(One(), BothRead(key), Incr(0)) == FirstCounted(key)
  {
    assert BothRead(key).clocked - {0} == map[1 := Reading(key, 0, 0)];
  }

  lemma {:induction false} ExpiringStep(key: string)
    ensures Next(One(), Next(One(), FirstCounted(key), Expire(0)), Tick(1000)) == Expired(key)
  {
    var s := Next(One(), FirstCounted(key), Expire(0));
    assert s == World(0, map[(key, 0) := Counter(1, Some(1000))], map[1 := Reading(key, 0, 0)], map[]);
    assert Evict(s.counters, 1000) == map[];
  }

  lemma {:induction false} SeenFirstCounted(key: string) returns (steps: seq<Step>)
    ensures Seen(One(), steps, (key, 0), FirstCounted(key), [1], 1)
  {
    var rk, start := (key, 0), World(0, map[], map[], map[]);
    OneMore(One(), [], ReadClock(0, key), rk, start, [], 0);
    steps := [] + [ReadClock(0, key)];
    OneMore(One(), steps, ReadClock(1, key), rk, Next(One(), start, ReadClock(0, key)), [], 0);
    steps := steps + [ReadClock(1, key)];
    ReadingStep(key);
    OneMore(One(), steps, Incr(0), rk, BothRead(key), [], 0);
    steps := steps + [Incr(0)];
    CountingStep(key);
    assert [] + [1] == [1];
  }

  lemma {:induction false} SeenExpired(key: string) returns (steps: seq<Step>)
    ensures Seen(One(), steps, (key, 0), Expired(key), [1], 1)
  {
    steps := SeenFirstCounted(key);
    OneMore(One(), steps, Expire(0), (key, 0), FirstCounted(key), [1], 1);
    steps := steps + [Expire(0)];
    OneMore(One(), steps, Tick(1000), (key, 0), Next(One(), FirstCounted(key), Expire(0)), [1], 1);
    steps := steps + [Tick(1000)];
    ExpiringStep(key);
  }

  /** Such a revival can happen: a request that read the clock in window 0 reaches INCR after
      the counter of window 0 has expired, and both requests of a limit of one are granted. */
  lemma {:induction false} LateIncrExceedsLimit(key: string) returns (steps: seq<Step>)
    ensures Replies(One(), steps, (key, 0)) == [1, 1] && Failures(One(), steps, (key, 0)) == 0
    ensures Grants(One(), steps, (key, 0)) == 2 > One().limit
  {
    steps := SeenExpired(key);
    OneMore(One(), steps, Incr(1), (key, 0), Expired(key), [1], 1);
    steps := steps + [Incr(1)];
  }

  // Expiry and the clock.

  lemma {:induction false} WindowBounds(cfg: Config, t: nat)
    requires cfg.window >= 1
    ensures WindowOf(cfg, t) * Span(cfg) <= t < EndOf(cfg, WindowOf(cfg, t))
  {
    var q := t / 1000;
    var w := q / cfg.window;
    assert q == w * cfg.window + q % cfg.window;
    assert w * cfg.window <= q < (w + 1) * cfg.window by {
      assert (w + 1) * cfg.window == w * cfg.window + cfg.window;
    }
    assert w * Span(cfg) == (w * cfg.window) * 1000;
    assert EndOf(cfg, w) == ((w + 1) * cfg.window) * 1000;
  }

  /** No request is ahead of the clock, and no counter expires before its window ends. */
  ghost predicate ClockInv(cfg: Config, s: World)
    requires cfg.window >= 1
  {
    && (forall id :: id in s.clocked ==>
          s.clocked[id].window == WindowOf(cfg, s.clocked[id].readAt) && s.clocked[id].window * Span(cfg) <= s.now)
    && (forall id :: id in s.expiring ==> s.expiring[id].1 * Span(cfg) <= s.now)
    && (forall rk :: rk in s.counters && s.counters[rk].expiresAt.Some? ==>
          EndOf(cfg, rk.1) <= s.counters[rk].expiresAt.value)
  }

  lemma {:induction false} StepKeepsClockInv(cfg: Config, s: World, step: Step)
    requires cfg.window >= 1 && ClockInv(cfg, s)
    ensures ClockInv(cfg, Next(cfg, s, step))
  {
    match step
    case Tick(_) =>
    case ReadClock(_, _) => WindowBounds(cfg, s.now);
    case Incr(_) =>
    case IncrFails(_) =>
    case IncrLost(_) =>
    case Expire(id) =>
      if id in s.expiring {
        EndIsOneSpanLater(cfg, s.expiring[id].1);
      }
  }

  lemma {:induction false} EndIsOneSpanLater(cfg: Config, w: nat)
    ensures EndOf(cfg, w) == w * Span(cfg) + Span(cfg)
  {
  }

  lemma {:induction false} ClockInvHolds(cfg: Config, steps: seq<Step>)
    requires cfg.window >= 1
    ensures ClockInv(cfg, Exec(cfg, steps))
  {
    if steps != [] {
      ClockInvHolds(cfg, steps[..|steps| - 1]);
      StepKeepsClockInv(cfg, Exec(cfg, steps[..|steps| - 1]), steps[|steps| - 1]);
    }
  }

  /** Expiry never resets a counter inside its own window, however late EXPIRE was sent. */
  lemma {:induction false} NoResetInsideWindow(cfg: Config, steps: seq<Step>, rk: RKey)
    requires cfg.window >= 1 && Replies(cfg, steps, rk) != []
    ensures rk in Exec(cfg, steps).counters || Exec(cfg, steps).now >= EndOf(cfg, rk.1)
  {
    var front, step := steps[..|steps| - 1], steps[|steps| - 1];
    ClockInvHolds(cfg, front);
    if Replies(cfg, front, rk) != [] {
      NoResetInsideWindow(cfg, front, rk);
      CounterOutlivesWindow(cfg, Exec(cfg, front), step, rk);
    }
  }

  lemma {:induction false} CounterOutlivesWindow(cfg: Config, s: World, step: Step, rk: RKey)
    requires cfg.window >= 1 && ClockInv(cfg, s) && (rk in s.counters || s.now >= EndOf(cfg, rk.1))
    ensures rk in Next(cfg, s, step).counters || Next(cfg, s, step).now >= EndOf(cfg, rk.1)
  {
  }

  /** Every INCR for `rk` is done before the window it was counted for has ended. */
  ghost predicate Prompt(cfg: Config, steps: seq<Step>, rk: RKey)
    requires cfg.window >= 1
  {
    steps == [] ||
    (var front := steps[..|steps| - 1]; var s := Exec(cfg, front);
     Prompt(cfg, front, rk) && (Counts(s, steps[|steps| - 1], rk) ==> s.now < EndOf(cfg, rk.1)))
  }

  lemma {:induction false} PromptMeansNoRevival(cfg: Config, steps: seq<Step>, rk: RKey)
    requires cfg.window >= 1 && Prompt(cfg, steps, rk)
    ensures Revivals(cfg, steps, rk) == 0
  {
    if steps != [] {
      var front := steps[..|steps| - 1];
      PromptMeansNoRevival(cfg, front, rk);
      if Replies(cfg, front, rk) != [] {
        NoResetInsideWindow(cfg, front, rk);
      }
    }
  }

  /** When Redis answers and every INCR is done within its window, exactly min(limit, requests)
      of a client's requests in that window are granted, on however many replicas. */
  lemma {:induction false} PromptWindowIsExact(cfg: Config, steps: seq<Step>, rk: RKey)
    requires cfg.window >= 1 && Prompt(cfg, steps, rk) && Failures(cfg, steps, rk) == 0
    ensures Grants(cfg, steps, rk) == Min(cfg.limit, |Replies(cfg, steps, rk)|)
  {
    PromptMeansNoRevival(cfg, steps, rk);
    WindowGrantsExactly(cfg, steps, rk);
  }

  // Windows, counters and expiry, exactly.

  /** The window of a time, in milliseconds, is the one whose seconds it falls in. */
  lemma {:induction false} WindowIsExact(cfg: Config, t: nat, w: nat)
    requires cfg.window >= 1
    ensures WindowOf(cfg, t) == w <==> w * (cfg.window * 1000) <= t < (w + 1) * (cfg.window * 1000)
  {
    WindowBounds(cfg, t);
    if w * (cfg.window * 1000) <= t < (w + 1) * (cfg.window * 1000) {
      WindowIsUnique(cfg, t, w);
    }
  }

  /** No request is both before INCR and before EXPIRE, and no counter is at zero. */
  ghost predicate Separate(s: World) {
    && (forall id :: id in s.clocked ==> id !in s.expiring)
    && (forall rk :: rk in s.counters ==> s.counters[rk].value >= 1)
  }

  lemma {:induction false} RunIsSeparate(cfg: Config, steps: seq<Step>)
    requires cfg.window >= 1
    ensures Separate(Exec(cfg, steps))
  {
    if steps != [] {
      RunIsSeparate(cfg, steps[..|steps| - 1]);
    }
  }

  /** On every run, a request goes on to send EXPIRE exactly when its INCR started the counter
      and the reply came back. */
  lemma {:induction false} OnlyFirstSendsExpire(cfg: Config, steps: seq<Step>, id: nat)
    requires cfg.window >= 1 && id in Exec(cfg, steps).clocked
    ensures var s := Exec(cfg, steps);
      && (id in Next(cfg, s, Incr(id)).expiring <==> s.clocked[id].RKey() !in s.counters)
      && id !in Next(cfg, s, IncrLost(id)).expiring && id !in Next(cfg, s, IncrFails(id)).expiring
  {
    RunIsSeparate(cfg, steps);
  }

  /** What becomes of a waiting request: INCR adds one to the counter of its client and window
      and to no other, and the request is granted if that is within the limit; when no reply
      comes back it is granted in any case, whether or not it was counted. */
  lemma {:induction false} AllowDecides(cfg: Config, s: World, id: nat)
    requires cfg.window >= 1 && id in s.clocked
    ensures var rk := s.clocked[id].RKey();
      && (Granted(cfg, s, Incr(id), rk) <==> CountOf(s, rk) + 1 <= cfg.limit)
      && Granted(cfg, s, IncrFails(id), rk) && Granted(cfg, s, IncrLost(id), rk)
      && (forall k :: CountOf(Next(cfg, s, Incr(id)), k) == CountOf(s, k) + (if k == rk then 1 else 0))
      && (forall k :: CountOf(Next(cfg, s, IncrLost(id)), k) == CountOf(s, k) + (if k == rk then 1 else 0))
      && (forall k :: CountOf(Next(cfg, s, IncrFails(id)), k) == CountOf(s, k))
  {
  }

  /** A request that reads the clock waits with its client and the window of that moment. */
  lemma {:induction false} ReadClockWaits(cfg: Config, s: World, id: nat, key: string)
    requires cfg.window >= 1 && id !in s.clocked && id !in s.expiring
    ensures var t := Next(cfg, s, ReadClock(id, key));
      && id in t.clocked && t.clocked[id].key == key && t.clocked[id].readAt == s.now
      && t.clocked[id].window * (cfg.window * 1000) <= s.now < (t.clocked[id].window + 1) * (cfg.window * 1000)
      && t.counters == s.counters && t.now == s.now
  {
    WindowIsExact(cfg, s.now, WindowOf(cfg, s.now));
  }

  /** EXPIRE gives the counter the length of a window from then on; nothing but another EXPIRE
      changes that, and the counter is gone exactly when its time has come. */
  lemma {:induction false} CounterExpires(cfg: Config, s: World, rk: RKey, step: Step)
    requires cfg.window >= 1 && rk in s.counters
    ensures step.Expire? && step.id in s.expiring && s.expiring[step.id] == rk ==>
      rk in Next(cfg, s, step).counters && Next(cfg, s, step).counters[rk].expiresAt == Some(s.now + cfg.window * 1000)
    ensures !(step.Expire? && step.id in s.expiring && s.expiring[step.id] == rk) ==>
      var t, e := Next(cfg, s, step), s.counters[rk].expiresAt;
      && (rk in t.counters <==> !(step.Tick? && e.Some? && e.value <= t.now))
      && (rk in t.counters ==> t.counters[rk].expiresAt == e)
  {
  }

  // Any interval of one window's length.

  lemma {:induction false} TwoWindows(cfg: Config, a: nat, t: nat)
    requires cfg.window >= 1 && a <= t < a + Span(cfg)
    ensures WindowOf(cfg, t) == WindowOf(cfg, a) || WindowOf(cfg, t) == WindowOf(cfg, a) + 1
  {
    var w, u, span := WindowOf(cfg, a), WindowOf(cfg, t), Span(cfg);
    WindowBounds(cfg, a);
    WindowBounds(cfg, t);
    EndIsOneSpanLater(cfg, w);
    EndIsOneSpanLater(cfg, u);
    EndIsOneSpanLater(cfg, w + 1);
    if u < w {
      Multiples(u + 1, w, span);
    } else if u > w + 1 {
      Multiples(w + 2, u, span);
    }
  }

  lemma {:induction false} Multiples(x: nat, y: nat, span: nat)
    requires x <= y
    ensures x * span <= y * span
  {
  }

  /** A time within the bounds of a window is in that window. */
  lemma {:induction false} WindowIsUnique(cfg: Config, t: nat, u: nat)
    requires cfg.window >= 1 && u * Span(cfg) <= t < EndOf(cfg, u)
    ensures WindowOf(cfg, t) == u
  {
    var w, span := WindowOf(cfg, t), Span(cfg);
    WindowBounds(cfg, t);
    if u < w {
      Multiples(u + 1, w, span);
    } else if w < u {
      Multiples(w + 1, u, span);
    }
  }

  /** The request that `step` decides in world `s`, if it is one of client `key`. */
  predicate DecidesFor(s: World, step: Step, key: string) {
    (step.Incr? || step.IncrFails? || step.IncrLost?) && step.id in s.clocked && s.clocked[step.id].key == key
  }

  /** Grants for `key` to requests that read the clock in [a, b). */
  function GrantsToArrivals(cfg: Config, steps: seq<Step>, key: string, a: nat, b: nat): nat
    requires cfg.window >= 1
  {
    if steps == [] then 0
    else
      var front, step := steps[..|steps| - 1], steps[|steps| - 1];
      var s := Exec(cfg, front);
      GrantsToArrivals(cfg, front, key, a, b)
      + (if DecidesFor(s, step, key) && a <= s.clocked[step.id].readAt < b
            && Granted(cfg, s, step, s.clocked[step.id].RKey()) then 1 else 0)
  }

  lemma {:induction false} ArrivalsAreTwoWindows(cfg: Config, steps: seq<Step>, key: string, a: nat, b: nat)
    requires cfg.window >= 1 && b <= a + Span(cfg)
    ensures var w := WindowOf(cfg, a);
      GrantsToArrivals(cfg, steps, key, a, b) <= Grants(cfg, steps, (key, w)) + Grants(cfg, steps, (key, w + 1))
  {
    if steps != [] {
      var front, step := steps[..|steps| - 1], steps[|steps| - 1];
      ArrivalsAreTwoWindows(cfg, front, key, a, b);
      ClockInvHolds(cfg, front);
      var s := Exec(cfg, front);
      if DecidesFor(s, step, key) && a <= s.clocked[step.id].readAt < b {
        TwoWindows(cfg, a, s.clocked[step.id].readAt);
      }
    }
  }

  /** Of a client's requests that read the clock in an interval no longer than a window, at
      most twice the limit are granted, whenever their INCRs are done, if in the two windows
      involved no counter was revived and nothing was let through on an error alone. */
  lemma {:induction false} ArrivalsGetTwiceLimit(cfg: Config, steps: seq<Step>, key: string, a: nat, b: nat)
    requires cfg.window >= 1 && b <= a + Span(cfg)
    requires forall w :: WindowOf(cfg, a) <= w <= WindowOf(cfg, a) + 1 ==>
      Revivals(cfg, steps, (key, w)) == 0 && Failures(cfg, steps, (key, w)) == 0
    ensures GrantsToArrivals(cfg, steps, key, a, b) <= 2 * cfg.limit
  {
    var w := WindowOf(cfg, a);
    ArrivalsAreTwoWindows(cfg, steps, key, a, b);
    WindowGrantsExactly(cfg, steps, (key, w));
    WindowGrantsExactly(cfg, steps, (key, w + 1));
  }

  // The same by the time of admission, which is when the INCR is done.

  /** `step` grants a request of `key` at a time in [a, b). */
  predicate Admits(cfg: Config, s: World, step: Step, key: string, a: nat, b: nat) {
    a <= s.now < b && DecidesFor(s, step, key) && Granted(cfg, s, step, s.clocked[step.id].RKey())
  }

  /** It does so outside the accounting: its window was over, or it is an error's doing. */
  predicate AdmitsExtra(cfg: Config, s: World, step: Step, key: string, a: nat, b: nat) {
    Admits(cfg, s, step, key, a, b) &&
    (s.now >= EndOf(cfg, s.clocked[step.id].window) || FailsOpen(cfg, s, step, s.clocked[step.id].RKey()))
  }

  /** Requests of `key` granted at times in [a, b). */
  function Admitted(cfg: Config, steps: seq<Step>, key: string, a: nat, b: nat): nat
    requires cfg.window >= 1
  {
    if steps == [] then 0
    else
      var front, step := steps[..|steps| - 1], steps[|steps| - 1];
      Admitted(cfg, front, key, a, b) + (if Admits(cfg, Exec(cfg, front), step, key, a, b) then 1 else 0)
  }

  function AdmittedExtra(cfg: Config, steps: seq<Step>, key: string, a: nat, b: nat): nat
    requires cfg.window >= 1
  {
    if steps == [] then 0
    else
      var front, step := steps[..|steps| - 1], steps[|steps| - 1];
      AdmittedExtra(cfg, front, key, a, b) + (if AdmitsExtra(cfg, Exec(cfg, front), step, key, a, b) then 1 else 0)
  }

  /** `step` is an INCR for `rk` within the limit, done before its window is over. */
  predicate CountsInTime(cfg: Config, s: World, step: Step, rk: RKey) {
    Counts(s, step, rk) && Reply(s, rk) <= cfg.limit && s.now < EndOf(cfg, rk.1)
  }

  function GrantsInTime(cfg: Config, steps: seq<Step>, rk: RKey): nat
    requires cfg.window >= 1
  {
    if steps == [] then 0
    else
      var front := steps[..|steps| - 1];
      GrantsInTime(cfg, front, rk) + (if CountsInTime(cfg, Exec(cfg, front), steps[|steps| - 1], rk) then 1 else 0)
  }

  lemma {:induction false} InTimeAreCounted(cfg: Config, steps: seq<Step>, rk: RKey)
    requires cfg.window >= 1
    ensures GrantsInTime(cfg, steps, rk) <= CountAtMost(Replies(cfg, steps, rk), cfg.limit)
  {
    if steps != [] {
      var front, step := steps[..|steps| - 1], steps[|steps| - 1];
      InTimeAreCounted(cfg, front, rk);
      var r := Replies(cfg, front, rk);
      if Counts(Exec(cfg, front), step, rk) {
        assert (r + [Reply(Exec(cfg, front), rk)])[..|r|] == r;
      } else {
        assert r + [] == r;
      }
    }
  }

  /** Before a window is over, every INCR for it has been prompt. */
  lemma {:induction false} PromptUntilEnd(cfg: Config, steps: seq<Step>, rk: RKey)
    requires cfg.window >= 1 && Exec(cfg, steps).now < EndOf(cfg, rk.1)
    ensures Prompt(cfg, steps, rk)
  {
    if steps != [] {
      PromptUntilEnd(cfg, steps[..|steps| - 1], rk);
    }
  }

  /** On every run, at most `limit` requests are granted in time for a window. */
  lemma {:induction false} InTimeWithinLimit(cfg: Config, steps: seq<Step>, rk: RKey)
    requires cfg.window >= 1
    ensures GrantsInTime(cfg, steps, rk) <= cfg.limit
  {
    if steps != [] {
      var front, step := steps[..|steps| - 1], steps[|steps| - 1];
      if CountsInTime(cfg, Exec(cfg, front), step, rk) {
        PromptUntilEnd(cfg, steps, rk);
        PromptMeansNoRevival(cfg, steps, rk);
        CountedOnce(cfg, steps, rk);
        InTimeAreCounted(cfg, steps, rk);
      } else {
        InTimeWithinLimit(cfg, front, rk);
      }
    }
  }

  lemma {:induction false} CountedOnce(cfg: Config, steps: seq<Step>, rk: RKey)
    requires cfg.window >= 1 && Revivals(cfg, steps, rk) == 0
    ensures CountAtMost(Replies(cfg, steps, rk), cfg.limit) <= cfg.limit
  {
    RepliesAreConsecutive(cfg, steps, rk);
    LivesAreRevivals(cfg, steps, rk);
    ExactIff(Replies(cfg, steps, rk), cfg.limit);
  }

  /** An admission in [a, b) that is nothing extra was counted in time for one of two windows. */
  lemma {:induction false} AdmissionIsInTime(cfg: Config, s: World, step: Step, key: string, a: nat, b: nat)
    requires cfg.window >= 1 && b <= a + Span(cfg) && ClockInv(cfg, s)
    requires Admits(cfg, s, step, key, a, b) && !AdmitsExtra(cfg, s, step, key, a, b)
    ensures var w := WindowOf(cfg, a); CountsInTime(cfg, s, step, (key, w)) || CountsInTime(cfg, s, step, (key, w + 1))
  {
    var u := s.clocked[step.id].window;
    assert u * Span(cfg) <= s.now;
    WindowIsUnique(cfg, s.now, u);
    TwoWindows(cfg, a, s.now);
  }

  lemma {:induction false} AdmittedSplit(cfg: Config, steps: seq<Step>, key: string, a: nat, b: nat)
    requires cfg.window >= 1 && b <= a + Span(cfg)
    ensures var w := WindowOf(cfg, a);
      Admitted(cfg, steps, key, a, b) <= GrantsInTime(cfg, steps, (key, w)) + GrantsInTime(cfg, steps, (key, w + 1))
                                         + AdmittedExtra(cfg, steps, key, a, b)
  {
    if steps != [] {
      var front, step := steps[..|steps| - 1], steps[|steps| - 1];
      AdmittedSplit(cfg, front, key, a, b);
      ClockInvHolds(cfg, front);
      var s := Exec(cfg, front);
      if Admits(cfg, s, step, key, a, b) && !AdmitsExtra(cfg, s, step, key, a, b) {
        AdmissionIsInTime(cfg, s, step, key, a, b);
      }
    }
  }

  /** On every run, an interval no longer than a window admits for a client at most twice the
      limit, plus the requests whose INCR came after their window was over, plus those let
      through on an error alone. */
  lemma {:induction false} IntervalAdmitsTwiceLimitAndExtra(cfg: Config, steps: seq<Step>, key: string, a: nat, b: nat)
    requires cfg.window >= 1 && b <= a + Span(cfg)
    ensures Admitted(cfg, steps, key, a, b) <= 2 * cfg.limit + AdmittedExtra(cfg, steps, key, a, b)
  {
    var w := WindowOf(cfg, a);
    AdmittedSplit(cfg, steps, key, a, b);
    InTimeWithinLimit(cfg, steps, (key, w));
    InTimeWithinLimit(cfg, steps, (key, w + 1));
  }

  lemma {:induction false} NothingExtra(cfg: Config, steps: seq<Step>, key: string, a: nat, b: nat)
    requires cfg.window >= 1
    requires forall w :: Prompt(cfg, steps, (key, w)) && Failures(cfg, steps, (key, w)) == 0
    ensures AdmittedExtra(cfg, steps, key, a, b) == 0
  {
    if steps != [] {
      var front, step := steps[..|steps| - 1], steps[|steps| - 1];
      forall w: nat ensures Prompt(cfg, front, (key, w)) && Failures(cfg, front, (key, w)) == 0 {
        assert Prompt(cfg, steps, (key, w)) && Failures(cfg, steps, (key, w)) == 0;
      }
      NothingExtra(cfg, front, key, a, b);
      var s := Exec(cfg, front);
      if DecidesFor(s, step, key) {
        var rk := (key, s.clocked[step.id].window);
        assert Prompt(cfg, steps, rk) && Failures(cfg, steps, rk) == 0;
      }
    }
  }

  /** If every INCR of the client is done within its window and none is let through on an
      error alone, any interval no longer than a window admits at most twice the limit. */
  lemma {:induction false} PromptIntervalAdmitsTwiceLimit(cfg: Config, steps: seq<Step>, key: string, a: nat, b: nat)
    requires cfg.window >= 1 && b <= a + Span(cfg)
    requires forall w :: Prompt(cfg, steps, (key, w)) && Failures(cfg, steps, (key, w)) == 0
    ensures Admitted(cfg, steps, key, a, b) <= 2 * cfg.limit
  {
    NothingExtra(cfg, steps, key, a, b);
    IntervalAdmitsTwiceLimitAndExtra(cfg, steps, key, a, b);
  }

  // A run with no error and no revival that admits three at limit one.

  /** Without EXPIRE no counter goes away. */
  ghost predicate Lasting(s: World, r: seq<nat>, rk: RKey) {
    && (forall k :: k in s.counters ==> s.counters[k].expiresAt.None?)
    && (r != [] ==> rk in s.counters)
  }

  lemma {:induction false} NoExpiryNoRevival(cfg: Config, steps: seq<Step>, rk: RKey)
    requires cfg.window >= 1 && forall i :: 0 <= i < |steps| ==> !steps[i].Expire?
    ensures Lasting(Exec(cfg, steps), Replies(cfg, steps, rk), rk) && Revivals(cfg, steps, rk) == 0
  {
    if steps != [] {
      NoExpiryNoRevival(cfg, steps[..|steps| - 1], rk);
    }
  }

  lemma {:induction false} NoErrorNoFailure(cfg: Config, steps: seq<Step>, rk: RKey)
    requires cfg.window >= 1 && forall i :: 0 <= i < |steps| ==> !steps[i].IncrFails? && !steps[i].IncrLost?
    ensures Failures(cfg, steps, rk) == 0
  {
    if steps != [] {
      NoErrorNoFailure(cfg, steps[..|steps| - 1], rk);
    }
  }

  /** No EXPIRE arrives, and no INCR goes wrong. */
  ghost predicate Uneventful(steps: seq<Step>) {
    forall i :: 0 <= i < |steps| ==> !steps[i].Expire? && !steps[i].IncrFails? && !steps[i].IncrLost?
  }

  lemma {:induction false} NothingUnusual(cfg: Config, steps: seq<Step>, key: string)
    requires cfg.window >= 1 && Uneventful(steps)
    ensures forall w :: Revivals(cfg, steps, (key, w)) == 0 && Failures(cfg, steps, (key, w)) == 0
  {
    forall w: nat ensures Revivals(cfg, steps, (key, w)) == 0 && Failures(cfg, steps, (key, w)) == 0 {
      NoExpiryNoRevival(cfg, steps, (key, w));
      NoErrorNoFailure(cfg, steps, (key, w));
    }
  }

  /** A millisecond before window 1 ends. */
  function Late(cfg: Config): (t: nat)
    ensures cfg.window >= 1 ==> t == 2 * Span(cfg) - 1
  {
    if cfg.window == 0 then 0 else 2 * Span(cfg) - 1
  }

  /** An uneventful run that leads to `w`, where no request waits and later ids are unused,
      and that has admitted so many within a window's length from then on. */
  ghost predicate Reached(cfg: Config, steps: seq<Step>, key: string, w: World, nextId: nat, admitted: nat)
    requires cfg.window >= 1
  {
    && Uneventful(steps) && Exec(cfg, steps) == w && Admitted(cfg, steps, key, Late(cfg), Late(cfg) + Span(cfg)) == admitted
    && w.clocked == map[] && (forall id :: id in w.expiring ==> id < nextId)
  }

  lemma {:induction false} AdmittedSnoc(cfg: Config, steps: seq<Step>, step: Step, key: string, a: nat, b: nat)
    requires cfg.window >= 1
    ensures Exec(cfg, steps + [step]) == Next(cfg, Exec(cfg, steps), step)
    ensures Admitted(cfg, steps + [step], key, a, b)
         == Admitted(cfg, steps, key, a, b) + (if Admits(cfg, Exec(cfg, steps), step, key, a, b) then 1 else 0)
  {
    assert (steps + [step])[..|steps|] == steps;
  }

  lemma {:induction false} UneventfulSnoc(steps: seq<Step>, step: Step)
    requires Uneventful(steps) && !step.Expire? && !step.IncrFails? && !step.IncrLost?
    ensures Uneventful(steps + [step])
  {
  }

  function CountOf(w: World, rk: RKey): nat {
    if rk in w.counters then w.counters[rk].value else 0
  }

  /** `w'` differs from `w` in the counter of `rk` alone, as far as counts go. */
  ghost predicate CountedOnly(w: World, w': World, rk: RKey) {
    w'.now == w.now && forall k :: k != rk ==> CountOf(w', k) == CountOf(w, k)
  }

  /** A request that reads the clock and is counted at once, within the limit. */
  lemma {:induction false} ReachNext(cfg: Config, steps: seq<Step>, key: string, w: World, id: nat, admitted: nat)
    returns (steps': seq<Step>, w': World)
    requires cfg.window >= 1 && Reached(cfg, steps, key, w, id, admitted)
    requires Late(cfg) <= w.now < Late(cfg) + Span(cfg) && CountOf(w, (key, WindowOf(cfg, w.now))) < cfg.limit
    ensures var rk := (key, WindowOf(cfg, w.now));
      Reached(cfg, steps', key, w', id + 1, admitted + 1) && CountedOnly(w, w', rk) && CountOf(w', rk) == CountOf(w, rk) + 1
  {
    var a, b := Late(cfg), Late(cfg) + Span(cfg);
    var read, incr := ReadClock(id, key), Incr(id);
    var mid := Next(cfg, w, read);
    AdmittedSnoc(cfg, steps, read, key, a, b);
    AdmittedSnoc(cfg, steps + [read], incr, key, a, b);
    UneventfulSnoc(steps, read);
    UneventfulSnoc(steps + [read], incr);
    steps', w' := steps + [read] + [incr], Next(cfg, mid, incr);
    assert mid.clocked - {id} == map[];
  }

  /** `k` such requests. */
  lemma {:induction false} Burst(cfg: Config, steps: seq<Step>, key: string, w: World, id: nat, admitted: nat, k: nat)
    returns (steps': seq<Step>, w': World)
    requires cfg.window >= 1 && Reached(cfg, steps, key, w, id, admitted)
    requires Late(cfg) <= w.now < Late(cfg) + Span(cfg) && CountOf(w, (key, WindowOf(cfg, w.now))) + k <= cfg.limit
    ensures var rk := (key, WindowOf(cfg, w.now)); Reached(cfg, steps', key, w', id + k, admitted + k) && CountedOnly(w, w', rk)
    decreases k
  {
    steps', w' := steps, w;
    if k > 0 {
      steps', w' := ReachNext(cfg, steps, key, w, id, admitted);
      steps', w' := Burst(cfg, steps', key, w', id + 1, admitted + 1, k - 1);
    }
  }

  lemma {:induction false} FirstWindow(cfg: Config)
    requires cfg.window >= 1
    ensures WindowOf(cfg, 0) == 0
  {
    WindowIsUnique(cfg, 0, 0);
  }

  function Waiting(key: string, now: nat): World {
    World(now, map[], map[0 := Reading(key, 0, 0)], map[])
  }

  lemma {:induction false} ReadsFirst(cfg: Config, key: string, now: nat)
    requires cfg.window >= 1
    ensures Next(cfg, World(0, map[], map[], map[]), ReadClock(0, key)) == Waiting(key, 0)
    ensures Next(cfg, Waiting(key, 0), Tick(now)) == Waiting(key, now)
  {
    FirstWindow(cfg);
    assert Evict(Waiting(key, 0).counters, now) == map[];
  }

  lemma {:induction false} ReachWaiting(cfg: Config, key: string, a: nat, b: nat) returns (steps: seq<Step>)
    requires cfg.window >= 1
    ensures Uneventful(steps) && Exec(cfg, steps) == Waiting(key, a) && Admitted(cfg, steps, key, a, b) == 0
  {
    ReadsFirst(cfg, key, a);
    AdmittedSnoc(cfg, [], ReadClock(0, key), key, a, b);
    steps := [] + [ReadClock(0, key)];
    AdmittedSnoc(cfg, steps, Tick(a), key, a, b);
    steps := steps + [Tick(a)];
  }

  /** The clock is read in window 0, and the INCR comes at the end of window 1. */
  lemma {:induction false} ReachLate(cfg: Config, key: string) returns (steps: seq<Step>, w: World)
    requires cfg.window >= 1 && cfg.limit >= 1
    ensures Reached(cfg, steps, key, w, 1, 1) && w.now == Late(cfg) && forall u: nat :: u > 0 ==> CountOf(w, (key, u)) == 0
  {
    var a, b := Late(cfg), Late(cfg) + Span(cfg);
    steps := ReachWaiting(cfg, key, a, b);
    AdmittedSnoc(cfg, steps, Incr(0), key, a, b);
    UneventfulSnoc(steps, Incr(0));
    assert Waiting(key, a).clocked - {0} == map[];
    steps, w := steps + [Incr(0)], Next(cfg, Waiting(key, a), Incr(0));
  }

  /** A millisecond passes; no counter has an expiry. */
  lemma {:induction false} ReachTick(cfg: Config, steps: seq<Step>, key: string, w: World, id: nat, admitted: nat)
    returns (steps': seq<Step>, w': World)
    requires cfg.window >= 1 && Reached(cfg, steps, key, w, id, admitted)
    ensures Reached(cfg, steps', key, w', id, admitted) && w'.now == w.now + 1 && forall rk :: CountOf(w', rk) == CountOf(w, rk)
  {
    AdmittedSnoc(cfg, steps, Tick(1), key, Late(cfg), Late(cfg) + Span(cfg));
    UneventfulSnoc(steps, Tick(1));
    NoExpiryNoRevival(cfg, steps, (key, 0));
    steps', w' := steps + [Tick(1)], Next(cfg, w, Tick(1));
  }

  lemma {:induction false} LateWindows(cfg: Config)
    requires cfg.window >= 1
    ensures WindowOf(cfg, Late(cfg)) == 1 && WindowOf(cfg, Late(cfg) + 1) == 2
  {
    assert EndOf(cfg, 1) == 2 * Span(cfg) && EndOf(cfg, 2) == 3 * Span(cfg);
    WindowIsUnique(cfg, Late(cfg), 1);
    WindowIsUnique(cfg, Late(cfg) + 1, 2);
  }

  /** For every limit and window, a late INCR, the requests of a limit at the end of one
      window, and those of a limit at the start of the next are one more than twice the limit
      within a window's length, although no counter was revived and nothing was let through
      on an error. */
  lemma {:induction false} LateIncrExceedsInterval(cfg: Config, key: string) returns (steps: seq<Step>)
    requires cfg.window >= 1 && cfg.limit >= 1
    ensures forall w :: Revivals(cfg, steps, (key, w)) == 0 && Failures(cfg, steps, (key, w)) == 0
    ensures Admitted(cfg, steps, key, Late(cfg), Late(cfg) + Span(cfg)) == 2 * cfg.limit + 1
  {
    var w: World;
    LateWindows(cfg);
    steps, w := ReachLate(cfg, key);
    steps, w := Burst(cfg, steps, key, w, 1, 1, cfg.limit);
    steps, w := ReachTick(cfg, steps, key, w, 1 + cfg.limit, 1 + cfg.limit);
    steps, w := Burst(cfg, steps, key, w, 1 + cfg.limit, 1 + cfg.limit, cfg.limit);
    NothingUnusual(cfg, steps, key);
  }
}

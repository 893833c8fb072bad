/** The per-key token bucket: its state, its decisions, and what they amount to over a run. */
module TokenBucket {

  /** `rate` tokens per second, up to `burst`. Time is in seconds. */
  datatype Limits = Limits(rate: real, burst: real)

  datatype Level = Level(tokens: real, last: real)

  function Min(a: real, b: real): real {
    if a < b then a else b
  }

  /** The tokens earned in `dt` seconds. */
  function Earned(p: Limits, dt: real): real {
    dt * p.rate
  }

  function Refill(p: Limits, level: Level, now: real): real {
    Min(p.burst, level.tokens + Earned(p, now - level.last))
  }

  function Step(p: Limits, levels: map<string, Level>, key: string, now: real): (map<string, Level>, bool) {
    if key !in levels then (levels[key := Level(p.burst - 1.0, now)], true)
    else
      var tokens := Refill(p, levels[key], now);
      if tokens < 1.0 then (levels[key := Level(tokens, now)], false)
      else (levels[key := Level(tokens - 1.0, now)], true)
  }

  class Bucket {
    var tokens: real
    var last: real

    constructor (tokens: real, last: real)
      ensures this.tokens == tokens && this.last == last
    {
      this.tokens := tokens;
      this.last := last;
    }
  }

  class RateLimiter {
    const limits: Limits
    var buckets: map<string, Bucket>

    /** No two keys share a bucket object. */
    ghost predicate Valid()
      reads this
    {
      forall k, l :: k in buckets && l in buckets && k != l ==> buckets[k] != buckets[l]
    }

    ghost function Levels(): map<string, Level>
      reads this, buckets.Values
    {
      map k | k in buckets :: Level(buckets[k].tokens, buckets[k].last)
    }

    constructor (limits: Limits)
      ensures this.limits == limits && Valid() && Levels() == map[]
    {
      this.limits := limits;
      buckets := map[];
    }

    method Allow(key: string, now: real) returns (ok: bool)
      requires Valid()
      modifies this, buckets.Values
      ensures Valid() && fresh(buckets.Values - old(buckets.Values))
      ensures (Levels(), ok) == Step(limits, old(Levels()), key, now)
    {
      ghost var before := Levels();
      if key !in buckets {
        var b := new Bucket(limits.burst - 1.0, now);
        buckets := buckets[key := b];
        assert buckets.Values <= old(buckets.Values) + {b};
        assert Levels() == before[key := Level(limits.burst - 1.0, now)];
        return true;
      }
      var b := buckets[key];
      assert b in buckets.Values;
      b.tokens := Min(limits.burst, b.tokens + Earned(limits, now - b.last));
      b.last := now;
      assert b.tokens == Refill(limits, before[key], now);
      if b.tokens < 1.0 {
        assert Levels() == before[key := Level(b.tokens, now)];
        return false;
      }
      b.tokens := b.tokens - 1.0;
      assert Levels() == before[key := Level(b.tokens, now)];
      return true;
    }
  }

  datatype Request = Request(key: string, time: real)

  function After(p: Limits, reqs: seq<Request>): map<string, Level> {
    if reqs == [] then map[]
    else Step(p, After(p, reqs[..|reqs| - 1]), reqs[|reqs| - 1].key, reqs[|reqs| - 1].time).0
  }

  /** The decisions a run makes on the requests of one key, in order. */
  function Verdicts(p: Limits, reqs: seq<Request>, key: string): seq<bool> {
    if reqs == [] then []
    else
      var front, last := reqs[..|reqs| - 1], reqs[|reqs| - 1];
      Verdicts(p, front, key)
      + (if last.key == key then [Step(p, After(p, front), key, last.time).1] else [])
  }

  function Times(reqs: seq<Request>, key: string): seq<real> {
    if reqs == [] then []
    else
      var last := reqs[|reqs| - 1];
      Times(reqs[..|reqs| - 1], key) + (if last.key == key then [last.time] else [])
  }

  /** The level that request `k` of one key finds after the refill, the keys' other history
      being absent. */
  function LevelAt(p: Limits, times: seq<real>, k: nat): real
    requires k < |times|
    decreases k, 0
  {
    if k == 0 then p.burst
    else Min(p.burst, Left(p, times, k - 1) + Earned(p, times[k] - times[k - 1]))
  }

  function Admitted(p: Limits, times: seq<real>, k: nat): bool
    requires k < |times|
    decreases k, 1
  {
    k == 0 || LevelAt(p, times, k) >= 1.0
  }

  /** The tokens left after request `k`. */
  function Left(p: Limits, times: seq<real>, k: nat): real
    requires k < |times|
    decreases k, 2
  {
    LevelAt(p, times, k) - (if Admitted(p, times, k) then 1.0 else 0.0)
  }

  function Admissions(p: Limits, times: seq<real>): (d: seq<bool>)
    ensures |d| == |times|
  {
    seq(|times|, k requires 0 <= k < |times| => Admitted(p, times, k))
  }

  /** Later requests do not change earlier levels and decisions. */
  lemma {:induction false} PrefixLevels(p: Limits, times: seq<real>, t: real, k: nat)
    requires k < |times|
    ensures LevelAt(p, times + [t], k) == LevelAt(p, times, k)
    ensures Left(p, times + [t], k) == Left(p, times, k)
    ensures Admitted(p, times + [t], k) == Admitted(p, times, k)
  {
    if k > 0 {
      PrefixLevels(p, times, t, k - 1);
      assert (times + [t])[k] == times[k] && (times + [t])[k - 1] == times[k - 1];
    }
  }

  lemma {:induction false} AdmissionsSnoc(p: Limits, times: seq<real>, t: real)
    ensures Admissions(p, times + [t]) == Admissions(p, times) + [Admitted(p, times + [t], |times|)]
  {
    forall k | 0 <= k < |times| ensures Admitted(p, times + [t], k) == Admitted(p, times, k) {
      PrefixLevels(p, times, t, k);
    }
  }

  /** The levels hold, for `key`, what its request times alone lead to. */
  ghost predicate Tracks(p: Limits, levels: map<string, Level>, key: string, times: seq<real>) {
    && (key in levels <==> times != [])
    && (times != [] ==> levels[key] == Level(Left(p, times, |times| - 1), times[|times| - 1]))
  }

  lemma {:induction false} OwnStep(p: Limits, levels: map<string, Level>, key: string, times: seq<real>, now: real)
    requires Tracks(p, levels, key, times)
    ensures Tracks(p, Step(p, levels, key, now).0, key, times + [now])
    ensures Step(p, levels, key, now).1 == Admitted(p, times + [now], |times|)
  {
    if times != [] {
      PrefixLevels(p, times, now, |times| - 1);
    }
  }

  /** In any interleaving, the decisions for a key and its bucket are those of a bucket that
      sees that key's request times alone. */
  lemma {:induction false} KeysDoNotInterfere(p: Limits, reqs: seq<Request>, key: string)
    ensures Verdicts(p, reqs, key) == Admissions(p, Times(reqs, key))
    ensures Tracks(p, After(p, reqs), key, Times(reqs, key))
  {
    if reqs != [] {
      var front, last := reqs[..|reqs| - 1], reqs[|reqs| - 1];
      KeysDoNotInterfere(p, front, key);
      if last.key == key {
        OwnStep(p, After(p, front), key, Times(front, key), last.time);
        AdmissionsSnoc(p, Times(front, key), last.time);
      } else {
        assert Times(reqs, key) == Times(front, key) && Verdicts(p, reqs, key) == Verdicts(p, front, key);
      }
    }
  }

  /** How many of the requests [j, k) were admitted. */
  function Count(d: seq<bool>, j: nat, k: nat): nat
    requires j <= k <= |d|
    decreases k
  {
    if j == k then 0 else Count(d, j, k - 1) + (if d[k - 1] then 1 else 0)
  }

  lemma {:induction false} CountSplit(d: seq<bool>, i: nat, j: nat, k: nat)
    requires i <= j <= k <= |d|
    ensures Count(d, i, k) == Count(d, i, j) + Count(d, j, k)
    decreases k
  {
    if j < k {
      CountSplit(d, i, j, k - 1);
    }
  }

  /** What the window from request `j` to request `k` leaves of the (burst, rate) envelope
      once the decisions before `k` are paid for. */
  function Room(p: Limits, times: seq<real>, d: seq<bool>, j: nat, k: nat): real
    requires j <= k < |times| && |d| == |times|
  {
    p.burst + (times[k] - times[j]) * p.rate - Count(d, j, k) as real
  }

  lemma {:induction false} RoomStep(p: Limits, times: seq<real>, d: seq<bool>, j: nat, k: nat)
    requires j < k < |times| && |d| == |times|
    ensures Room(p, times, d, j, k)
         == Room(p, times, d, j, k - 1) - (if d[k - 1] then 1.0 else 0.0) + (times[k] - times[k - 1]) * p.rate
  {
    var a, b := times[k - 1] - times[j], times[k] - times[k - 1];
    assert (a + b) * p.rate == a * p.rate + b * p.rate;
    assert times[k] - times[j] == a + b;
  }

  /** The closed form: the level is the least room over all windows ending at the request. */
  lemma {:induction false} LevelIsLeastRoom(p: Limits, times: seq<real>, k: nat)
    requires k < |times|
    ensures forall j :: 0 <= j <= k ==> LevelAt(p, times, k) <= Room(p, times, Admissions(p, times), j, k)
    ensures exists j :: 0 <= j <= k && LevelAt(p, times, k) == Room(p, times, Admissions(p, times), j, k)
  {
    var d := Admissions(p, times);
    assert Room(p, times, d, k, k) == p.burst;
    if k > 0 {
      LevelIsLeastRoom(p, times, k - 1);
      forall j | 0 <= j <= k ensures LevelAt(p, times, k) <= Room(p, times, d, j, k) {
        if j < k {
          RoomStep(p, times, d, j, k);
        }
      }
      if LevelAt(p, times, k) != p.burst {
        var j :| 0 <= j <= k - 1 && LevelAt(p, times, k - 1) == Room(p, times, d, j, k - 1);
        RoomStep(p, times, d, j, k);
      }
    }
  }

  /** Admitting request `k` would keep every window ending there within the envelope. */
  ghost predicate Fits(p: Limits, times: seq<real>, d: seq<bool>, k: nat)
    requires k < |times| && |d| == |times|
  {
    forall j :: 0 <= j <= k ==> Room(p, times, d, j, k) >= 1.0
  }

  /** A request after the first is denied exactly when admitting it would break the envelope
      of some window ending now. */
  lemma {:induction false} DeniedIffEnvelopeWouldBreak(p: Limits, times: seq<real>, k: nat)
    requires 0 < k < |times|
    ensures Admitted(p, times, k) <==> Fits(p, times, Admissions(p, times), k)
  {
    LevelIsLeastRoom(p, times, k);
    var d := Admissions(p, times);
    var j :| 0 <= j <= k && LevelAt(p, times, k) == Room(p, times, d, j, k);
  }

  /** Every admitted request fits the envelope. */
  ghost predicate WithinEnvelope(p: Limits, times: seq<real>, d: seq<bool>)
    requires |d| == |times|
  {
    forall k :: 0 <= k < |times| && d[k] ==> Fits(p, times, d, k)
  }

  /** The bucket keeps its envelope if and only if it can hold one token: the first request of
      a key is admitted without looking at the level. */
  lemma {:induction false} EnvelopeHoldsIff(p: Limits, times: seq<real>)
    requires times != []
    ensures WithinEnvelope(p, times, Admissions(p, times)) <==> p.burst >= 1.0
  {
    var d := Admissions(p, times);
    assert Room(p, times, d, 0, 0) == p.burst && d[0];
    if p.burst >= 1.0 {
      forall k | 0 <= k < |times| && d[k] ensures Fits(p, times, d, k) {
        if k > 0 {
          DeniedIffEnvelopeWouldBreak(p, times, k);
        }
      }
    } else {
      assert !Fits(p, times, d, 0);
    }
  }

  /** No other decisions within the envelope admit more, up to any point of the run. */
  lemma {:induction false} NoPolicyAdmitsMore(p: Limits, times: seq<real>, other: seq<bool>, k: nat)
    requires |other| == |times| && WithinEnvelope(p, times, other) && k <= |times|
    ensures Count(other, 0, k) <= Count(Admissions(p, times), 0, k)
    decreases k
  {
    if k > 0 {
      var d := Admissions(p, times);
      NoPolicyAdmitsMore(p, times, other, k - 1);
      if other[k - 1] && !d[k - 1] {
        DeniedIffEnvelopeWouldBreak(p, times, k - 1);
        var j :| 0 <= j <= k - 1 && Room(p, times, d, j, k - 1) < 1.0;
        assert Fits(p, times, other, k - 1);
        assert Room(p, times, other, j, k - 1) >= 1.0;
        NoPolicyAdmitsMore(p, times, other, j);
        CountSplit(d, 0, j, k - 1);
        CountSplit(other, 0, j, k - 1);
      }
    }
  }

  ghost predicate Monotone(times: seq<real>) {
    forall i, j :: 0 <= i <= j < |times| ==> times[i] <= times[j]
  }

  lemma {:induction false} Scale(a: real, b: real, r: real)
    requires a <= b && r >= 0.0
    ensures a * r <= b * r
    ensures 0.0 <= a ==> 0.0 <= a * r
  {
  }

  lemma {:induction false} EarnedNonNegative(p: Limits, dt: real)
    requires dt >= 0.0 && p.rate >= 0.0
    ensures Earned(p, dt) >= 0.0
  {
    Scale(dt, dt, p.rate);
  }

  /** With a clock that does not run backwards, levels stay between nothing and the burst. */
  lemma {:induction false} LevelInBounds(p: Limits, times: seq<real>, k: nat)
    requires p.burst >= 1.0 && p.rate >= 0.0 && Monotone(times) && k < |times|
    ensures 0.0 <= LevelAt(p, times, k) <= p.burst
    ensures 0.0 <= Left(p, times, k) <= p.burst
  {
    if k > 0 {
      LevelInBounds(p, times, k - 1);
      assert times[k - 1] <= times[k];
      EarnedNonNegative(p, times[k] - times[k - 1]);
    }
  }

  /** Whatever the requests, those of a key between times s and t are admitted at most
      burst + rate * (t - s) times. */
  lemma {:induction false} AdmittedInInterval(p: Limits, times: seq<real>, i: nat, k: nat, s: real, t: real)
    requires p.burst >= 1.0 && p.rate >= 0.0 && Monotone(times) && i <= k <= |times|
    requires s <= t && forall n :: i <= n < k ==> s <= times[n] <= t
    ensures Count(Admissions(p, times), i, k) as real <= p.burst + (t - s) * p.rate
    decreases k
  {
    Scale(t - s, t - s, p.rate);
    if i < k {
      var d := Admissions(p, times);
      if d[k - 1] {
        EnvelopeHoldsIff(p, times);
        assert Fits(p, times, d, k - 1);
        assert Room(p, times, d, i, k - 1) >= 1.0;
        Scale(times[k - 1] - times[i], t - s, p.rate);
      } else {
        AdmittedInInterval(p, times, i, k - 1, s, t);
      }
    }
  }
}

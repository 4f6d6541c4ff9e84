/** The fixed-window rate limiter (crates/bleep-auth/src/rate_limiter.rs). Times are integer
    instants of a clock that never runs backwards. */
module RateLimiter {
  import opened Encoding

  datatype Config = Config(maxRequests: nat, window: int)
  datatype Bucket = Bucket(count: nat, windowStart: int)
  datatype Answer = Allowed(remaining: nat) | Exceeded(retryAfter: int)

  type Buckets = map<string, Bucket>

  // ---------------------------------------------------------------------------
  // Bucket keys
  // ---------------------------------------------------------------------------

  function KeyOf(identity: string, action: string): string {
    identity + ":" + action
  }

  /** Buckets are per (identity, action) as long as action names contain no colon. */
  lemma KeysAreDistinct(i: string, a: string, j: string, b: string)
    requires ':' !in a && ':' !in b && KeyOf(i, a) == KeyOf(j, b)
    ensures i == j && a == b
  {
    var k := KeyOf(i, a);
    if |a| < |b| {
      ColonInside(i, a, j, b);
    } else if |b| < |a| {
      ColonInside(j, b, i, a);
    } else {
      assert k[..|i|] == i && k[|i| + 1..] == a && k[..|j|] == j && k[|j| + 1..] == b;
    }
  }

  lemma ColonInside(i: string, a: string, j: string, b: string)
    requires KeyOf(i, a) == KeyOf(j, b) && |a| < |b|
    ensures ':' in b
  {
    assert KeyOf(i, a)[|i|] == ':' && KeyOf(j, b)[|i|] == b[|i| - |j| - 1];
  }

  /** A colon inside an action always collides with the key of some other identity and action. */
  lemma ColonInActionCollides(i: string, a: string)
    requires ':' in a
    ensures exists j, b :: j != i && KeyOf(j, b) == KeyOf(i, a)
  {
    var k :| 0 <= k < |a| && a[k] == ':';
    var j, b := KeyOf(i, a[..k]), a[k + 1..];
    assert a == a[..k] + ":" + b;
    assert KeyOf(j, b) == KeyOf(i, a);
    assert j != i by { assert |j| > |i|; }
  }

  // ---------------------------------------------------------------------------
  // One bucket
  // ---------------------------------------------------------------------------

  predicate Expired(c: Config, b: Bucket, now: int) {
    now - b.windowStart >= c.window
  }

  /** The bucket a request at `now` is counted in: created when missing, reset when rolled over. */
  function Current(c: Config, b: Option<Bucket>, now: int): Bucket {
    if b.None? || Expired(c, b.value, now) then Bucket(0, now) else b.value
  }

  function Decide(c: Config, b: Option<Bucket>, now: int): (Bucket, Answer) {
    var cur := Current(c, b, now);
    if cur.count >= c.maxRequests
    then (cur, Exceeded(Max(1, TruncatedSeconds(cur.windowStart + c.window - now))))
    else (cur.(count := cur.count + 1), Allowed(c.maxRequests - cur.count - 1))
  }

  function Max(a: int, b: int): int {
    if a >= b then a else b
  }

  /** `num_seconds` of a duration in nanoseconds: truncation toward zero. */
  function TruncatedSeconds(d: int): int {
    if d >= 0 then d / 1_000_000_000 else -((-d) / 1_000_000_000)
  }

  function Get(m: Buckets, key: string): Option<Bucket> {
    if key in m then Some(m[key]) else None
  }

  // ---------------------------------------------------------------------------
  // The limiter
  // ---------------------------------------------------------------------------

  datatype Op = Check(key: string, now: int) | Purge(now: int)

  function Purged(c: Config, m: Buckets, now: int): Buckets {
    map k | k in m && !Expired(c, m[k], now) :: m[k]
  }

  function Apply(c: Config, m: Buckets, op: Op): Buckets {
    match op
    case Check(key, now) => m[key := Decide(c, Get(m, key), now).0]
    case Purge(now) => Purged(c, m, now)
  }

  class Limiter {
    const config: Config
    var buckets: Buckets

    constructor (config: Config)
      ensures this.config == config && buckets == map[]
    {
      this.config, buckets := config, map[];
    }

    method CheckAndRecord(identity: string, action: string, now: int) returns (answer: Answer)
      modifies this
      ensures buckets == Apply(config, old(buckets), Check(KeyOf(identity, action), now))
      ensures answer == Decide(config, Get(old(buckets), KeyOf(identity, action)), now).1
      ensures var key := identity + ":" + action;
              var live := key in old(buckets) && now - old(buckets)[key].windowStart < config.window;
              var used, start := if live then old(buckets)[key].count else 0,
                                 if live then old(buckets)[key].windowStart else now;
              if used < config.maxRequests
              then answer == Allowed(config.maxRequests - used - 1)
                   && buckets == old(buckets)[key := Bucket(used + 1, start)]
              else answer.Exceeded? && buckets == old(buckets)[key := Bucket(used, start)]
    {
      var key := KeyOf(identity, action);
      if key !in buckets {
        buckets := buckets[key := Bucket(0, now)];
      }
      if now - buckets[key].windowStart >= config.window {
        buckets := buckets[key := Bucket(0, now)];
      }
      var entry := buckets[key];
      if entry.count >= config.maxRequests {
        return Exceeded(Max(TruncatedSeconds(entry.windowStart + config.window - now), 1));
      }
      buckets := buckets[key := entry.(count := entry.count + 1)];
      answer := Allowed(config.maxRequests - (entry.count + 1));
    }

    /** What is reported as remaining is exactly how many more calls succeed at this instant. */
    method Remaining(identity: string, action: string, now: int) returns (r: nat)
      ensures config.window > 0 ==>
                forall n: nat :: AdmittedInBurst(config, Get(buckets, KeyOf(identity, action)), now, n)
                                 == if n <= r then n else r
    {
      var key := KeyOf(identity, action);
      if key !in buckets {
        r := config.maxRequests;
      } else {
        var b := buckets[key];
        if now - b.windowStart >= config.window {
          r := config.maxRequests;
        } else {
          r := if b.count <= config.maxRequests then config.maxRequests - b.count else 0;
        }
      }
      if config.window > 0 {
        forall n: nat
          ensures AdmittedInBurst(config, Get(buckets, key), now, n) == if n <= r then n else r
        {
          BurstSize(config, Get(buckets, key), now, n);
        }
      }
    }

    method PurgeExpired(now: int)
      modifies this
      ensures buckets == Apply(config, old(buckets), Purge(now))
      ensures forall k :: k in buckets <==> k in old(buckets) && now - old(buckets)[k].windowStart < config.window
      ensures forall k | k in buckets :: buckets[k] == old(buckets)[k]
    {
      buckets := map k | k in buckets && now - buckets[k].windowStart < config.window :: buckets[k];
    }
  }

  /** How many of `n` calls made at one instant are admitted. */
  function AdmittedInBurst(c: Config, b: Option<Bucket>, now: int, n: nat): nat
    decreases n
  {
    if n == 0 then 0
    else
      var (b', answer) := Decide(c, b, now);
      AdmittedInBurst(c, Some(b'), now, n - 1) + if answer.Allowed? then 1 else 0
  }

  function Left(c: Config, b: Option<Bucket>, now: int): nat {
    var cur := Current(c, b, now);
    if cur.count <= c.maxRequests then c.maxRequests - cur.count else 0
  }

  lemma {:induction false} BurstSize(c: Config, b: Option<Bucket>, now: int, n: nat)
    requires c.window > 0
    ensures AdmittedInBurst(c, b, now, n) == if n <= Left(c, b, now) then n else Left(c, b, now)
    decreases n
  {
    if n > 0 {
      var (b', answer) := Decide(c, b, now);
      BurstSize(c, Some(b'), now, n - 1);
    }
  }

  /** What the numbers in an answer mean. After `Allowed(r)` exactly `r` more calls succeed at the same
      instant. After `Exceeded(w)` calls are refused until the window ends and, if anything is ever
      allowed, admitted from then on; the end is less than w + 1 seconds away, and at least w unless w
      is the least wait of one second. */
  lemma AnswerMeans(c: Config, b: Option<Bucket>, now: int)
    requires c.window > 0
    ensures var (after, answer) := Decide(c, b, now); var end := after.windowStart + c.window;
            match answer
            case Allowed(r) => forall n: nat :: AdmittedInBurst(c, Some(after), now, n) == if n <= r then n else r
            case Exceeded(w) =>
              && (forall t | now <= t < end :: Decide(c, Some(after), t).1.Exceeded?)
              && (forall t | t >= end :: Decide(c, Some(after), t).1.Allowed? <==> c.maxRequests > 0)
              && w >= 1 && end - now < (w + 1) * 1_000_000_000 && (w > 1 ==> w * 1_000_000_000 <= end - now)
  {
    var (after, answer) := Decide(c, b, now);
    if answer.Allowed? {
      forall n: nat
        ensures AdmittedInBurst(c, Some(after), now, n) == if n <= answer.remaining then n else answer.remaining
      {
        BurstSize(c, Some(after), now, n);
      }
    }
  }

  // ---------------------------------------------------------------------------
  // The sliding bound
  // ---------------------------------------------------------------------------

  predicate Monotone(ops: seq<Op>) {
    forall i, j | 0 <= i < j < |ops| :: ops[i].now <= ops[j].now
  }

  function RunFrom(c: Config, m: Buckets, ops: seq<Op>): Buckets {
    if ops == [] then m else Apply(c, RunFrom(c, m, ops[..|ops| - 1]), ops[|ops| - 1])
  }

  /** An admitted call: when it happened and the window it was counted in. */
  datatype Admission = Admission(start: int, time: int)

  function Outcome(c: Config, m: Buckets, key: string, op: Op): seq<Admission> {
    if op.Check? && op.key == key && Decide(c, Get(m, key), op.now).1.Allowed?
    then [Admission(Current(c, Get(m, key), op.now).windowStart, op.now)] else []
  }

  /** The calls for `key` admitted during a run from an empty limiter. */
  function Admitted(c: Config, ops: seq<Op>, key: string): seq<Admission> {
    if ops == [] then []
    else
      var n := |ops| - 1;
      Admitted(c, ops[..n], key) + Outcome(c, RunFrom(c, map[], ops[..n]), key, ops[n])
  }

  function CountIn(h: seq<Admission>, lo: int, hi: int): nat {
    if h == [] then 0
    else CountIn(h[..|h| - 1], lo, hi) + if lo <= h[|h| - 1].time < hi then 1 else 0
  }

  /** Admissions counted in the window starting at `start`. */
  function CountOf(h: seq<Admission>, start: int): nat {
    if h == [] then 0
    else CountOf(h[..|h| - 1], start) + if h[|h| - 1].start == start then 1 else 0
  }

  /** Those of them made at the very instant the window opened. */
  function CountAt(h: seq<Admission>, start: int): nat {
    if h == [] then 0
    else CountAt(h[..|h| - 1], start) + if h[|h| - 1] == Admission(start, start) then 1 else 0
  }

  /** What any history of admissions satisfies: windows do not overlap, none admits more than the
      limit, and each was opened by its own first admission. */
  ghost predicate Windowed(c: Config, h: seq<Admission>) {
    && (forall a | a in h :: a.start <= a.time < a.start + c.window)
    && (forall a, b | a in h && b in h && a.start < b.start :: a.start + c.window <= b.start)
    && (forall s :: CountOf(h, s) <= c.maxRequests)
    && (forall s :: CountOf(h, s) > 0 ==> CountAt(h, s) > 0)
  }

  /** How the live bucket relates to the history at time `now`. */
  ghost predicate Tracks(c: Config, b: Option<Bucket>, h: seq<Admission>, now: int) {
    match b
    case None => forall a | a in h :: a.start + c.window <= now
    case Some(b) =>
      && b.windowStart <= now && b.count == CountOf(h, b.windowStart)
      && forall a | a in h :: a.start == b.windowStart || a.start + c.window <= b.windowStart
  }

  lemma TracksLater(c: Config, b: Option<Bucket>, h: seq<Admission>, now: int, later: int)
    requires Tracks(c, b, h, now) && now <= later
    ensures Tracks(c, b, h, later)
  {
  }

  lemma {:induction false} CountOfFresh(h: seq<Admission>, start: int)
    requires forall a | a in h :: a.start != start
    ensures CountOf(h, start) == 0
  {
    if h != [] { CountOfFresh(h[..|h| - 1], start); }
  }

  /** The bucket after rollover still describes the history. */
  lemma CurrentTracks(c: Config, b: Option<Bucket>, h: seq<Admission>, now: int)
    requires c.window > 0 && Tracks(c, b, h, now)
    ensures Tracks(c, Some(Current(c, b, now)), h, now) && !Expired(c, Current(c, b, now), now)
  {
    if b.None? || Expired(c, b.value, now) {
      CountOfFresh(h, now);
    }
  }

  lemma AdmitWindowed(c: Config, h: seq<Admission>, cur: Bucket, now: int)
    requires c.window > 0 && Windowed(c, h) && Tracks(c, Some(cur), h, now)
    requires !Expired(c, cur, now) && cur.count < c.maxRequests
    requires cur.count == 0 ==> cur.windowStart == now
    ensures var h' := h + [Admission(cur.windowStart, now)];
            Windowed(c, h') && Tracks(c, Some(cur.(count := cur.count + 1)), h', now)
  {
    var h' := h + [Admission(cur.windowStart, now)];
    assert h'[..|h'| - 1] == h;
    forall s
      ensures CountOf(h', s) <= c.maxRequests
      ensures CountOf(h', s) > 0 ==> CountAt(h', s) > 0
    {
      assert CountOf(h, s) > 0 ==> CountAt(h, s) > 0;
      assert CountOf(h, s) <= c.maxRequests;
    }
  }

  /** A bucket that has admitted nothing yet was opened just now, unless nothing is ever admitted. */
  ghost predicate Opened(c: Config, b: Option<Bucket>) {
    b.Some? && b.value.count == 0 ==> c.maxRequests == 0
  }

  ghost predicate Inv(c: Config, m: Buckets, key: string, h: seq<Admission>, now: int) {
    Windowed(c, h) && Tracks(c, Get(m, key), h, now) && Opened(c, Get(m, key))
  }

  lemma StepInv(c: Config, m: Buckets, key: string, h: seq<Admission>, op: Op, now: int)
    requires c.window > 0 && Inv(c, m, key, h, now) && now <= op.now
    ensures Inv(c, Apply(c, m, op), key, h + Outcome(c, m, key, op), op.now)
  {
    hide Windowed, Tracks;
    var b, t := Get(m, key), op.now;
    TracksLater(c, b, h, now, t);
    if op.Purge? {
      if b.Some? && Expired(c, b.value, t) { DeadTracks(c, b, h, t); }
      assert h + [] == h;
    } else if op.key == key {
      var cur := Current(c, b, t);
      CurrentTracks(c, b, h, t);
      if cur.count < c.maxRequests {
        AdmitWindowed(c, h, cur, t);
      } else {
        assert h + [] == h;
      }
    } else {
      assert h + [] == h;
    }
  }

  lemma DeadTracks(c: Config, b: Option<Bucket>, h: seq<Admission>, now: int)
    requires Tracks(c, b, h, now) && b.Some? && Expired(c, b.value, now) && c.window > 0
    ensures Tracks(c, None, h, now)
  {
  }

  lemma {:induction false} RunInv(c: Config, ops: seq<Op>, key: string, now: int)
    requires c.window > 0 && Monotone(ops) && forall op | op in ops :: op.now <= now
    ensures Inv(c, RunFrom(c, map[], ops), key, Admitted(c, ops, key), now)
  {
    if ops != [] {
      var n := |ops| - 1;
      RunInv(c, ops[..n], key, ops[n].now);
      StepInv(c, RunFrom(c, map[], ops[..n]), key, Admitted(c, ops[..n], key), ops[n], ops[n].now);
      TracksLater(c, Get(RunFrom(c, map[], ops), key), Admitted(c, ops, key), ops[n].now, now);
    }
  }

  lemma {:induction false} CountOneWindow(h: seq<Admission>, lo: int, hi: int, s: int)
    requires forall a | a in h && lo <= a.time < hi :: a.start == s
    ensures CountIn(h, lo, hi) <= CountOf(h, s)
  {
    if h != [] {
      CountOneWindow(h[..|h| - 1], lo, hi, s);
      assert h[|h| - 1] in h;
    }
  }

  lemma {:induction false} CountTwoWindows(h: seq<Admission>, lo: int, hi: int, s1: int, s2: int)
    requires s1 != s2 && s1 < lo
    requires forall a | a in h && lo <= a.time < hi :: a.start == s1 || a.start == s2
    ensures CountIn(h, lo, hi) + CountAt(h, s1) <= CountOf(h, s1) + CountOf(h, s2)
  {
    if h != [] {
      CountTwoWindows(h[..|h| - 1], lo, hi, s1, s2);
      assert h[|h| - 1] in h;
    }
  }

  lemma {:induction false} CountOfPositive(h: seq<Admission>, a: Admission)
    requires a in h
    ensures CountOf(h, a.start) > 0
  {
    if h[|h| - 1] != a { CountOfPositive(h[..|h| - 1], a); }
  }

  lemma {:induction false} CountInWitness(h: seq<Admission>, lo: int, hi: int)
    requires CountIn(h, lo, hi) > 0
    ensures exists a :: a in h && lo <= a.time < hi
  {
    if !(lo <= h[|h| - 1].time < hi) {
      CountInWitness(h[..|h| - 1], lo, hi);
      var a :| a in h[..|h| - 1] && lo <= a.time < hi;
      assert a in h;
    } else {
      assert h[|h| - 1] in h;
    }
  }

  lemma AtMostTwoWindows(c: Config, h: seq<Admission>, lo: int, p: Admission, q: Admission, r: Admission)
    requires c.window > 0 && Windowed(c, h) && p in h && q in h && r in h
    requires lo <= p.time && q.time < lo + c.window && lo <= r.time < lo + c.window
    requires p.start < q.start
    ensures r.start == p.start || r.start == q.start
    ensures p.start < lo
  {
  }

  /** One window length meets at most two windows, and misses the opening call of the first. */
  lemma WindowedBound(c: Config, h: seq<Admission>, lo: int)
    requires c.window > 0 && Windowed(c, h)
    ensures CountIn(h, lo, lo + c.window) <= if c.maxRequests == 0 then 0 else 2 * c.maxRequests - 1
  {
    var hi := lo + c.window;
    if CountIn(h, lo, hi) > 0 {
      CountInWitness(h, lo, hi);
      var a :| a in h && lo <= a.time < hi;
      if b :| b in h && lo <= b.time < hi && b.start != a.start {
        if a.start < b.start { TwoWindowBound(c, h, lo, a, b); } else { TwoWindowBound(c, h, lo, b, a); }
      } else {
        CountOfPositive(h, a);
        CountOneWindow(h, lo, hi, a.start);
      }
    }
  }

  lemma TwoWindowBound(c: Config, h: seq<Admission>, lo: int, p: Admission, q: Admission)
    requires c.window > 0 && Windowed(c, h) && p in h && q in h && p.start < q.start
    requires lo <= p.time < lo + c.window && lo <= q.time < lo + c.window
    ensures CountIn(h, lo, lo + c.window) < 2 * c.maxRequests
  {
    forall r | r in h && lo <= r.time < lo + c.window
      ensures r.start == p.start || r.start == q.start
    {
      AtMostTwoWindows(c, h, lo, p, q, r);
    }
    AtMostTwoWindows(c, h, lo, p, q, p);
    CountOfPositive(h, p);
    CountTwoWindows(h, lo, lo + c.window, p.start, q.start);
  }

  /** Over any run of checks and purges, no half-open interval of one window length sees more than
      2 * max - 1 admitted calls for one key. */
  lemma SlidingBound(c: Config, ops: seq<Op>, key: string, lo: int)
    requires Monotone(ops)
    ensures CountIn(Admitted(c, ops, key), lo, lo + c.window)
            <= if c.maxRequests == 0 then 0 else 2 * c.maxRequests - 1
  {
    var h := Admitted(c, ops, key);
    if c.window > 0 {
      RunInv(c, ops, key, if ops == [] then 0 else ops[|ops| - 1].now);
      WindowedBound(c, h, lo);
    } else if CountIn(h, lo, lo + c.window) > 0 {
      CountInWitness(h, lo, lo + c.window);
    }
  }

  // ---------------------------------------------------------------------------
  // The bound is reached
  // ---------------------------------------------------------------------------

  function Burst(key: string, now: int, n: nat): seq<Op> {
    if n == 0 then [] else Burst(key, now, n - 1) + [Check(key, now)]
  }

  /** The bucket that a call for `key` at `now` would be counted in after the run `ops`. */
  function Live(c: Config, ops: seq<Op>, key: string, now: int): Bucket {
    Current(c, Get(RunFrom(c, map[], ops), key), now)
  }

  lemma CheckOne(c: Config, ops: seq<Op>, key: string, now: int, lo: int, hi: int)
    requires c.window > 0 && lo <= now < hi
    requires Live(c, ops, key, now).count < c.maxRequests
    ensures var ops', cur := ops + [Check(key, now)], Live(c, ops, key, now);
            && CountIn(Admitted(c, ops', key), lo, hi) == CountIn(Admitted(c, ops, key), lo, hi) + 1
            && Get(RunFrom(c, map[], ops'), key) == Some(cur.(count := cur.count + 1))
            && Live(c, ops', key, now) == cur.(count := cur.count + 1)
  {
    hide RunFrom, Admitted, CountIn;
    var a := Admission(Live(c, ops, key, now).windowStart, now);
    OneMore(c, ops, Check(key, now), key);
    CountInSnoc(Admitted(c, ops, key), a, lo, hi);
  }

  lemma OneMore(c: Config, ops: seq<Op>, op: Op, key: string)
    ensures RunFrom(c, map[], ops + [op]) == Apply(c, RunFrom(c, map[], ops), op)
    ensures Admitted(c, ops + [op], key)
            == Admitted(c, ops, key) + Outcome(c, RunFrom(c, map[], ops), key, op)
  {
  }

  lemma CountInSnoc(h: seq<Admission>, a: Admission, lo: int, hi: int)
    ensures CountIn(h + [a], lo, hi) == CountIn(h, lo, hi) + if lo <= a.time < hi then 1 else 0
  {
  }

  lemma {:induction false} BurstRun(c: Config, ops: seq<Op>, key: string, now: int, n: nat, lo: int, hi: int)
    returns (after: seq<Op>)
    requires c.window > 0 && lo <= now < hi
    requires Live(c, ops, key, now).count + n <= c.maxRequests
    ensures after == ops + Burst(key, now, n)
    ensures CountIn(Admitted(c, after, key), lo, hi) == CountIn(Admitted(c, ops, key), lo, hi) + n
    ensures Live(c, after, key, now).count == Live(c, ops, key, now).count + n
    ensures Live(c, after, key, now).windowStart == Live(c, ops, key, now).windowStart
  {
    hide RunFrom, Admitted, CountIn, Live;
    if n == 0 {
      after := ops;
    } else {
      var before := BurstRun(c, ops, key, now, n - 1, lo, hi);
      after := before + [Check(key, now)];
      CheckOne(c, before, key, now, lo, hi);
      BurstSnoc(ops, key, now, n);
    }
  }

  lemma BurstSnoc(ops: seq<Op>, key: string, now: int, n: nat)
    requires n > 0
    ensures ops + Burst(key, now, n) == ops + Burst(key, now, n - 1) + [Check(key, now)]
  {
  }

  lemma {:induction false} BurstTimes(key: string, now: int, n: nat)
    ensures |Burst(key, now, n)| == n && forall i | 0 <= i < n :: Burst(key, now, n)[i] == Check(key, now)
  {
    if n > 0 { BurstTimes(key, now, n - 1); }
  }

  /** The bound cannot be lowered: for every limit and every window of at least two instants a run
      admits 2 * max - 1 calls within one window length. */
  lemma BoundIsReached(c: Config, key: string) returns (ops: seq<Op>, lo: int)
    requires c.maxRequests > 0 && c.window >= 2
    ensures Monotone(ops)
    ensures CountIn(Admitted(c, ops, key), lo, lo + c.window) == 2 * c.maxRequests - 1
  {
    hide RunFrom, Admitted, CountIn;
    var w, m := c.window, c.maxRequests;
    lo := w - 1;
    OpeningCall(c, key, lo, lo + w);
    var late := BurstRun(c, [Check(key, 0)], key, w - 1, m - 1, lo, lo + w);
    RolledOver(c, late, key, 0, w - 1);
    ops := BurstRun(c, late, key, w, m, lo, lo + w);
    TwoBurstsMonotone(key, w, m - 1, m);
  }

  lemma RolledOver(c: Config, ops: seq<Op>, key: string, start: int, now: int)
    requires c.window > 0 && Live(c, ops, key, now).windowStart == start < now
    ensures Live(c, ops, key, start + c.window).count == 0
  {
  }

  lemma TwoBurstsMonotone(key: string, w: int, m: nat, n: nat)
    requires w >= 2
    ensures Monotone([Check(key, 0)] + Burst(key, w - 1, m) + Burst(key, w, n))
  {
    var ops := [Check(key, 0)] + Burst(key, w - 1, m) + Burst(key, w, n);
    BurstTimes(key, w - 1, m);
    BurstTimes(key, w, n);
    forall i | 0 <= i < |ops|
      ensures ops[i].now == if i == 0 then 0 else if i <= m then w - 1 else w
    {
      if 0 < i <= m {
        assert ops[i] == Burst(key, w - 1, m)[i - 1];
      } else if m < i {
        assert ops[i] == Burst(key, w, n)[i - 1 - m];
      }
    }
  }

  lemma OpeningCall(c: Config, key: string, lo: int, hi: int)
    requires c.maxRequests > 0 && c.window >= 2 && 0 < lo
    ensures CountIn(Admitted(c, [Check(key, 0)], key), lo, hi) == 0
    ensures Get(RunFrom(c, map[], [Check(key, 0)]), key) == Some(Bucket(1, 0))
  {
  }

  // ---------------------------------------------------------------------------
  // Purging
  // ---------------------------------------------------------------------------

  /** Two limiters that differ only in buckets that have already expired. */
  ghost predicate SameLive(c: Config, m: Buckets, m': Buckets, now: int) {
    forall key :: Get(m, key) == Get(m', key)
                  || (Dead(c, Get(m, key), now) && Dead(c, Get(m', key), now))
  }

  predicate Dead(c: Config, b: Option<Bucket>, now: int) {
    b.None? || Expired(c, b.value, now)
  }

  function Answers(c: Config, m: Buckets, ops: seq<Op>): seq<Answer>
    decreases |ops|
  {
    if ops == [] then []
    else (if ops[0].Check? then [Decide(c, Get(m, ops[0].key), ops[0].now).1] else [])
         + Answers(c, Apply(c, m, ops[0]), ops[1..])
  }

  lemma SameLiveStep(c: Config, m: Buckets, m': Buckets, now: int, op: Op)
    requires SameLive(c, m, m', now) && now <= op.now
    ensures SameLive(c, Apply(c, m, op), Apply(c, m', op), op.now)
    ensures op.Check? ==> Decide(c, Get(m, op.key), op.now) == Decide(c, Get(m', op.key), op.now)
  {
    forall key
      ensures var r, r' := Get(Apply(c, m, op), key), Get(Apply(c, m', op), key);
              r == r' || (Dead(c, r, op.now) && Dead(c, r', op.now))
    {
      assert Get(m, key) == Get(m', key) || (Dead(c, Get(m, key), now) && Dead(c, Get(m', key), now));
    }
    if op.Check? {
      assert Get(m, op.key) == Get(m', op.key)
          || (Dead(c, Get(m, op.key), now) && Dead(c, Get(m', op.key), now));
    }
  }

  lemma {:induction false} SameLiveAnswers(c: Config, m: Buckets, m': Buckets, now: int, ops: seq<Op>)
    requires SameLive(c, m, m', now) && Monotone(ops) && (ops != [] ==> now <= ops[0].now)
    ensures Answers(c, m, ops) == Answers(c, m', ops)
    decreases |ops|
  {
    if ops != [] {
      SameLiveStep(c, m, m', now, ops[0]);
      SameLiveAnswers(c, Apply(c, m, ops[0]), Apply(c, m', ops[0]), ops[0].now, ops[1..]);
    }
  }

  /** Purging is invisible: no later sequence of calls and purges gets a different answer. */
  lemma PurgeIsInvisible(c: Config, m: Buckets, now: int, ops: seq<Op>)
    requires Monotone(ops) && (ops != [] ==> now <= ops[0].now)
    ensures Answers(c, Purged(c, m, now), ops) == Answers(c, m, ops)
  {
    forall key
      ensures Get(m, key) == Get(Purged(c, m, now), key)
              || (Dead(c, Get(m, key), now) && Dead(c, Get(Purged(c, m, now), key), now))
    {
    }
    SameLiveAnswers(c, m, Purged(c, m, now), now, ops);
  }
}

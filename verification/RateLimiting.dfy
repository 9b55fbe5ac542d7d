/** The API's per-IP token bucket (src/ratelimit.rs). `RateLimiter` is the mutable
    object; `AllowStep` and `SweepStep` are what its two locked operations do to
    the bucket map, and runs of them in any interleaving are what is proved about.
    Tokens and seconds are exact reals. */
module RateLimiting {
  type U32 = n: nat | n < 0x1_0000_0000
  type U64 = n: nat | n < 0x1_0000_0000_0000_0000

  datatype IpAddr = V4(bits: U32) | V6(high: U64, low: U64)

  datatype Bucket = Bucket(tokens: real, lastRefill: real)

  type Buckets = map<IpAddr, Bucket>

  const SWEEP_SIZE := 10_000
  const SWEEP_AGE := 3600.0

  /** What the constructor fixes. */
  datatype Limits = Limits(rps: U32, requested: U32) {
    /** `burst.max(1)` */
    function Burst(): real { if requested == 0 then 1.0 else requested as real }

    /** The tokens earned in `elapsed` seconds, before the cap. */
    function Earned(elapsed: real): real { elapsed * (rps as real) }
  }

  function Min(a: real, b: real): real { if a < b then a else b }

  /** `Instant::duration_since`, which saturates at zero. */
  function Elapsed(now: real, since: real): (e: real)
    ensures e >= 0.0 && since + e >= now && (e == 0.0 || since + e == now)
  {
    if now < since then 0.0 else now - since
  }

  function Refill(l: Limits, b: Bucket, now: real): real {
    Min(b.tokens + l.Earned(Elapsed(now, b.lastRefill)), l.Burst())
  }

  /** The tokens a request from `ip` would find at `now`. */
  function Available(l: Limits, buckets: Buckets, ip: IpAddr, now: real): real {
    if ip in buckets then Refill(l, buckets[ip], now) else l.Burst()
  }

  function AllowStep(l: Limits, buckets: Buckets, ip: IpAddr, now: real): (Buckets, bool) {
    var bucket := if ip in buckets then buckets[ip] else Bucket(l.Burst(), now);
    var tokens := Refill(l, bucket, now);
    if tokens >= 1.0 then (buckets[ip := Bucket(tokens - 1.0, now)], true)
    else (buckets[ip := Bucket(tokens, now)], false)
  }

  function SweepStep(buckets: Buckets, now: real): Buckets {
    if |buckets| < SWEEP_SIZE then buckets
    else map ip | ip in buckets && Elapsed(now, buckets[ip].lastRefill) < SWEEP_AGE :: buckets[ip]
  }

  datatype Response = Served | TooManyRequests

  class RateLimiter {
    const limits: Limits
    var buckets: Buckets

    constructor (rps: U32, burst: U32)
      ensures limits == Limits(rps, burst) && buckets == map[]
    {
      limits := Limits(rps, burst);
      buckets := map[];
    }

    predicate Enabled() { limits.rps > 0 }

    method Allow(ip: IpAddr, now: real) returns (allowed: bool)
      modifies this`buckets
      ensures (buckets, allowed) == AllowStep(limits, old(buckets), ip, now)
    {
      if ip !in buckets {
        buckets := buckets[ip := Bucket(limits.Burst(), now)];
      }
      var bucket := buckets[ip];
      var tokens := Refill(limits, bucket, now);
      bucket := Bucket(tokens, now);
      allowed := bucket.tokens >= 1.0;
      if allowed {
        bucket := bucket.(tokens := bucket.tokens - 1.0);
      }
      buckets := buckets[ip := bucket];
      assert buckets == AllowStep(limits, old(buckets), ip, now).0;
    }

    method SweepIfLarge(now: real)
      modifies this`buckets
      ensures buckets == SweepStep(old(buckets), now)
    {
      if |buckets| < SWEEP_SIZE {
        return;
      }
      buckets := map ip | ip in buckets && Elapsed(now, buckets[ip].lastRefill) < SWEEP_AGE :: buckets[ip];
    }

    /** One API request: a disabled limiter is bypassed, else sweep and ask. */
    method Enforce(ip: IpAddr, sweptAt: real, now: real) returns (r: Response)
      modifies this`buckets
      ensures limits.rps == 0 ==> r == Served && buckets == old(buckets)
      ensures limits.rps > 0 ==>
                var (after, allowed) := AllowStep(limits, SweepStep(old(buckets), sweptAt), ip, now);
                buckets == after && r == if allowed then Served else TooManyRequests
    {
      if !Enabled() {
        return Served;
      }
      SweepIfLarge(sweptAt);
      var allowed := Allow(ip, now);
      r := if allowed then Served else TooManyRequests;
    }

    /** API requests, one after another, on a new limiter. Without a rate none is ever
        refused; with one, each is answered as in the run of its sweeps and asks. */
    method EnforceAll(calls: seq<Call>) returns (responses: seq<Response>)
      requires buckets == map[]
      modifies this`buckets
      ensures |responses| == |calls|
      ensures limits.rps == 0 ==> forall n :: 0 <= n < |calls| ==> responses[n] == Served
      ensures limits.rps > 0 ==> forall n: nat :: n < |calls| ==>
                responses[n]
                == if Grants(limits, true, Serial(calls), 2 * n + 1, calls[n].ip) then Served else TooManyRequests
    {
      hide AllowStep, SweepStep, Serial;
      responses := [];
      for n := 0 to |calls|
        invariant |responses| == n
        invariant limits.rps == 0 ==> forall i :: 0 <= i < n ==> responses[i] == Served
        invariant limits.rps > 0 ==> buckets == After(limits, true, Serial(calls), 2 * n)
        invariant limits.rps > 0 ==> forall i: nat :: i < n ==>
                    responses[i]
                    == if Grants(limits, true, Serial(calls), 2 * i + 1, calls[i].ip) then Served else TooManyRequests
      {
        SerialAt(calls, n);
        var r := Enforce(calls[n].ip, calls[n].swept, calls[n].asked);
        responses := responses + [r];
      }
    }
  }

  // ---- runs ----

  /** One locked operation on the shared map. Requests of many clients, each a
      sweep followed by an ask, may interleave arbitrarily. */
  datatype Event = Request(ip: IpAddr, time: real) | Sweep(time: real)

  ghost predicate Timed(run: seq<Event>) {
    forall i, j :: 0 <= i <= j < |run| ==> run[i].time <= run[j].time
  }

  /** The bucket map after the first `n` operations of a run on a new limiter.
      With `sweeping` off, sweeps do nothing: no bucket is ever dropped. */
  function After(l: Limits, sweeping: bool, run: seq<Event>, n: nat): Buckets
    requires n <= |run|
  {
    if n == 0 then map[]
    else
      var before := After(l, sweeping, run, n - 1);
      match run[n - 1]
      case Request(ip, time) => AllowStep(l, before, ip, time).0
      case Sweep(time) => if sweeping then SweepStep(before, time) else before
  }

  /** Operation `n` is a request by `ip`. */
  predicate Asks(run: seq<Event>, n: nat, ip: IpAddr)
    requires n < |run|
  {
    run[n].Request? && run[n].ip == ip
  }

  /** Operation `n` is a request by `ip`, and it is granted. */
  predicate Grants(l: Limits, sweeping: bool, run: seq<Event>, n: nat, ip: IpAddr)
    requires n < |run|
  {
    Asks(run, n, ip) && AllowStep(l, After(l, sweeping, run, n), ip, run[n].time).1
  }

  /** Requests granted to `ip` among operations `i` to `j - 1`. */
  function Granted(l: Limits, sweeping: bool, run: seq<Event>, ip: IpAddr, i: nat, j: nat): nat
    requires i <= j <= |run|
    decreases j
  {
    if i == j then 0
    else Granted(l, sweeping, run, ip, i, j - 1) + if Grants(l, sweeping, run, j - 1, ip) then 1 else 0
  }

  /** Requests made by `ip` among operations `i` to `j - 1`. */
  function Asked(run: seq<Event>, ip: IpAddr, i: nat, j: nat): nat
    requires i <= j <= |run|
    decreases j
  {
    if i == j then 0 else Asked(run, ip, i, j - 1) + if Asks(run, j - 1, ip) then 1 else 0
  }

  /** A bucket old enough to be swept has had time to refill. */
  predicate RefillsWithinAge(l: Limits) {
    (if l.requested > 1 then l.requested else 1) <= 3600 * l.rps
  }

  lemma RefillsInTokens(l: Limits)
    ensures RefillsWithinAge(l) <==> l.Burst() <= l.Earned(SWEEP_AGE)
  {
  }

  ghost predicate WellFormed(l: Limits, buckets: Buckets, now: real) {
    forall ip :: ip in buckets ==> 0.0 <= buckets[ip].tokens <= l.Burst() && buckets[ip].lastRefill <= now
  }

  lemma ProductNonNegative(a: real, b: real)
    requires a >= 0.0 && b >= 0.0
    ensures a * b >= 0.0
  {
  }

  lemma EarnedAdds(l: Limits, a: real, b: real)
    requires a >= 0.0 && b >= 0.0
    ensures l.Earned(a + b) == l.Earned(a) + l.Earned(b) && l.Earned(a) >= 0.0 && l.Earned(0.0) == 0.0
  {
    ProductNonNegative(a, l.rps as real);
  }

  /** Just touched, a bucket holds what it stores. */
  lemma RefillNow(l: Limits, b: Bucket)
    requires b.tokens <= l.Burst()
    ensures Refill(l, b, b.lastRefill) == b.tokens
  {
  }

  lemma RefillRange(l: Limits, b: Bucket, now: real)
    requires 0.0 <= b.tokens <= l.Burst()
    ensures b.tokens <= Refill(l, b, now) <= l.Burst()
  {
    EarnedAdds(l, Elapsed(now, b.lastRefill), 0.0);
  }

  /** A grant costs exactly one token, a denial none; nobody else's tokens move. */
  lemma AllowAvailable(l: Limits, buckets: Buckets, ip: IpAddr, now: real, other: IpAddr)
    requires WellFormed(l, buckets, now)
    ensures var (after, granted) := AllowStep(l, buckets, ip, now);
            && WellFormed(l, after, now)
            && granted == (Available(l, buckets, ip, now) >= 1.0)
            && Available(l, after, other, now)
               == Available(l, buckets, other, now) - if granted && other == ip then 1.0 else 0.0
  {
    hide Refill;
    var bucket := if ip in buckets then buckets[ip] else Bucket(l.Burst(), now);
    RefillRange(l, bucket, now);
    RefillNow(l, bucket);
    var after := AllowStep(l, buckets, ip, now).0;
    RefillNow(l, after[ip]);
  }

  /** A sweep never takes tokens away: where it shows at all, it refills a bucket
      outright, and it never shows when buckets refill within the sweep age. */
  lemma SweepAvailable(l: Limits, buckets: Buckets, now: real, ip: IpAddr)
    requires WellFormed(l, buckets, now)
    ensures WellFormed(l, SweepStep(buckets, now), now)
    ensures var (before, after) := (Available(l, buckets, ip, now), Available(l, SweepStep(buckets, now), ip, now));
            && (after == before || after == l.Burst())
            && (RefillsWithinAge(l) ==> after == before)
  {
    RefillsInTokens(l);
    if ip in buckets && ip !in SweepStep(buckets, now) {
      var e := Elapsed(now, buckets[ip].lastRefill);
      assert e >= SWEEP_AGE;
      EarnedAdds(l, SWEEP_AGE, e - SWEEP_AGE);
      EarnedAdds(l, e - SWEEP_AGE, 0.0);
    }
  }

  /** Waiting only refills, at the configured rate, up to the burst. */
  lemma Waiting(l: Limits, buckets: Buckets, ip: IpAddr, since: real, now: real)
    requires WellFormed(l, buckets, since) && since <= now
    ensures Available(l, buckets, ip, now) == Min(Available(l, buckets, ip, since) + l.Earned(now - since), l.Burst())
    ensures 0.0 <= Available(l, buckets, ip, now) <= l.Burst()
  {
    EarnedAdds(l, now - since, 0.0);
    if ip in buckets {
      var b := buckets[ip];
      EarnedAdds(l, since - b.lastRefill, now - since);
      RefillRange(l, b, now);
    }
  }

  lemma {:induction false} RunKeeps(l: Limits, sweeping: bool, run: seq<Event>, n: nat, now: real)
    requires Timed(run) && n <= |run| && (n > 0 ==> run[n - 1].time <= now)
    ensures WellFormed(l, After(l, sweeping, run, n), now)
  {
    hide AllowStep, SweepStep;
    if n > 0 {
      var op, before := run[n - 1], After(l, sweeping, run, n - 1);
      RunKeeps(l, sweeping, run, n - 1, op.time);
      match op
      case Request(ip, time) => AllowAvailable(l, before, ip, time, ip);
      case Sweep(time) => SweepAvailable(l, before, time, V4(0));
    }
  }

  /** A sweep of fewer than 10,000 buckets drops none; of more, exactly those last
      touched an hour or longer before, and it changes no bucket it keeps. */
  lemma SweepDropsExactly(buckets: Buckets, now: real, ip: IpAddr)
    ensures |buckets| < 10_000 ==> SweepStep(buckets, now) == buckets
    ensures ip in SweepStep(buckets, now)
            <==> ip in buckets && (|buckets| < 10_000 || now - buckets[ip].lastRefill < 3600.0)
    ensures ip in SweepStep(buckets, now) ==> SweepStep(buckets, now)[ip] == buckets[ip]
  {
  }

  // ---- the rate bound ----

  /** What one operation does to the tokens `ip` would find. */
  lemma OneStep(l: Limits, sweeping: bool, run: seq<Event>, ip: IpAddr, n: nat)
    requires Timed(run) && n < |run|
    ensures var time := run[n].time;
            var before := Available(l, After(l, sweeping, run, n), ip, time);
            var after := Available(l, After(l, sweeping, run, n + 1), ip, time);
            var spent := if Grants(l, sweeping, run, n, ip) then 1.0 else 0.0;
            && (Asks(run, n, ip) ==> Grants(l, sweeping, run, n, ip) == (before >= 1.0))
            && (after == before - spent || (run[n].Sweep? && after == l.Burst()))
            && (!sweeping || RefillsWithinAge(l) ==> after == before - spent)
  {
    hide AllowStep, SweepStep, Available, RefillsWithinAge;
    RunKeeps(l, sweeping, run, n, run[n].time);
    var before := After(l, sweeping, run, n);
    match run[n]
    case Request(other, time) => AllowAvailable(l, before, other, time, ip);
    case Sweep(time) => SweepAvailable(l, before, time, ip);
  }

  /** The potential argument: grants are paid for by tokens held or earned. */
  lemma {:induction false} GrantsArePaidFor(l: Limits, sweeping: bool, run: seq<Event>, ip: IpAddr, i: nat, j: nat)
    requires !sweeping || RefillsWithinAge(l)
    requires Timed(run) && i < j <= |run|
    ensures Granted(l, sweeping, run, ip, i, j) as real + Available(l, After(l, sweeping, run, j), ip, run[j - 1].time)
            <= Available(l, After(l, sweeping, run, i), ip, run[i].time) + l.Earned(run[j - 1].time - run[i].time)
  {
    hide After, Available, RefillsWithinAge, Grants;
    var last := j - 1;
    OneStep(l, sweeping, run, ip, last);
    if i == last {
      EarnedAdds(l, 0.0, 0.0);
      assert Granted(l, sweeping, run, ip, i, last) == 0;
    } else {
      GrantsArePaidFor(l, sweeping, run, ip, i, last);
      var since, now := run[last - 1].time, run[last].time;
      RunKeeps(l, sweeping, run, last, since);
      Waiting(l, After(l, sweeping, run, last), ip, since, now);
      EarnedAdds(l, since - run[i].time, now - since);
    }
  }

  /** Operations `i` to `j - 1` all happen between `t1` and `t2`. */
  ghost predicate Within(run: seq<Event>, i: nat, j: nat, t1: real, t2: real) {
    i <= j <= |run| && t1 <= t2 && forall k :: i <= k < j ==> t1 <= run[k].time <= t2
  }

  /** No client gets more than a burst plus the rate over any stretch of time. */
  ghost predicate RateBounded(l: Limits, sweeping: bool, run: seq<Event>) {
    forall ip, i: nat, j: nat, t1, t2 :: Within(run, i, j, t1, t2) ==>
      Granted(l, sweeping, run, ip, i, j) as real
      <= (if l.requested > 1 then l.requested else 1) as real + (t2 - t1) * l.rps as real
  }

  lemma InTokens(l: Limits, elapsed: real)
    ensures (if l.requested > 1 then l.requested else 1) as real + elapsed * l.rps as real
            == l.Burst() + l.Earned(elapsed)
  {
  }

  lemma RateBoundHolds(l: Limits, sweeping: bool, run: seq<Event>)
    requires !sweeping || RefillsWithinAge(l)
    requires Timed(run)
    ensures RateBounded(l, sweeping, run)
  {
    hide RefillsWithinAge, Granted, Within;
    forall ip, i: nat, j: nat, t1, t2 | Within(run, i, j, t1, t2)
      ensures i <= j <= |run|
      ensures Granted(l, sweeping, run, ip, i, j) as real
              <= (if l.requested > 1 then l.requested else 1) as real + (t2 - t1) * l.rps as real
    {
      BoundWithin(l, sweeping, run, ip, i, j, t1, t2);
      InTokens(l, t2 - t1);
    }
  }

  lemma BoundWithin(l: Limits, sweeping: bool, run: seq<Event>, ip: IpAddr, i: nat, j: nat, t1: real, t2: real)
    requires !sweeping || RefillsWithinAge(l)
    requires Timed(run) && Within(run, i, j, t1, t2)
    ensures i <= j <= |run| && Granted(l, sweeping, run, ip, i, j) as real <= l.Burst() + l.Earned(t2 - t1)
  {
    hide Available, RefillsWithinAge, Granted;
    EarnedAdds(l, t2 - t1, 0.0);
    if i == j {
      NoneGranted(l, sweeping, run, ip, i);
    } else {
      var first, last := run[i].time, run[j - 1].time;
      GrantsArePaidFor(l, sweeping, run, ip, i, j);
      RunKeeps(l, sweeping, run, i, first);
      RunKeeps(l, sweeping, run, j, last);
      Waiting(l, After(l, sweeping, run, i), ip, first, first);
      Waiting(l, After(l, sweeping, run, j), ip, last, last);
      EarnedAdds(l, last - first, (t2 - t1) - (last - first));
      EarnedAdds(l, (t2 - t1) - (last - first), 0.0);
    }
  }

  lemma NoneGranted(l: Limits, sweeping: bool, run: seq<Event>, ip: IpAddr, i: nat)
    requires i <= |run|
    ensures Granted(l, sweeping, run, ip, i, i) == 0
  {
  }

  // ---- denials ----

  /** The bucket of `ip` was full at moment `s`, between operations `i - 1` and
      `i`, and since then has earned and spent without reaching the cap. */
  ghost predicate FullAt(l: Limits, sweeping: bool, run: seq<Event>, ip: IpAddr, n: nat, now: real, i: nat, s: real) {
    && i <= n <= |run| && s <= now
    && (i > 0 ==> run[i - 1].time <= s) && (i < n ==> s <= run[i].time)
    && Available(l, After(l, sweeping, run, i), ip, s) == l.Burst()
    && Available(l, After(l, sweeping, run, n), ip, now)
       == l.Burst() + l.Earned(now - s) - Granted(l, sweeping, run, ip, i, n) as real
  }

  lemma FullNow(l: Limits, sweeping: bool, run: seq<Event>, ip: IpAddr, n: nat, now: real)
    requires n <= |run| && (n > 0 ==> run[n - 1].time <= now)
    requires Available(l, After(l, sweeping, run, n), ip, now) == l.Burst()
    ensures FullAt(l, sweeping, run, ip, n, now, n, now)
  {
    hide After, Available;
    EarnedAdds(l, 0.0, 0.0);
    NoneGranted(l, sweeping, run, ip, n);
  }

  /** Waiting carries the last full moment along, or makes a new one. */
  lemma LastFullAfterWait(l: Limits, sweeping: bool, run: seq<Event>, ip: IpAddr, n: nat, since: real, now: real,
                          i: nat, s: real) returns (i': nat, s': real)
    requires Timed(run) && 0 < n <= |run| && since == run[n - 1].time && since <= now
    requires FullAt(l, sweeping, run, ip, n, since, i, s)
    ensures FullAt(l, sweeping, run, ip, n, now, i', s')
  {
    hide After, Available, Granted;
    RunKeeps(l, sweeping, run, n, since);
    var buckets := After(l, sweeping, run, n);
    Waiting(l, buckets, ip, since, now);
    EarnedAdds(l, since - s, now - since);
    if Available(l, buckets, ip, now) == l.Burst() {
      FullNow(l, sweeping, run, ip, n, now);
      i', s' := n, now;
    } else {
      i', s' := i, s;
    }
  }

  /** At every moment of every run there was such a last full moment. */
  lemma {:induction false} LastFull(l: Limits, sweeping: bool, run: seq<Event>, ip: IpAddr, n: nat, now: real)
    returns (i: nat, s: real)
    requires Timed(run) && n <= |run| && (n > 0 ==> run[n - 1].time <= now)
    ensures FullAt(l, sweeping, run, ip, n, now, i, s)
  {
    hide Available, Grants;
    if n == 0 {
      NewBucketIsFull(l, ip, now);
      FullNow(l, sweeping, run, ip, 0, now);
      i, s := 0, now;
    } else {
      var time := run[n - 1].time;
      i, s := LastFull(l, sweeping, run, ip, n - 1, time);
      i, s := LastFullAfterStep(l, sweeping, run, ip, n - 1, i, s);
      i, s := LastFullAfterWait(l, sweeping, run, ip, n, time, now, i, s);
    }
  }

  lemma NewBucketIsFull(l: Limits, ip: IpAddr, now: real)
    ensures Available(l, map[], ip, now) == l.Burst()
  {
  }

  lemma LastFullAfterStep(l: Limits, sweeping: bool, run: seq<Event>, ip: IpAddr, n: nat, i: nat, s: real)
    returns (i': nat, s': real)
    requires Timed(run) && n < |run| && FullAt(l, sweeping, run, ip, n, run[n].time, i, s)
    ensures FullAt(l, sweeping, run, ip, n + 1, run[n].time, i', s')
  {
    hide After, Available, Grants;
    var time := run[n].time;
    OneStep(l, sweeping, run, ip, n);
    if run[n].Sweep? && Available(l, After(l, sweeping, run, n + 1), ip, time) == l.Burst() {
      FullNow(l, sweeping, run, ip, n + 1, time);
      i', s' := n + 1, time;
    } else {
      i', s' := i, s;
    }
  }

  /** Every denial is earned: since some earlier moment at which the client's
      bucket was full, it has been granted more than the burst less one plus the
      rate over the time elapsed. No condition on the limits is needed. */
  lemma DenialJustified(l: Limits, sweeping: bool, run: seq<Event>, ip: IpAddr, n: nat) returns (i: nat, s: real)
    requires Timed(run) && n < |run| && Asks(run, n, ip) && !Grants(l, sweeping, run, n, ip)
    ensures FullAt(l, sweeping, run, ip, n, run[n].time, i, s)
    ensures Granted(l, sweeping, run, ip, i, n) as real > l.Burst() - 1.0 + l.Earned(run[n].time - s)
  {
    hide After, Available, Grants, Granted;
    i, s := LastFull(l, sweeping, run, ip, n, run[n].time);
    OneStep(l, sweeping, run, ip, n);
  }

  // ---- conformance: exactly which clients are never denied ----

  /** Over any stretch of the run, a client asks for no more than a burst plus the
      rate. */
  ghost predicate Conforms(l: Limits, run: seq<Event>, ip: IpAddr) {
    forall i: nat, j: nat :: i < j <= |run| ==>
      Asked(run, ip, i, j) as real <= l.Burst() + l.Earned(run[j - 1].time - run[i].time)
  }

  ghost predicate NeverDenied(l: Limits, sweeping: bool, run: seq<Event>, ip: IpAddr) {
    forall n: nat :: n < |run| && Asks(run, n, ip) ==> Grants(l, sweeping, run, n, ip)
  }

  lemma {:induction false} GrantedAtMostAsked(l: Limits, sweeping: bool, run: seq<Event>, ip: IpAddr, i: nat, j: nat)
    requires i <= j <= |run|
    ensures Granted(l, sweeping, run, ip, i, j) <= Asked(run, ip, i, j)
    ensures NeverDenied(l, sweeping, run, ip) ==> Granted(l, sweeping, run, ip, i, j) == Asked(run, ip, i, j)
    decreases j
  {
    hide After;
    if i < j {
      GrantedAtMostAsked(l, sweeping, run, ip, i, j - 1);
      assert Grants(l, sweeping, run, j - 1, ip) ==> Asks(run, j - 1, ip);
    }
  }

  lemma AskedOneMore(run: seq<Event>, ip: IpAddr, i: nat, n: nat)
    requires i <= n < |run| && Asks(run, n, ip)
    ensures Asked(run, ip, i, n + 1) == Asked(run, ip, i, n) + 1
  {
  }

  /** A conforming client is never denied, whatever the limits and however often
      buckets are swept. */
  lemma ConformingNeverDenied(l: Limits, sweeping: bool, run: seq<Event>, ip: IpAddr)
    requires Timed(run) && Conforms(l, run, ip)
    ensures NeverDenied(l, sweeping, run, ip)
  {
    hide After, Available, Grants, Granted, Asks;
    forall n: nat | n < |run| && Asks(run, n, ip)
      ensures Grants(l, sweeping, run, n, ip)
    {
      if !Grants(l, sweeping, run, n, ip) {
        var i, s := DenialJustified(l, sweeping, run, ip, n);
        var now := run[n].time;
        AskedOneMore(run, ip, i, n);
        EarnedAdds(l, now - s, 0.0);
        NoneGranted(l, sweeping, run, ip, i);
        GrantedAtMostAsked(l, sweeping, run, ip, i, n);
        EarnedAdds(l, now - run[i].time, run[i].time - s);
        EarnedAdds(l, run[i].time - s, 0.0);
        assert false;
      }
    }
  }

  /** With buckets that refill within the sweep age, the clients never denied are
      exactly the conforming ones. */
  lemma NeverDeniedIffConforms(l: Limits, run: seq<Event>, ip: IpAddr)
    requires RefillsWithinAge(l) && Timed(run)
    ensures NeverDenied(l, true, run, ip) <==> Conforms(l, run, ip)
  {
    hide Granted, Asked, RefillsWithinAge;
    if Conforms(l, run, ip) {
      ConformingNeverDenied(l, true, run, ip);
    }
    if NeverDenied(l, true, run, ip) {
      forall i: nat, j: nat | i < j <= |run|
        ensures Asked(run, ip, i, j) as real <= l.Burst() + l.Earned(run[j - 1].time - run[i].time)
      {
        BoundWithin(l, true, run, ip, i, j, run[i].time, run[j - 1].time);
        GrantedAtMostAsked(l, true, run, ip, i, j);
      }
    }
  }

  /** Any two requests of the client are at least one token's worth apart. */
  ghost predicate Spaced(l: Limits, run: seq<Event>, ip: IpAddr) {
    forall i: nat, j: nat :: i < j < |run| && Asks(run, i, ip) && Asks(run, j, ip) ==>
      (run[j].time - run[i].time) * l.rps as real >= 1.0
  }

  lemma ApartByAToken(l: Limits, run: seq<Event>, ip: IpAddr, m: nat, n: nat)
    requires Spaced(l, run, ip) && m < n < |run| && Asks(run, m, ip) && Asks(run, n, ip)
    ensures l.Earned(run[n].time - run[m].time) >= 1.0
  {
    assert (run[n].time - run[m].time) * l.rps as real >= 1.0;
  }

  lemma {:induction false} SpacedAsks(l: Limits, run: seq<Event>, ip: IpAddr, i: nat, j: nat) returns (m: nat)
    requires Timed(run) && Spaced(l, run, ip) && i <= j <= |run|
    ensures Asked(run, ip, i, j) > 0 ==>
              && i <= m < j && Asks(run, m, ip)
              && Asked(run, ip, i, j) as real <= 1.0 + l.Earned(run[m].time - run[i].time)
    decreases j
  {
    hide Asks, Spaced;
    m := i;
    if i < j {
      m := SpacedAsks(l, run, ip, i, j - 1);
      if Asks(run, j - 1, ip) {
        var now := run[j - 1].time;
        EarnedAdds(l, now - run[i].time, 0.0);
        if Asked(run, ip, i, j - 1) > 0 {
          EarnedAdds(l, run[m].time - run[i].time, now - run[m].time);
          ApartByAToken(l, run, ip, m, j - 1);
        }
        m := j - 1;
      }
    }
  }

  /** So a client that waits `1 / rps` seconds between requests is never denied. */
  lemma SpacedNeverDenied(l: Limits, sweeping: bool, run: seq<Event>, ip: IpAddr)
    requires Timed(run) && Spaced(l, run, ip)
    ensures NeverDenied(l, sweeping, run, ip)
  {
    hide Asked, Asks, NeverDenied;
    forall i: nat, j: nat | i < j <= |run|
      ensures Asked(run, ip, i, j) as real <= l.Burst() + l.Earned(run[j - 1].time - run[i].time)
    {
      var m := SpacedAsks(l, run, ip, i, j);
      EarnedAdds(l, run[j - 1].time - run[i].time, 0.0);
      if Asked(run, ip, i, j) > 0 {
        EarnedAdds(l, run[m].time - run[i].time, run[j - 1].time - run[m].time);
        EarnedAdds(l, run[j - 1].time - run[m].time, 0.0);
      }
    }
    ConformingNeverDenied(l, sweeping, run, ip);
  }

  // ---- sweeping is invisible ----

  /** Every request is decided as if no bucket were ever dropped. */
  ghost predicate SweepInvisible(l: Limits, run: seq<Event>) {
    forall n: nat, ip :: n < |run| ==> Grants(l, true, run, n, ip) == Grants(l, false, run, n, ip)
  }

  lemma {:induction false} SweepShowsNowhere(l: Limits, run: seq<Event>, ip: IpAddr, n: nat, now: real)
    requires RefillsWithinAge(l)
    requires Timed(run) && n <= |run| && (n > 0 ==> run[n - 1].time <= now)
    ensures Available(l, After(l, true, run, n), ip, now) == Available(l, After(l, false, run, n), ip, now)
  {
    hide Available, RefillsWithinAge, Grants;
    if n > 0 {
      var time := run[n - 1].time;
      SweepShowsNowhere(l, run, ip, n - 1, time);
      StepsAlike(l, run, ip, n - 1);
      RunKeeps(l, true, run, n, time);
      RunKeeps(l, false, run, n, time);
      Waiting(l, After(l, true, run, n), ip, time, now);
      Waiting(l, After(l, false, run, n), ip, time, now);
    }
  }

  lemma StepsAlike(l: Limits, run: seq<Event>, ip: IpAddr, n: nat)
    requires RefillsWithinAge(l) && Timed(run) && n < |run|
    requires Available(l, After(l, true, run, n), ip, run[n].time)
             == Available(l, After(l, false, run, n), ip, run[n].time)
    ensures Grants(l, true, run, n, ip) == Grants(l, false, run, n, ip)
    ensures Available(l, After(l, true, run, n + 1), ip, run[n].time)
            == Available(l, After(l, false, run, n + 1), ip, run[n].time)
  {
    hide Available, RefillsWithinAge, After;
    OneStep(l, true, run, ip, n);
    OneStep(l, false, run, ip, n);
  }

  lemma SweepInvisibleHolds(l: Limits, run: seq<Event>)
    requires RefillsWithinAge(l) && Timed(run)
    ensures SweepInvisible(l, run)
  {
    hide Available, RefillsWithinAge, After, Grants;
    forall n: nat, ip | n < |run|
      ensures Grants(l, true, run, n, ip) == Grants(l, false, run, n, ip)
    {
      SweepShowsNowhere(l, run, ip, n, run[n].time);
      StepsAlike(l, run, ip, n);
    }
  }

  // ---- the condition is exact ----

  /** One API request, with the clock readings of its two steps. */
  datatype Call = Call(ip: IpAddr, swept: real, asked: real)

  /** The run of API requests served one after another, each a sweep and an ask. */
  function Serial(calls: seq<Call>): (run: seq<Event>)
    ensures |run| == 2 * |calls|
  {
    seq(2 * |calls|, n requires 0 <= n < 2 * |calls| =>
      if n % 2 == 0 then Sweep(calls[n / 2].swept) else Request(calls[n / 2].ip, calls[n / 2].asked))
  }

  const CLIENT := V4(0)

  function BurstCount(l: Limits): nat { if l.requested == 0 then 1 else l.requested }

  /** One client drains its bucket at time 0, enough others come by to make the
      map sweepable, and after the sweep age the client comes back. */
  function Flood(l: Limits): seq<Call> {
    var drain, others := BurstCount(l), SWEEP_SIZE - 1;
    seq(drain + others + drain, n requires 0 <= n < drain + others + drain =>
      if n < drain then Call(CLIENT, 0.0, 0.0)
      else if n < drain + others then Call(V4(n - drain + 1), 0.0, 0.0)
      else Call(CLIENT, SWEEP_AGE, SWEEP_AGE))
  }

  /** All buckets were last touched at `now`, so a sweep at `now` drops none. */
  ghost predicate AllFresh(buckets: Buckets, now: real) {
    forall ip :: ip in buckets ==> buckets[ip].lastRefill == now
  }

  lemma FreshSweep(buckets: Buckets, now: real)
    requires AllFresh(buckets, now)
    ensures SweepStep(buckets, now) == buckets
  {
  }

  /** A sweep that leaves only buckets last touched just now, then an ask: the
      bucket of the asking client, new or not, is all that changes. */
  lemma Serve(l: Limits, calls: seq<Call>, k: nat, swept: Buckets, tokens: real)
    requires k < |calls|
    requires calls[k].swept == calls[k].asked
    requires var (ip, now) := (calls[k].ip, calls[k].asked);
             && swept == SweepStep(After(l, true, Serial(calls), 2 * k), now) && AllFresh(swept, now)
             && tokens == (if ip in swept then swept[ip].tokens else l.Burst())
             && 1.0 <= tokens <= l.Burst()
    ensures Grants(l, true, Serial(calls), 2 * k + 1, calls[k].ip)
    ensures After(l, true, Serial(calls), 2 * k + 2)
            == swept[calls[k].ip := Bucket(tokens - 1.0, calls[k].asked)]
  {
    hide After, SweepStep, Serial, Grants;
    SerialAt(calls, k);
    SweepThenAsk(l, Serial(calls), 2 * k, calls[k].ip, calls[k].asked, swept, tokens);
  }

  lemma SerialAt(calls: seq<Call>, k: nat)
    requires k < |calls|
    ensures Serial(calls)[2 * k] == Sweep(calls[k].swept)
    ensures Serial(calls)[2 * k + 1] == Request(calls[k].ip, calls[k].asked)
  {
  }

  lemma SweepThenAsk(l: Limits, run: seq<Event>, n: nat, ip: IpAddr, now: real, swept: Buckets, tokens: real)
    requires n + 1 < |run| && run[n] == Sweep(now) && run[n + 1] == Request(ip, now)
    requires swept == SweepStep(After(l, true, run, n), now) && AllFresh(swept, now)
    requires tokens == (if ip in swept then swept[ip].tokens else l.Burst()) && 1.0 <= tokens <= l.Burst()
    ensures Grants(l, true, run, n + 1, ip)
    ensures After(l, true, run, n + 2) == swept[ip := Bucket(tokens - 1.0, now)]
  {
    hide Refill, SweepStep;
    assert After(l, true, run, n + 1) == swept;
    RefillNow(l, if ip in swept then swept[ip] else Bucket(l.Burst(), now));
  }

  lemma CountServed(l: Limits, calls: seq<Call>, k: nat)
    requires k < |calls| && calls[k].ip == CLIENT && Grants(l, true, Serial(calls), 2 * k + 1, CLIENT)
    ensures Granted(l, true, Serial(calls), CLIENT, 0, 2 * k + 2)
            == Granted(l, true, Serial(calls), CLIENT, 0, 2 * k) + 1
  {
    var run := Serial(calls);
    hide After, AllowStep;
    assert !Grants(l, true, run, 2 * k, CLIENT);
    assert Granted(l, true, run, CLIENT, 0, 2 * k + 1) == Granted(l, true, run, CLIENT, 0, 2 * k);
  }

  lemma FloodAt(l: Limits, k: nat)
    requires k < |Flood(l)|
    ensures var drain := BurstCount(l);
            && |Flood(l)| == 2 * drain + SWEEP_SIZE - 1
            && (k < drain ==> Flood(l)[k] == Call(CLIENT, 0.0, 0.0))
            && (drain <= k < drain + SWEEP_SIZE - 1 ==> Flood(l)[k] == Call(V4(k - drain + 1), 0.0, 0.0))
            && (drain + SWEEP_SIZE - 1 <= k ==> Flood(l)[k] == Call(CLIENT, SWEEP_AGE, SWEEP_AGE))
  {
  }

  lemma FloodLength(l: Limits)
    ensures |Flood(l)| == 2 * BurstCount(l) + SWEEP_SIZE - 1 && BurstCount(l) as real == l.Burst() >= 1.0
  {
  }

  /** First leg of the flood: the client is granted its whole burst at time 0. */
  lemma {:induction false} Drained(l: Limits, k: nat)
    requires k <= BurstCount(l)
    ensures k <= |Flood(l)|
    ensures After(l, true, Serial(Flood(l)), 2 * k)
            == if k == 0 then map[] else map[CLIENT := Bucket(l.Burst() - k as real, 0.0)]
    ensures Granted(l, true, Serial(Flood(l)), CLIENT, 0, 2 * k) == k
  {
    hide AllowStep, Serial, Flood, SweepStep, Grants;
    FloodLength(l);
    if k > 0 {
      Drained(l, k - 1);
      FloodAt(l, k - 1);
      var buckets := After(l, true, Serial(Flood(l)), 2 * (k - 1));
      FreshSweep(buckets, 0.0);
      Serve(l, Flood(l), k - 1, buckets, l.Burst() - (k - 1) as real);
      CountServed(l, Flood(l), k - 1);
    }
  }

  /** Second leg: every other client adds a fresh bucket of its own. */
  lemma {:induction false} Crowded(l: Limits, m: nat)
    requires m < SWEEP_SIZE
    ensures BurstCount(l) + m <= |Flood(l)|
    ensures var buckets := After(l, true, Serial(Flood(l)), 2 * (BurstCount(l) + m));
            && |buckets| == m + 1 && AllFresh(buckets, 0.0)
            && forall ip :: ip in buckets ==> ip.V4? && ip.bits <= m
    ensures Granted(l, true, Serial(Flood(l)), CLIENT, 0, 2 * (BurstCount(l) + m)) >= BurstCount(l)
  {
    hide AllowStep, Serial, Flood, SweepStep, Grants;
    FloodLength(l);
    if m == 0 {
      Drained(l, BurstCount(l));
    } else {
      Crowded(l, m - 1);
      var k := BurstCount(l) + m - 1;
      FloodAt(l, k);
      var buckets := After(l, true, Serial(Flood(l)), 2 * k);
      FreshSweep(buckets, 0.0);
      Serve(l, Flood(l), k, buckets, l.Burst());
      GrantedGrows(l, Serial(Flood(l)), 2 * k, 2 * k + 2);
    }
  }

  lemma GrantedGrows(l: Limits, run: seq<Event>, n: nat, m: nat)
    requires n <= m <= |run|
    ensures Granted(l, true, run, CLIENT, 0, n) <= Granted(l, true, run, CLIENT, 0, m)
  {
    hide After, Grants;
    if n < m {
      GrantedGrows(l, run, n, m - 1);
    }
  }

  lemma AllStaleSwept(buckets: Buckets)
    requires AllFresh(buckets, 0.0) && |buckets| >= SWEEP_SIZE
    ensures SweepStep(buckets, SWEEP_AGE) == map[]
  {
  }

  /** Third leg: the sweep forgets the client, whose whole burst is granted again. */
  lemma {:induction false} GrantedAgain(l: Limits, k: nat)
    requires k <= BurstCount(l)
    ensures BurstCount(l) + SWEEP_SIZE - 1 + k <= |Flood(l)|
    ensures k > 0 ==> After(l, true, Serial(Flood(l)), 2 * (BurstCount(l) + SWEEP_SIZE - 1 + k))
                      == map[CLIENT := Bucket(l.Burst() - k as real, SWEEP_AGE)]
    ensures Granted(l, true, Serial(Flood(l)), CLIENT, 0, 2 * (BurstCount(l) + SWEEP_SIZE - 1 + k)) >= BurstCount(l) + k
  {
    hide After, AllowStep, Granted, Serial, Flood, SweepStep, Grants;
    FloodLength(l);
    if k == 0 {
      Crowded(l, SWEEP_SIZE - 1);
    } else {
      GrantedAgain(l, k - 1);
      var n := BurstCount(l) + SWEEP_SIZE - 1 + k - 1;
      FloodAt(l, n);
      var swept := if k == 1 then map[] else map[CLIENT := Bucket(l.Burst() - (k - 1) as real, SWEEP_AGE)];
      if k == 1 {
        Crowded(l, SWEEP_SIZE - 1);
        AllStaleSwept(After(l, true, Serial(Flood(l)), 2 * n));
      } else {
        FreshSweep(swept, SWEEP_AGE);
      }
      Serve(l, Flood(l), n, swept, l.Burst() - (k - 1) as real);
      CountServed(l, Flood(l), n);
    }
  }

  lemma FloodTimed(l: Limits)
    ensures Timed(Serial(Flood(l)))
    ensures Within(Serial(Flood(l)), 0, |Serial(Flood(l))|, 0.0, SWEEP_AGE)
  {
    hide Flood;
    var calls := Flood(l);
    FloodLength(l);
    forall k | 0 <= k < |calls|
      ensures calls[k].swept == calls[k].asked == if k < BurstCount(l) + SWEEP_SIZE - 1 then 0.0 else SWEEP_AGE
    {
      FloodAt(l, k);
    }
    forall n | 0 <= n < 2 * |calls|
      ensures Serial(calls)[n].time == calls[n / 2].asked
    {
    }
  }

  /** Served one request at a time, the flood is granted two bursts within the
      sweep age: more than the rate allows when buckets refill slower than that. */
  lemma FloodBreaksRate(l: Limits)
    requires !RefillsWithinAge(l)
    ensures Timed(Serial(Flood(l))) && !RateBounded(l, true, Serial(Flood(l)))
  {
    hide Flood, Serial, Granted;
    FloodTimed(l);
    FloodLength(l);
    GrantedAgain(l, BurstCount(l));
    var run := Serial(Flood(l));
    assert Within(run, 0, |run|, 0.0, SWEEP_AGE);
    assert Granted(l, true, run, CLIENT, 0, |run|) as real > l.Burst() + l.Earned(SWEEP_AGE - 0.0);
  }

  /** The rate bound holds of every run, and of every run of requests served one
      after another, exactly when a full refill takes no longer than the sweep
      age: `max(burst, 1) <= 3600 * rps`. */
  lemma RateBoundExact(l: Limits)
    ensures (forall run :: Timed(run) ==> RateBounded(l, true, run)) <==> RefillsWithinAge(l)
    ensures (forall calls :: Timed(Serial(calls)) ==> RateBounded(l, true, Serial(calls)))
            <==> RefillsWithinAge(l)
  {
    hide RateBounded, Serial, Flood, Timed, RefillsWithinAge;
    if RefillsWithinAge(l) {
      forall run | Timed(run)
        ensures RateBounded(l, true, run)
      {
        RateBoundHolds(l, true, run);
      }
    } else {
      FloodBreaksRate(l);
    }
  }

  /** If the sweeps never showed, the flood would keep to the rate. */
  lemma InvisibleKeepsRate(l: Limits, run: seq<Event>)
    requires Timed(run) && SweepInvisible(l, run)
    ensures RateBounded(l, true, run)
  {
    hide Grants, After;
    RateBoundHolds(l, false, run);
    forall ip, i: nat, j: nat | i <= j <= |run|
      ensures Granted(l, true, run, ip, i, j) == Granted(l, false, run, ip, i, j)
    {
      SameGrants(l, run, ip, i, j);
    }
  }

  lemma {:induction false} SameGrants(l: Limits, run: seq<Event>, ip: IpAddr, i: nat, j: nat)
    requires i <= j <= |run| && SweepInvisible(l, run)
    ensures Granted(l, true, run, ip, i, j) == Granted(l, false, run, ip, i, j)
    decreases j
  {
    hide Grants;
    if i < j {
      SameGrants(l, run, ip, i, j - 1);
      assert Grants(l, true, run, j - 1, ip) == Grants(l, false, run, j - 1, ip);
    }
  }

  /** Dropping stale buckets never shows in any run's decisions exactly under the
      same condition. */
  lemma SweepInvisibleExact(l: Limits)
    ensures (forall run :: Timed(run) ==> SweepInvisible(l, run)) <==> RefillsWithinAge(l)
  {
    hide RateBounded, SweepInvisible, Serial, Flood, Timed, RefillsWithinAge;
    if RefillsWithinAge(l) {
      forall run | Timed(run)
        ensures SweepInvisible(l, run)
      {
        SweepInvisibleHolds(l, run);
      }
    } else {
      FloodBreaksRate(l);
      var run := Serial(Flood(l));
      if SweepInvisible(l, run) {
        InvisibleKeepsRate(l, run);
      }
    }
  }
}

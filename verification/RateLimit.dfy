/** The token bucket of the transport layer, with real-valued time and tokens. */
module RateLimit {
  datatype Config = Config(maxTokens: real, refill: real)

  datatype Bucket = Bucket(tokens: real, lastUpdate: real, rejected: nat)

  /** `Undefined` is the division by a zero refill rate when the waiting time is computed. */
  datatype Verdict = Allowed | Limited(wait: real) | Undefined

  function Min(a: real, b: real): real {
    if a <= b then a else b
  }

  /** Tokens gained between two clock readings. */
  function Gain(cfg: Config, from: real, to: real): real {
    (to - from) * cfg.refill
  }

  lemma GainAdds(cfg: Config, a: real, b: real, c: real)
    ensures Gain(cfg, a, b) + Gain(cfg, b, c) == Gain(cfg, a, c)
    ensures Gain(cfg, a, a) == 0.0
  {
  }

  lemma GainMonotone(cfg: Config, a: real, b: real, c: real, d: real)
    requires cfg.refill >= 0.0 && b - a <= d - c
    ensures Gain(cfg, a, b) <= Gain(cfg, c, d)
  {
    assert ((d - c) - (b - a)) * cfg.refill >= 0.0;
  }

  function Refilled(cfg: Config, b: Bucket, now: real): real {
    Min(cfg.maxTokens, b.tokens + Gain(cfg, b.lastUpdate, now))
  }

  /** One request at clock reading `now`. */
  function Check(cfg: Config, b: Bucket, now: real): (Bucket, Verdict) {
    var tokens := Refilled(cfg, b, now);
    if tokens >= 1.0 then (Bucket(tokens - 1.0, now, b.rejected), Allowed)
    else (Bucket(tokens, now, b.rejected + 1), if cfg.refill == 0.0 then Undefined
          else Limited((1.0 - tokens) / cfg.refill))
  }

  /** The bucket after requests at the given readings. */
  function After(cfg: Config, b: Bucket, times: seq<real>): Bucket {
    if times == [] then b else Check(cfg, After(cfg, b, times[..|times| - 1]), times[|times| - 1]).0
  }

  /** How many of the requests were allowed. */
  function Count(cfg: Config, b: Bucket, times: seq<real>): nat {
    if times == [] then 0
    else
      var n := |times| - 1;
      Count(cfg, b, times[..n]) + if Check(cfg, After(cfg, b, times[..n]), times[n]).1.Allowed? then 1 else 0
  }

  predicate Within(t: real, start: real, end: real) {
    start <= t <= end
  }

  /** How many of the requests with readings between `start` and `end` were allowed. */
  function CountIn(cfg: Config, b: Bucket, times: seq<real>, start: real, end: real): nat {
    if times == [] then 0
    else
      var n := |times| - 1;
      CountIn(cfg, b, times[..n], start, end)
      + if Within(times[n], start, end) && Check(cfg, After(cfg, b, times[..n]), times[n]).1.Allowed? then 1 else 0
  }

  // ---------------------------------------------------------------- one client

  /** Every allowed request has been paid for: the tokens left account for the time that passed. */
  lemma {:induction false} TokensPaid(cfg: Config, b: Bucket, times: seq<real>)
    requires times != []
    ensures After(cfg, b, times).lastUpdate == times[|times| - 1]
    ensures After(cfg, b, times).tokens + Count(cfg, b, times) as real
         <= cfg.maxTokens + Gain(cfg, times[0], times[|times| - 1])
  {
    hide Gain;
    var n := |times| - 1;
    if n == 0 {
      assert times[..0] == [];
      GainAdds(cfg, times[0], times[0], times[0]);
    } else {
      TokensPaid(cfg, b, times[..n]);
      GainAdds(cfg, times[0], times[n - 1], times[n]);
    }
  }

  /** From the first counted request on, every allowed one is paid for by the tokens gained since. */
  lemma {:induction false} CountedPaid(cfg: Config, b: Bucket, times: seq<real>, start: real, end: real)
    returns (first: real)
    requires CountIn(cfg, b, times, start, end) > 0
    ensures Within(first, start, end) && After(cfg, b, times).lastUpdate == times[|times| - 1]
    ensures After(cfg, b, times).tokens + CountIn(cfg, b, times, start, end) as real
         <= cfg.maxTokens + Gain(cfg, first, times[|times| - 1])
  {
    hide Gain;
    var n := |times| - 1;
    if CountIn(cfg, b, times[..n], start, end) == 0 {
      first := times[n];
      GainAdds(cfg, first, first, first);
    } else {
      first := CountedPaid(cfg, b, times[..n], start, end);
      GainAdds(cfg, first, times[n - 1], times[n]);
    }
  }

  /** Requests after the last counted one change nothing. */
  lemma {:induction false} LastCounted(cfg: Config, b: Bucket, times: seq<real>, start: real, end: real)
    returns (n: nat)
    requires CountIn(cfg, b, times, start, end) > 0
    ensures 0 < n <= |times| && CountIn(cfg, b, times[..n], start, end) == CountIn(cfg, b, times, start, end)
    ensures After(cfg, b, times[..n]).tokens >= 0.0 && Within(times[n - 1], start, end)
  {
    var m := |times| - 1;
    if Within(times[m], start, end) && Check(cfg, After(cfg, b, times[..m]), times[m]).1.Allowed? {
      n := |times|;
      assert times[..n] == times;
    } else {
      n := LastCounted(cfg, b, times[..m], start, end);
      assert times[..m][..n] == times[..n];
    }
  }

  /**
   Rate bound: over any readings, ordered or not, and whatever the bucket held before, at most
   `maxTokens` plus the tokens gained from `start` to `end` of the requests read in that interval are
   allowed.
   */
  lemma RateBound(cfg: Config, b: Bucket, times: seq<real>, start: real, end: real)
    requires cfg.maxTokens >= 0.0 && cfg.refill >= 0.0 && start <= end
    ensures CountIn(cfg, b, times, start, end) as real <= cfg.maxTokens + Gain(cfg, start, end)
  {
    GainAdds(cfg, start, start, start);
    GainMonotone(cfg, start, start, start, end);
    hide Gain;
    if CountIn(cfg, b, times, start, end) > 0 {
      var n := LastCounted(cfg, b, times, start, end);
      var first := CountedPaid(cfg, b, times[..n], start, end);
      hide CountIn, After;
      assert times[..n][n - 1] == times[n - 1];
      GainMonotone(cfg, first, times[n - 1], start, end);
    }
  }

  predicate Nondecreasing(times: seq<real>) {
    forall i, j :: 0 <= i < j < |times| ==> times[i] <= times[j]
  }

  predicate Full(cfg: Config, b: Bucket) {
    0.0 <= b.tokens <= cfg.maxTokens
  }

  /** The bucket is neither in debt nor overfull behind any of the requests. */
  ghost predicate StaysFull(cfg: Config, b: Bucket, times: seq<real>) {
    forall n: nat :: 0 < n <= |times| ==> Full(cfg, After(cfg, b, times[..n]))
  }

  lemma CheckKeeps(cfg: Config, b: Bucket, now: real)
    requires cfg.refill >= 0.0 && Full(cfg, b) && b.lastUpdate <= now
    ensures Full(cfg, Check(cfg, b, now).0)
  {
    hide Gain;
    GainAdds(cfg, now, now, now);
    GainMonotone(cfg, now, now, b.lastUpdate, now);
  }

  lemma AfterSnoc(cfg: Config, b: Bucket, times: seq<real>, n: nat)
    requires n < |times|
    ensures After(cfg, b, times[..n + 1]) == Check(cfg, After(cfg, b, times[..n]), times[n]).0
    ensures After(cfg, b, times[..n + 1]).lastUpdate == times[n]
  {
    assert times[..n + 1][..n] == times[..n];
  }

  /** Once the first request leaves the bucket in range, a nondecreasing clock keeps it there. */
  lemma {:induction false} FullFromFirst(cfg: Config, b: Bucket, times: seq<real>, n: nat)
    requires cfg.refill >= 0.0 && Nondecreasing(times) && 0 < n <= |times|
    requires Full(cfg, After(cfg, b, times[..1]))
    ensures Full(cfg, After(cfg, b, times[..n]))
  {
    hide After, Check, Full;
    if n > 1 {
      FullFromFirst(cfg, b, times, n - 1);
      AfterSnoc(cfg, b, times, n - 1);
      AfterSnoc(cfg, b, times, n - 2);
      CheckKeeps(cfg, After(cfg, b, times[..n - 1]), times[n - 1]);
    }
  }

  /** What the first refill takes away when the record was last updated behind the reading `now`. */
  function Debt(cfg: Config, updated: real, now: real): real {
    (updated - now) * cfg.refill
  }

  /** The first refill is negative when the record is newer than the reading of its request. */
  lemma FirstRequest(cfg: Config, b: Bucket, now: real)
    requires cfg.refill >= 0.0 && Full(cfg, b)
    ensures Full(cfg, Check(cfg, b, now).0) <==> Debt(cfg, b.lastUpdate, now) <= b.tokens
  {
    assert Gain(cfg, b.lastUpdate, now) == -((b.lastUpdate - now) * cfg.refill);
  }

  /**
   On a nondecreasing clock the tokens stay between zero and the maximum exactly if the refill of the time by
   which the bucket's last update lies behind the first reading does not exceed what the bucket holds. It
   never does when the last update is no later than that reading.
   */
  lemma TokensWithinIff(cfg: Config, b: Bucket, times: seq<real>)
    requires cfg.refill >= 0.0 && Full(cfg, b) && times != [] && Nondecreasing(times)
    ensures StaysFull(cfg, b, times) <==> Debt(cfg, b.lastUpdate, times[0]) <= b.tokens
    ensures b.lastUpdate <= times[0] ==> StaysFull(cfg, b, times)
  {
    AfterSnoc(cfg, b, times, 0);
    assert After(cfg, b, times[..0]) == b;
    hide After, Check, Full;
    FirstRequest(cfg, b, times[0]);
    if StaysFull(cfg, b, times) {
      assert Full(cfg, After(cfg, b, times[..1]));
    }
    if Full(cfg, After(cfg, b, times[..1])) {
      forall n: nat | 0 < n <= |times| ensures Full(cfg, After(cfg, b, times[..n])) {
        FullFromFirst(cfg, b, times, n);
      }
    }
    if b.lastUpdate <= times[0] {
      CheckKeeps(cfg, b, times[0]);
    }
  }

  lemma GainStrict(cfg: Config, now: real, a: real, b: real)
    requires cfg.refill > 0.0
    ensures a < b <==> Gain(cfg, now, a) < Gain(cfg, now, b)
  {
    assert Gain(cfg, now, b) - Gain(cfg, now, a) == (b - a) * cfg.refill;
  }

  /**
   A client told to wait is allowed next exactly if it comes back when that time has passed, provided the bucket
   can hold a token.
   */
  lemma WaitSuffices(cfg: Config, b: Bucket, now: real, later: real)
    requires cfg.refill > 0.0 && cfg.maxTokens >= 1.0
    requires Check(cfg, b, now).1.Limited?
    ensures Check(cfg, Check(cfg, b, now).0, later).1.Allowed? <==> later >= now + Check(cfg, b, now).1.wait
  {
    var limited := Check(cfg, b, now).0;
    var wait := Check(cfg, b, now).1.wait;
    assert Gain(cfg, now, now + wait) == 1.0 - limited.tokens;
    GainStrict(cfg, now, later, now + wait);
    hide Gain;
  }

  /** Every request is allowed or counted as rejected. */
  lemma {:induction false} AllowedOrRejected(cfg: Config, b: Bucket, times: seq<real>)
    ensures After(cfg, b, times).rejected + Count(cfg, b, times) == b.rejected + |times|
  {
    if times != [] {
      AllowedOrRejected(cfg, b, times[..|times| - 1]);
    }
  }

  // ---------------------------------------------------------------- requests within the rate are allowed

  /** How many of the first `n` requests are allowed. */
  function CountTo(cfg: Config, b: Bucket, times: seq<real>, n: nat): int
    requires n <= |times|
  {
    Count(cfg, b, times[..n])
  }

  lemma CountToSnoc(cfg: Config, b: Bucket, times: seq<real>, n: nat)
    requires n < |times|
    ensures CountTo(cfg, b, times, n + 1)
         == CountTo(cfg, b, times, n) + if Check(cfg, After(cfg, b, times[..n]), times[n]).1.Allowed? then 1 else 0
    ensures CountTo(cfg, b, times, 0) == 0
  {
    assert times[..n + 1][..n] == times[..n];
  }

  /**
   What the allowed requests among the first `n` leave at `now`: this much of what the bucket held at first, and
   of what a full bucket holds at each of their readings.
   */
  ghost predicate Leaves(cfg: Config, b: Bucket, times: seq<real>, n: nat, now: real, amount: real)
    requires n <= |times|
  {
    && CountTo(cfg, b, times, n) as real + amount <= b.tokens + Gain(cfg, b.lastUpdate, now)
    && forall i: nat :: i < n ==>
         (CountTo(cfg, b, times, n) - CountTo(cfg, b, times, i)) as real + amount
         <= cfg.maxTokens + Gain(cfg, times[i], now)
  }

  lemma LeavesEarlier(cfg: Config, b: Bucket, times: seq<real>, n: nat, now: real, amount: real)
    requires 0 < n <= |times|
    ensures var spent := (CountTo(cfg, b, times, n) - CountTo(cfg, b, times, n - 1)) as real;
            var sooner := amount + spent - Gain(cfg, times[n - 1], now);
            Leaves(cfg, b, times, n, now, amount)
            == (sooner <= cfg.maxTokens && Leaves(cfg, b, times, n - 1, times[n - 1], sooner))
  {
    forall a: real ensures Gain(cfg, a, times[n - 1]) + Gain(cfg, times[n - 1], now) == Gain(cfg, a, now) {
      GainAdds(cfg, a, times[n - 1], now);
    }
    hide Gain, CountTo;
  }

  /** The level of the bucket is the least that any window of the requests leaves. */
  lemma {:induction false} LevelIff(cfg: Config, b: Bucket, times: seq<real>, n: nat, now: real, amount: real)
    requires n <= |times|
    ensures Refilled(cfg, After(cfg, b, times[..n]), now) >= amount
       <==> amount <= cfg.maxTokens && Leaves(cfg, b, times, n, now, amount)
  {
    if n == 0 {
      assert times[..0] == [];
    } else {
      CountToSnoc(cfg, b, times, n - 1);
      LeavesEarlier(cfg, b, times, n, now, amount);
      AfterSnoc(cfg, b, times, n - 1);
      var spent := (CountTo(cfg, b, times, n) - CountTo(cfg, b, times, n - 1)) as real;
      LevelIff(cfg, b, times, n - 1, times[n - 1], amount + spent - Gain(cfg, times[n - 1], now));
      hide After, Leaves, Gain, CountTo;
    }
  }

  /** The request fits into every window of requests that ends with it, next to those allowed before it. */
  ghost predicate FitsAt(cfg: Config, b: Bucket, times: seq<real>, j: nat)
    requires j < |times|
  {
    && (CountTo(cfg, b, times, j) + 1) as real <= b.tokens + Gain(cfg, b.lastUpdate, times[j])
    && forall i: nat :: i <= j ==>
         (CountTo(cfg, b, times, j) - CountTo(cfg, b, times, i) + 1) as real
         <= cfg.maxTokens + Gain(cfg, times[i], times[j])
  }

  /**
   The bucket decides exactly by the bound it enforces: whatever the readings and whatever was refused, a request is
   allowed if and only if it fits into every window that ends with it.
   */
  lemma AllowedExactly(cfg: Config, b: Bucket, times: seq<real>, j: nat)
    requires j < |times|
    ensures Check(cfg, After(cfg, b, times[..j]), times[j]).1.Allowed? <==> FitsAt(cfg, b, times, j)
  {
    AllowedIsLevel(cfg, After(cfg, b, times[..j]), times[j]);
    LevelIff(cfg, b, times, j, times[j], 1.0);
    GainAdds(cfg, times[j], times[j], times[j]);
    hide Gain, CountTo, After, Check, Refilled;
    assert FitsAt(cfg, b, times, j) == (1.0 <= cfg.maxTokens && Leaves(cfg, b, times, j, times[j], 1.0));
  }

  lemma AllowedIsLevel(cfg: Config, b: Bucket, now: real)
    ensures Check(cfg, b, now).1.Allowed? <==> Refilled(cfg, b, now) >= 1.0
  {
  }

  /** The first `n` requests are allowed. */
  ghost predicate AllAllowed(cfg: Config, b: Bucket, times: seq<real>, n: nat) {
    forall m: nat :: m < n && m < |times| ==> Check(cfg, After(cfg, b, times[..m]), times[m]).1.Allowed?
  }

  lemma {:induction false} AllCounted(cfg: Config, b: Bucket, times: seq<real>, n: nat)
    requires n <= |times| && AllAllowed(cfg, b, times, n)
    ensures CountTo(cfg, b, times, n) == n
  {
    if n > 0 {
      AllCounted(cfg, b, times, n - 1);
      CountToSnoc(cfg, b, times, n - 1);
    } else {
      assert times[..0] == [];
    }
  }

  /** No window of the readings holds more requests than a full bucket and the refill provide for. */
  ghost predicate WindowsFit(cfg: Config, times: seq<real>) {
    forall i: nat, j: nat :: i <= j < |times| ==> (j - i + 1) as real <= cfg.maxTokens + Gain(cfg, times[i], times[j])
  }

  /** Nor does one that starts with the bucket as it is hold more than that and the refill provide for. */
  ghost predicate StartFits(cfg: Config, b: Bucket, times: seq<real>) {
    forall j: nat :: j < |times| ==> (j + 1) as real <= b.tokens + Gain(cfg, b.lastUpdate, times[j])
  }

  lemma FitsAmongAllowed(cfg: Config, b: Bucket, times: seq<real>, j: nat)
    requires j < |times| && AllAllowed(cfg, b, times, j)
    ensures FitsAt(cfg, b, times, j)
       <==> && (j + 1) as real <= b.tokens + Gain(cfg, b.lastUpdate, times[j])
            && forall i: nat :: i <= j ==> (j - i + 1) as real <= cfg.maxTokens + Gain(cfg, times[i], times[j])
  {
    forall i: nat | i <= j ensures CountTo(cfg, b, times, i) == i {
      AllCounted(cfg, b, times, i);
    }
    hide Gain, CountTo, Check;
  }

  lemma {:induction false} AllowedIfFit(cfg: Config, b: Bucket, times: seq<real>, n: nat)
    requires n <= |times| && StartFits(cfg, b, times) && WindowsFit(cfg, times)
    ensures AllAllowed(cfg, b, times, n)
  {
    if n > 0 {
      AllowedIfFit(cfg, b, times, n - 1);
      AllowedExactly(cfg, b, times, n - 1);
      FitsAmongAllowed(cfg, b, times, n - 1);
      hide Gain, FitsAt, Check;
    }
  }

  /** All requests are allowed exactly if no window of their readings holds more than bucket and refill provide for. */
  lemma AllowedIff(cfg: Config, b: Bucket, times: seq<real>)
    ensures AllAllowed(cfg, b, times, |times|) <==> StartFits(cfg, b, times) && WindowsFit(cfg, times)
  {
    hide Gain, FitsAt, Check;
    if StartFits(cfg, b, times) && WindowsFit(cfg, times) {
      AllowedIfFit(cfg, b, times, |times|);
    }
    if AllAllowed(cfg, b, times, |times|) {
      forall j: nat | j < |times|
        ensures (j + 1) as real <= b.tokens + Gain(cfg, b.lastUpdate, times[j])
        ensures forall i: nat :: i <= j ==> (j - i + 1) as real <= cfg.maxTokens + Gain(cfg, times[i], times[j])
      {
        AllowedExactly(cfg, b, times, j);
        FitsAmongAllowed(cfg, b, times, j);
      }
    }
  }

  // ---------------------------------------------------------------- all clients

  /** `created` is the reading taken when the client's record is first made. */
  datatype Request = Request(client: string, now: real, created: real)

  function Lookup(cfg: Config, limits: map<string, Bucket>, r: Request): Bucket {
    if r.client in limits then limits[r.client] else Bucket(cfg.maxTokens, r.created, 0)
  }

  function Serve(cfg: Config, limits: map<string, Bucket>, r: Request): (map<string, Bucket>, Verdict) {
    var (b, verdict) := Check(cfg, Lookup(cfg, limits, r), r.now);
    (limits[r.client := b], verdict)
  }

  function ServeAll(cfg: Config, limits: map<string, Bucket>, rs: seq<Request>): map<string, Bucket> {
    if rs == [] then limits
    else Serve(cfg, ServeAll(cfg, limits, rs[..|rs| - 1]), rs[|rs| - 1]).0
  }

  /** How many requests of a client, read between `start` and `end`, the run allows. */
  function CountAllIn(cfg: Config, limits: map<string, Bucket>, rs: seq<Request>, client: string, start: real,
                      end: real): nat {
    if rs == [] then 0
    else
      var n := |rs| - 1;
      CountAllIn(cfg, limits, rs[..n], client, start, end)
      + if Counts(cfg, ServeAll(cfg, limits, rs[..n]), rs[n], client, start, end) then 1 else 0
  }

  predicate Counts(cfg: Config, limits: map<string, Bucket>, r: Request, client: string, start: real, end: real) {
    r.client == client && Within(r.now, start, end) && Serve(cfg, limits, r).1.Allowed?
  }

  function TimesOf(rs: seq<Request>, client: string): seq<real> {
    if rs == [] then []
    else TimesOf(rs[..|rs| - 1], client) + if rs[|rs| - 1].client == client then [rs[|rs| - 1].now] else []
  }

  /** The bucket a client starts the run with: its record, or the one made at its first request. */
  function StartOf(cfg: Config, limits: map<string, Bucket>, rs: seq<Request>, client: string): Bucket
    decreases |rs|
  {
    if client in limits then limits[client]
    else if rs == [] then Bucket(cfg.maxTokens, 0.0, 0)
    else if rs[0].client == client then Bucket(cfg.maxTokens, rs[0].created, 0)
    else StartOf(cfg, limits, rs[1..], client)
  }

  lemma {:induction false} StartOfPrefix(cfg: Config, limits: map<string, Bucket>, rs: seq<Request>, r: Request,
                                         client: string)
    requires client in limits || TimesOf(rs, client) != []
    ensures StartOf(cfg, limits, rs + [r], client) == StartOf(cfg, limits, rs, client)
    decreases |rs|
  {
    if client !in limits && rs != [] {
      if rs[0].client != client {
        TimesOfTail(rs, client);
        StartOfPrefix(cfg, limits, rs[1..], r, client);
        assert (rs + [r])[1..] == rs[1..] + [r];
      }
    }
  }

  lemma {:induction false} TimesOfTail(rs: seq<Request>, client: string)
    requires rs != [] && rs[0].client != client
    ensures TimesOf(rs[1..], client) == TimesOf(rs, client)
    decreases |rs|
  {
    if |rs| > 1 {
      TimesOfTail(rs[..|rs| - 1], client);
      assert rs[..|rs| - 1][1..] == rs[1..][..|rs| - 2];
    }
  }

  lemma {:induction false} StartOfFirst(cfg: Config, limits: map<string, Bucket>, rs: seq<Request>, r: Request)
    requires r.client !in limits && TimesOf(rs, r.client) == []
    ensures StartOf(cfg, limits, rs + [r], r.client) == Bucket(cfg.maxTokens, r.created, 0)
    decreases |rs|
  {
    if rs == [] {
      assert rs + [r] == [r];
    } else {
      if rs[0].client == r.client {
        HasTimes(rs, r.client);
      } else {
        TimesOfTail(rs, r.client);
        StartOfFirst(cfg, limits, rs[1..], r);
        assert (rs + [r])[1..] == rs[1..] + [r];
      }
    }
  }

  lemma {:induction false} HasTimes(rs: seq<Request>, client: string)
    requires rs != [] && rs[0].client == client
    ensures TimesOf(rs, client) != []
    decreases |rs|
  {
    if |rs| > 1 {
      HasTimes(rs[..|rs| - 1], client);
    }
  }

  lemma RunSnoc(cfg: Config, limits: map<string, Bucket>, rs: seq<Request>, r: Request, client: string, start: real,
                end: real)
    ensures ServeAll(cfg, limits, rs + [r]) == Serve(cfg, ServeAll(cfg, limits, rs), r).0
    ensures CountAllIn(cfg, limits, rs + [r], client, start, end)
         == CountAllIn(cfg, limits, rs, client, start, end)
            + if Counts(cfg, ServeAll(cfg, limits, rs), r, client, start, end) then 1 else 0
    ensures TimesOf(rs + [r], client) == TimesOf(rs, client) + if r.client == client then [r.now] else []
  {
    assert (rs + [r])[..|rs|] == rs;
  }

  lemma BucketSnoc(cfg: Config, b: Bucket, times: seq<real>, now: real, start: real, end: real)
    ensures After(cfg, b, times + [now]) == Check(cfg, After(cfg, b, times), now).0
    ensures CountIn(cfg, b, times + [now], start, end)
         == CountIn(cfg, b, times, start, end)
            + if Within(now, start, end) && Check(cfg, After(cfg, b, times), now).1.Allowed? then 1 else 0
  {
    assert (times + [now])[..|times|] == times;
  }

  /** The client's view of a run: its own bucket over its own requests. */
  ghost predicate SeesOwnBucket(cfg: Config, limits: map<string, Bucket>, rs: seq<Request>, client: string, start: real,
                                end: real) {
    var b, times, now := StartOf(cfg, limits, rs, client), TimesOf(rs, client), ServeAll(cfg, limits, rs);
    && CountAllIn(cfg, limits, rs, client, start, end) == CountIn(cfg, b, times, start, end)
    && (client in now <==> client in limits || times != [])
    && (client in now ==> now[client] == After(cfg, b, times))
  }

  /** Clients do not influence each other, in what they hold and in what they are allowed in any interval. */
  lemma {:induction false} Independent(cfg: Config, limits: map<string, Bucket>, rs: seq<Request>, client: string,
                                       start: real, end: real)
    ensures SeesOwnBucket(cfg, limits, rs, client, start, end)
    decreases |rs|
  {
    if rs != [] {
      var n := |rs| - 1;
      assert rs == rs[..n] + [rs[n]];
      Independent(cfg, limits, rs[..n], client, start, end);
      hide SeesOwnBucket;
      if rs[n].client == client {
        OwnRequest(cfg, limits, rs[..n], rs[n], start, end);
      } else {
        OtherRequest(cfg, limits, rs[..n], rs[n], client, start, end);
      }
    }
  }

  lemma OwnRequest(cfg: Config, limits: map<string, Bucket>, rs: seq<Request>, r: Request, start: real, end: real)
    requires SeesOwnBucket(cfg, limits, rs, r.client, start, end)
    ensures SeesOwnBucket(cfg, limits, rs + [r], r.client, start, end)
  {
    var client, times := r.client, TimesOf(rs, r.client);
    RunSnoc(cfg, limits, rs, r, client, start, end);
    var b := StartOf(cfg, limits, rs + [r], client);
    if client in limits || times != [] {
      StartOfPrefix(cfg, limits, rs, r, client);
    } else {
      StartOfFirst(cfg, limits, rs, r);
      assert After(cfg, b, times) == b;
      assert CountIn(cfg, StartOf(cfg, limits, rs, client), times, start, end) == 0;
      assert CountIn(cfg, b, times, start, end) == 0;
    }
    BucketSnoc(cfg, b, times, r.now, start, end);
    hide Check, StartOf, TimesOf, CountAllIn, ServeAll, CountIn, After;
  }

  lemma OtherRequest(cfg: Config, limits: map<string, Bucket>, rs: seq<Request>, r: Request, client: string,
                     start: real, end: real)
    requires r.client != client && SeesOwnBucket(cfg, limits, rs, client, start, end)
    ensures SeesOwnBucket(cfg, limits, rs + [r], client, start, end)
  {
    var times := TimesOf(rs, client);
    RunSnoc(cfg, limits, rs, r, client, start, end);
    assert times + [] == times;
    if client in limits || times != [] {
      StartOfPrefix(cfg, limits, rs, r, client);
    } else {
      assert forall b :: CountIn(cfg, b, times, start, end) == 0;
    }
    hide Check, StartOf, TimesOf, CountAllIn, ServeAll, CountIn, After;
  }

  lemma OwnCount(cfg: Config, limits: map<string, Bucket>, rs: seq<Request>, client: string, start: real, end: real)
    ensures CountAllIn(cfg, limits, rs, client, start, end)
         == CountIn(cfg, StartOf(cfg, limits, rs, client), TimesOf(rs, client), start, end)
  {
    Independent(cfg, limits, rs, client, start, end);
    hide StartOf, TimesOf, CountAllIn, ServeAll, CountIn, After;
  }

  lemma GainIs(cfg: Config, start: real, end: real)
    ensures Gain(cfg, start, end) == (end - start) * cfg.refill
  {
  }

  /** Over any run of any clients, one client stays within its bound in every interval. */
  lemma RunRateBound(cfg: Config, limits: map<string, Bucket>, rs: seq<Request>, client: string,
                     start: real, end: real)
    requires cfg.maxTokens >= 0.0 && cfg.refill >= 0.0 && start <= end
    ensures CountAllIn(cfg, limits, rs, client, start, end) as real <= cfg.maxTokens + (end - start) * cfg.refill
  {
    hide *;
    OwnCount(cfg, limits, rs, client, start, end);
    RateBound(cfg, StartOf(cfg, limits, rs, client), TimesOf(rs, client), start, end);
    GainIs(cfg, start, end);
  }

  /** The run allows all requests of this client. */
  ghost predicate ServesAll(cfg: Config, limits: map<string, Bucket>, rs: seq<Request>, client: string) {
    forall n: nat :: n < |rs| && rs[n].client == client ==> VerdictAt(cfg, limits, rs, n).Allowed?
  }

  function VerdictAt(cfg: Config, limits: map<string, Bucket>, rs: seq<Request>, n: nat): Verdict
    requires n < |rs|
  {
    Serve(cfg, ServeAll(cfg, limits, rs[..n]), rs[n]).1
  }

  /** Every reading of a client is that of one of its requests. */
  lemma {:induction false} RequestOf(rs: seq<Request>, client: string, m: nat) returns (n: nat)
    requires m < |TimesOf(rs, client)|
    ensures n < |rs| && rs[n].client == client && |TimesOf(rs[..n], client)| == m
  {
    n := |rs| - 1;
    if rs[n].client != client || m < |TimesOf(rs, client)| - 1 {
      var l := n;
      n := RequestOf(rs[..l], client, m);
      assert rs[..l][..n] == rs[..n];
    }
  }

  lemma OwnReading(rs: seq<Request>, n: nat)
    requires n < |rs|
    ensures var m, times := |TimesOf(rs[..n], rs[n].client)|, TimesOf(rs, rs[n].client);
            m < |times| && times[m] == rs[n].now && times[..m] == TimesOf(rs[..n], rs[n].client)
  {
    var client := rs[n].client;
    assert rs[..n + 1] == rs[..n] + [rs[n]];
    RunSnoc(Config(0.0, 0.0), map[], rs[..n], rs[n], client, 0.0, 0.0);
    TimesPrefix(rs, client, n);
    TimesPrefix(rs, client, n + 1);
  }

  /** A request is judged by the client's own bucket. */
  lemma OwnVerdict(cfg: Config, limits: map<string, Bucket>, rs: seq<Request>, n: nat)
    requires n < |rs|
    ensures var times, m := TimesOf(rs, rs[n].client), |TimesOf(rs[..n], rs[n].client)|;
            m < |times|
            && VerdictAt(cfg, limits, rs, n)
            == Check(cfg, After(cfg, StartOf(cfg, limits, rs, rs[n].client), times[..m]), times[m]).1
  {
    var client, start := rs[n].client, StartOf(cfg, limits, rs, rs[n].client);
    OwnReading(rs, n);
    BucketInRun(cfg, limits, rs, client, n);
    if client !in limits && TimesOf(rs[..n], client) == [] {
      assert rs[..n + 1] == rs[..n] + [rs[n]];
      StartOfFirst(cfg, limits, rs[..n], rs[n]);
      RunSnoc(cfg, limits, rs[..n], rs[n], client, 0.0, 0.0);
      StartOfPrefixes(cfg, limits, rs, client, n + 1);
    }
    hide StartOf, TimesOf, ServeAll, Check;
  }

  /** A request in a run is allowed exactly if it fits into every window of its client's requests that ends with it. */
  lemma ServedExactly(cfg: Config, limits: map<string, Bucket>, rs: seq<Request>, n: nat)
    requires n < |rs|
    ensures var times, m := TimesOf(rs, rs[n].client), |TimesOf(rs[..n], rs[n].client)|;
            && m < |times|
            && (VerdictAt(cfg, limits, rs, n).Allowed?
                <==> FitsAt(cfg, StartOf(cfg, limits, rs, rs[n].client), times, m))
  {
    var times, m := TimesOf(rs, rs[n].client), |TimesOf(rs[..n], rs[n].client)|;
    hide *;
    OwnVerdict(cfg, limits, rs, n);
    AllowedExactly(cfg, StartOf(cfg, limits, rs, rs[n].client), times, m);
  }

  /**
   Requests within the rate are served: over any run of any clients, all requests of a client are allowed exactly
   if no window of its own readings holds more than its bucket and the refill provide for.
   */
  lemma ServedIff(cfg: Config, limits: map<string, Bucket>, rs: seq<Request>, client: string)
    ensures ServesAll(cfg, limits, rs, client)
       <==> && StartFits(cfg, StartOf(cfg, limits, rs, client), TimesOf(rs, client))
            && WindowsFit(cfg, TimesOf(rs, client))
  {
    var start, times := StartOf(cfg, limits, rs, client), TimesOf(rs, client);
    AllowedIff(cfg, start, times);
    hide StartOf, TimesOf, ServeAll, Check, After, StartFits, WindowsFit, VerdictAt;
    if ServesAll(cfg, limits, rs, client) {
      forall m: nat | m < |times| ensures Check(cfg, After(cfg, start, times[..m]), times[m]).1.Allowed? {
        var n := RequestOf(rs, client, m);
        OwnVerdict(cfg, limits, rs, n);
      }
    }
    if AllAllowed(cfg, start, times, |times|) {
      forall n: nat | n < |rs| && rs[n].client == client ensures VerdictAt(cfg, limits, rs, n).Allowed? {
        OwnVerdict(cfg, limits, rs, n);
      }
    }
  }

  /** A full bucket as old as the first reading at least holds what the windows from the start on need. */
  lemma FullStartFits(cfg: Config, b: Bucket, times: seq<real>)
    requires cfg.refill >= 0.0 && b.tokens == cfg.maxTokens && WindowsFit(cfg, times)
    requires times != [] ==> b.lastUpdate <= times[0]
    ensures StartFits(cfg, b, times)
  {
    forall j: nat | j < |times| ensures Gain(cfg, times[0], times[j]) <= Gain(cfg, b.lastUpdate, times[j]) {
      GainMonotone(cfg, times[0], times[j], b.lastUpdate, times[j]);
    }
    hide Gain;
  }

  /**
   The converse of the rate bound: a client without a record, which is created no later than its first reading,
   has all its requests allowed exactly if every window of its readings stays within the bound.
   */
  lemma NewClientServedIff(cfg: Config, limits: map<string, Bucket>, rs: seq<Request>, client: string)
    requires cfg.refill >= 0.0 && client !in limits
    requires TimesOf(rs, client) != [] ==> StartOf(cfg, limits, rs, client).lastUpdate <= TimesOf(rs, client)[0]
    ensures ServesAll(cfg, limits, rs, client) <==> WindowsFit(cfg, TimesOf(rs, client))
  {
    hide *;
    ServedIff(cfg, limits, rs, client);
    NewClientStart(cfg, limits, rs, client);
    if WindowsFit(cfg, TimesOf(rs, client)) {
      FullStartFits(cfg, StartOf(cfg, limits, rs, client), TimesOf(rs, client));
    }
  }

  // ---------------------------------------------------------------- new clients

  /** The client's bucket is in range in every state of the run in which it has one. */
  ghost predicate ClientStaysFull(cfg: Config, limits: map<string, Bucket>, rs: seq<Request>, client: string) {
    forall n: nat :: n <= |rs| && client in ServeAll(cfg, limits, rs[..n]) ==>
      Full(cfg, ServeAll(cfg, limits, rs[..n])[client])
  }

  /** The readings of a prefix of the run are a prefix of the readings. */
  lemma {:induction false} TimesPrefix(rs: seq<Request>, client: string, n: nat)
    requires n <= |rs|
    ensures TimesOf(rs[..n], client) <= TimesOf(rs, client)
    decreases |rs| - n
  {
    if n < |rs| {
      TimesPrefix(rs, client, n + 1);
      assert rs[..n + 1][..n] == rs[..n];
    } else {
      assert rs[..n] == rs;
    }
  }

  /** Every prefix of the readings is that of a prefix of the run. */
  lemma {:induction false} PrefixOfTimes(rs: seq<Request>, client: string, m: nat) returns (n: nat)
    requires m <= |TimesOf(rs, client)|
    ensures n <= |rs| && TimesOf(rs[..n], client) == TimesOf(rs, client)[..m]
  {
    if m == |TimesOf(rs, client)| {
      n := |rs|;
      assert rs[..n] == rs;
    } else {
      var l := |rs| - 1;
      n := PrefixOfTimes(rs[..l], client, m);
      assert rs[..l][..n] == rs[..n];
    }
  }

  lemma {:induction false} StartOfPrefixes(cfg: Config, limits: map<string, Bucket>, rs: seq<Request>, client: string,
                                           n: nat)
    requires n <= |rs| && (client in limits || TimesOf(rs[..n], client) != [])
    ensures StartOf(cfg, limits, rs[..n], client) == StartOf(cfg, limits, rs, client)
    decreases |rs| - n
  {
    if n < |rs| {
      assert rs[..n + 1] == rs[..n] + [rs[n]];
      RunSnoc(cfg, limits, rs[..n], rs[n], client, 0.0, 0.0);
      StartOfPrefix(cfg, limits, rs[..n], rs[n], client);
      StartOfPrefixes(cfg, limits, rs, client, n + 1);
    } else {
      assert rs[..n] == rs;
    }
  }

  /** A client's bucket in a state of the run is the bucket behind its readings so far. */
  lemma BucketInRun(cfg: Config, limits: map<string, Bucket>, rs: seq<Request>, client: string, n: nat)
    requires n <= |rs|
    ensures var now, times := ServeAll(cfg, limits, rs[..n]), TimesOf(rs[..n], client);
            && (client in now <==> client in limits || times != [])
            && (client in now ==> now[client] == After(cfg, StartOf(cfg, limits, rs, client), times))
  {
    Independent(cfg, limits, rs[..n], client, 0.0, 0.0);
    hide StartOf, TimesOf, ServeAll, CountAllIn, CountIn, After;
    if client in limits || TimesOf(rs[..n], client) != [] {
      StartOfPrefixes(cfg, limits, rs, client, n);
    }
  }

  lemma {:induction false} NewClientStart(cfg: Config, limits: map<string, Bucket>, rs: seq<Request>, client: string)
    requires client !in limits
    ensures StartOf(cfg, limits, rs, client).tokens == cfg.maxTokens
    decreases |rs|
  {
    if rs != [] && rs[0].client != client {
      NewClientStart(cfg, limits, rs[1..], client);
    }
  }

  lemma InRunFromOwn(cfg: Config, limits: map<string, Bucket>, rs: seq<Request>, client: string, n: nat)
    requires client !in limits && n <= |rs| && client in ServeAll(cfg, limits, rs[..n])
    requires StaysFull(cfg, StartOf(cfg, limits, rs, client), TimesOf(rs, client))
    ensures Full(cfg, ServeAll(cfg, limits, rs[..n])[client])
  {
    hide StartOf, TimesOf, ServeAll, After, Full;
    BucketInRun(cfg, limits, rs, client, n);
    TimesPrefix(rs, client, n);
    var m := |TimesOf(rs[..n], client)|;
    assert TimesOf(rs[..n], client) == TimesOf(rs, client)[..m];
  }

  lemma OwnFromInRun(cfg: Config, limits: map<string, Bucket>, rs: seq<Request>, client: string, m: nat)
    requires client !in limits && 0 < m <= |TimesOf(rs, client)| && ClientStaysFull(cfg, limits, rs, client)
    ensures Full(cfg, After(cfg, StartOf(cfg, limits, rs, client), TimesOf(rs, client)[..m]))
  {
    hide StartOf, TimesOf, ServeAll, After, Full;
    var n := PrefixOfTimes(rs, client, m);
    BucketInRun(cfg, limits, rs, client, n);
  }

  /** What a run does to a new client's bucket is what its own requests do. */
  lemma OwnViewIff(cfg: Config, limits: map<string, Bucket>, rs: seq<Request>, client: string)
    requires client !in limits
    ensures ClientStaysFull(cfg, limits, rs, client)
       <==> StaysFull(cfg, StartOf(cfg, limits, rs, client), TimesOf(rs, client))
  {
    hide StartOf, TimesOf, ServeAll, After, Full;
    if StaysFull(cfg, StartOf(cfg, limits, rs, client), TimesOf(rs, client)) {
      forall n: nat | n <= |rs| && client in ServeAll(cfg, limits, rs[..n])
        ensures Full(cfg, ServeAll(cfg, limits, rs[..n])[client])
      {
        InRunFromOwn(cfg, limits, rs, client, n);
      }
    }
    if ClientStaysFull(cfg, limits, rs, client) {
      forall m: nat | 0 < m <= |TimesOf(rs, client)|
        ensures Full(cfg, After(cfg, StartOf(cfg, limits, rs, client), TimesOf(rs, client)[..m]))
      {
        OwnFromInRun(cfg, limits, rs, client, m);
      }
    }
  }

  /**
   A client without a record, over any run of any clients in which its own readings do not decrease: its
   bucket stays in range exactly if the refill of the time from its first reading to the creation of its
   record, which the code does in that order, is no more than the maximum.
   */
  lemma NewClientIff(cfg: Config, limits: map<string, Bucket>, rs: seq<Request>, client: string)
    requires cfg.refill >= 0.0 && cfg.maxTokens >= 0.0 && client !in limits
    requires TimesOf(rs, client) != [] && Nondecreasing(TimesOf(rs, client))
    ensures ClientStaysFull(cfg, limits, rs, client)
       <==> Debt(cfg, StartOf(cfg, limits, rs, client).lastUpdate, TimesOf(rs, client)[0]) <= cfg.maxTokens
  {
    NewClientStart(cfg, limits, rs, client);
    assert Full(cfg, StartOf(cfg, limits, rs, client));
    hide *;
    OwnViewIff(cfg, limits, rs, client);
    TokensWithinIff(cfg, StartOf(cfg, limits, rs, client), TimesOf(rs, client));
  }

  /** A record made half a second behind its request's reading leaves a new client deep in debt. */
  lemma NewClientInDebt()
    ensures Serve(Config(1.0, 1000.0), map[], Request("c", 0.0, 0.5)).0["c"].tokens == -499.0
  {
  }

  class RateLimiter {
    const cfg: Config
    var limits: map<string, Bucket>

    constructor (cfg: Config)
      ensures this.cfg == cfg && limits == map[]
    {
      this.cfg := cfg;
      limits := map[];
    }

    method CheckRateLimit(r: Request) returns (verdict: Verdict)
      modifies this
      ensures (limits, verdict) == Serve(cfg, old(limits), r)
    {
      var b := if r.client in limits then limits[r.client] else Bucket(cfg.maxTokens, r.created, 0);
      var elapsed := r.now - b.lastUpdate;
      assert Refilled(cfg, b, r.now) == Min(cfg.maxTokens, b.tokens + elapsed * cfg.refill);
      b := b.(tokens := Min(cfg.maxTokens, b.tokens + elapsed * cfg.refill), lastUpdate := r.now);
      if b.tokens >= 1.0 {
        limits := limits[r.client := b.(tokens := b.tokens - 1.0)];
        return Allowed;
      }
      limits := limits[r.client := b.(rejected := b.rejected + 1)];
      if cfg.refill == 0.0 {
        return Undefined;
      }
      return Limited((1.0 - b.tokens) / cfg.refill);
    }
  }
}

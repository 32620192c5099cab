/** The token bucket of internal/ratelimit/token_bucket.go, with float64 idealised to real
    and time.Time to a real number of seconds. */
module TokenBuckets {
  import opened Schedules
  import opened KeyedRegistries
  import opened Wrappers

  datatype Limits = Limits(maxTokens: real, refillRate: real)

  datatype Bucket = Bucket(tokens: real, lastRefill: real)

  /** The tokens that drip in between two instants. */
  function Accrued(l: Limits, from: real, to: real): real {
    (to - from) * l.refillRate
  }

  lemma AccruedSplits(l: Limits, a: real, b: real, c: real)
    ensures Accrued(l, a, c) == Accrued(l, a, b) + Accrued(l, b, c)
    ensures Accrued(l, a, a) == 0.0
    ensures l.refillRate >= 0.0 && a <= b ==> Accrued(l, a, b) >= 0.0
  {
  }

  function Full(l: Limits, now: real): Bucket {
    Bucket(l.maxTokens, now)
  }

  /** The balance Allow compares with one: what is left plus what has accrued, capped. */
  function Refill(l: Limits, b: Bucket, now: real): real {
    var raised := b.tokens + Accrued(l, b.lastRefill, now);
    if raised > l.maxTokens then l.maxTokens else raised
  }

  /** One request, with the decision left open so that a rival schedule can be charged too. */
  function Charge(l: Limits, b: Bucket, k: Tick, take: bool): Bucket {
    Bucket(Refill(l, b, k.since) - (if take then 1.0 else 0.0), k.stamp)
  }

  predicate Grants(l: Limits, b: Bucket, now: real) {
    Refill(l, b, now) >= 1.0
  }

  class TokenBucket {
    var tokens: real
    const maxTokens: real
    const refillRate: real
    var lastRefill: real

    function Limit(): Limits {
      Limits(maxTokens, refillRate)
    }

    function State(): Bucket
      reads this
    {
      Bucket(tokens, lastRefill)
    }

    constructor (maxTokens: real, refillRate: real, now: real)
      ensures Limit() == Limits(maxTokens, refillRate)
      ensures State() == Full(Limit(), now)
    {
      this.tokens := maxTokens;
      this.maxTokens := maxTokens;
      this.refillRate := refillRate;
      this.lastRefill := now;
    }

    method Allow(k: Tick) returns (ok: bool)
      modifies this
      ensures ok == Grants(Limit(), old(State()), k.since)
      ensures State() == Charge(Limit(), old(State()), k, ok)
    {
      ghost var before := State();
      var elapsed := k.since - lastRefill;
      tokens := tokens + elapsed * refillRate;
      assert tokens == before.tokens + Accrued(Limit(), before.lastRefill, k.since);
      if tokens > maxTokens {
        tokens := maxTokens;
      }
      lastRefill := k.stamp;
      if tokens >= 1.0 {
        tokens := tokens - 1.0;
        return true;
      }
      return false;
    }
  }

  /** One call to the registry: the clock read that dates a new bucket, then the two in Allow. */
  datatype Call = Call(born: real, tick: Tick)

  function BucketKind(l: Limits): Kind<Bucket, Call> {
    Kind((c: Call) => Full(l, c.born),
         (b: Bucket, c: Call) =>
           var ok := Grants(l, b, c.tick.since);
           (Charge(l, b, c.tick, ok), ok))
  }

  class BucketRegistry {
    var buckets: map<Key, TokenBucket>
    const maxTokens: real
    const refillRate: real

    function Limit(): Limits {
      Limits(maxTokens, refillRate)
    }

    /** Every bucket carries the registry's limits and no two keys share one. */
    ghost predicate Valid()
      reads this, buckets.Values
    {
      && (forall k | k in buckets :: buckets[k].Limit() == Limit())
      && (forall k, k' | k in buckets && k' in buckets && k != k' :: buckets[k] != buckets[k'])
    }

    ghost function View(): map<Key, Bucket>
      reads this, buckets.Values
    {
      map k | k in buckets :: buckets[k].State()
    }

    constructor (maxTokens: real, refillRate: real)
      ensures Valid() && View() == map[] && Limit() == Limits(maxTokens, refillRate)
    {
      this.buckets := map[];
      this.maxTokens := maxTokens;
      this.refillRate := refillRate;
    }

    method Allow(key: Key, c: Call) returns (ok: bool)
      requires Valid()
      modifies this, buckets.Values
      ensures Valid() && fresh(buckets.Values - old(buckets.Values))
      ensures (View(), ok) == Meet(BucketKind(Limit()), old(View()), Request(key, c))
    {
      ghost var before := View();
      if key !in buckets {
        var bucket := new TokenBucket(maxTokens, refillRate, c.born);
        buckets := buckets[key := bucket];
      }
      label found:
      var bucket := buckets[key];
      assert bucket.State() == if key in before then before[key] else Full(Limit(), c.born);
      ok := bucket.Allow(c.tick);
      assert View() == before[key := bucket.State()];
    }
  }

  // ---------------------------------------------------------------- whole traces

  /** The bucket after a trace, charged exactly where takes says. */
  function Charged(l: Limits, b: Bucket, ks: seq<Tick>, takes: seq<bool>): Bucket
    requires |ks| == |takes|
  {
    if ks == [] then b else
      var n := |ks| - 1;
      Charge(l, Charged(l, b, ks[..n], takes[..n]), ks[n], takes[n])
  }

  /** What Allow answers along a trace. */
  function Decisions(l: Limits, b: Bucket, ks: seq<Tick>): (ds: seq<bool>)
    ensures |ds| == |ks|
  {
    if ks == [] then [] else
      var n := |ks| - 1;
      var ds := Decisions(l, b, ks[..n]);
      ds + [Grants(l, Charged(l, b, ks[..n], ds), ks[n].since)]
  }

  /** What a bucket full at t0 answers when each call sees a single instant. */
  function Answers(l: Limits, t0: real, ts: seq<real>): (ds: seq<bool>)
    ensures |ds| == |ts|
  {
    Decisions(l, Full(l, t0), Instants(ts))
  }

  /** The requests among ts that a bucket full at t0 lets through. */
  function Accepted(l: Limits, t0: real, ts: seq<real>): seq<real> {
    Select(ts, Answers(l, t0, ts))
  }

  // ------------------------------------------------- exact characterisation (a = b)

  /** What the accepted requests from the i-th on leave available at t, had the bucket been full just before. */
  function Allowance(l: Limits, h: seq<real>, i: nat, t: real): real
    requires i < |h|
  {
    l.maxTokens + Accrued(l, h[i], t) - (|h| - i) as real
  }

  /** x is the least of maxTokens and every Allowance: a reading of the history alone. */
  ghost predicate IsBalance(l: Limits, h: seq<real>, t: real, x: real) {
    && x <= l.maxTokens
    && (forall i | 0 <= i < |h| :: x <= Allowance(l, h, i, t))
    && (x == l.maxTokens || exists i | 0 <= i < |h| :: x == Allowance(l, h, i, t))
  }

  /** Every run of n accepted requests spanning d seconds has n <= maxTokens + refillRate * d. */
  ghost predicate Conforms(l: Limits, h: seq<real>) {
    forall i, j | 0 <= i <= j < |h| :: (j - i + 1) as real <= l.maxTokens + Accrued(l, h[i], h[j])
  }

  ghost predicate Starts(t0: real, ts: seq<real>) {
    Sorted(ts) && forall i | 0 <= i < |ts| :: t0 <= ts[i]
  }

  /** A bucket full at t0, charged at single instants. */
  function Held(l: Limits, t0: real, ts: seq<real>, takes: seq<bool>): Bucket
    requires |ts| == |takes|
  {
    Charged(l, Full(l, t0), Instants(ts), takes)
  }

  lemma HeldSnoc(l: Limits, t0: real, ts: seq<real>, takes: seq<bool>)
    requires |ts| == |takes| > 0
    ensures var n := |ts| - 1;
            Held(l, t0, ts, takes)
            == Bucket(Refill(l, Held(l, t0, ts[..n], takes[..n]), ts[n]) - (if takes[n] then 1.0 else 0.0), ts[n])
  {
    InstantsSnoc(ts);
  }

  lemma StartsPrefix(t0: real, ts: seq<real>, t: real)
    requires Starts(t0, ts + [t])
    ensures Starts(t0, ts) && t0 <= t && (ts != [] ==> ts[|ts| - 1] <= t)
    ensures ts != [] ==> Starts(t0, ts[..|ts| - 1] + [ts[|ts| - 1]])
  {
    var s := ts + [t];
    assert s[|ts|] == t;
    assert forall i | 0 <= i < |ts| :: s[i] == ts[i];
    if ts != [] {
      assert ts[..|ts| - 1] + [ts[|ts| - 1]] == ts;
    }
  }

  /** The accepted history pins the balance down, wherever requests were denied in between
      and whenever the bucket was made. */
  lemma {:induction false} BalanceIsReadOffTheHistory(l: Limits, t0: real, ts: seq<real>, takes: seq<bool>, t: real)
    requires l.refillRate >= 0.0 && |ts| == |takes| && Starts(t0, ts + [t])
    ensures IsBalance(l, Select(ts, takes), t, Refill(l, Held(l, t0, ts, takes), t))
  {
    StartsPrefix(t0, ts, t);
    if ts == [] {
      AccruedSplits(l, t0, t, t);
    } else {
      var n := |ts| - 1;
      BalanceIsReadOffTheHistory(l, t0, ts[..n], takes[..n], ts[n]);
      HeldSnoc(l, t0, ts, takes);
      BalanceStep(l, Select(ts[..n], takes[..n]), ts[n], Refill(l, Held(l, t0, ts[..n], takes[..n]), ts[n]),
                  takes[n], t);
      SelectSplit(ts, takes);
    }
  }

  /** One request at u followed by waiting until t, on the history side. */
  lemma BalanceStep(l: Limits, h: seq<real>, u: real, x: real, take: bool, t: real)
    requires l.refillRate >= 0.0 && u <= t && IsBalance(l, h, u, x)
    ensures IsBalance(l, h + (if take then [u] else []), t,
                      Refill(l, Bucket(x - (if take then 1.0 else 0.0), u), t))
  {
    var gain := Accrued(l, u, t);
    AccruedSplits(l, u, t, t);
    var h' := h + (if take then [u] else []);
    var cost := if take then 1.0 else 0.0;
    forall i | 0 <= i < |h| ensures Allowance(l, h', i, t) == Allowance(l, h, i, u) + gain - cost {
      AccruedSplits(l, h[i], u, t);
    }
    if take {
      assert Allowance(l, h', |h|, t) == l.maxTokens + gain - 1.0;
    }
    var y := Refill(l, Bucket(x - cost, u), t);
    if y != l.maxTokens {
      assert y == x - cost + gain;
      if x == l.maxTokens {
        assert take && y == Allowance(l, h', |h|, t);
      } else {
        var i :| 0 <= i < |h| && x == Allowance(l, h, i, u);
        assert y == Allowance(l, h', i, t);
      }
    }
  }

  /** Conforms can be checked one new request at a time. */
  lemma ConformsSnoc(l: Limits, h: seq<real>, t: real, x: real)
    requires Conforms(l, h) && IsBalance(l, h, t, x)
    ensures x >= 1.0 <==> Conforms(l, h + [t])
  {
    var h' := h + [t];
    if x >= 1.0 {
      forall i, j | 0 <= i <= j < |h'|
        ensures (j - i + 1) as real <= l.maxTokens + Accrued(l, h'[i], h'[j])
      {
        if j == |h| && i < |h| {
          assert x <= Allowance(l, h, i, t);
        } else if j < |h| {
          assert h'[i] == h[i] && h'[j] == h[j];
        }
      }
    }
    if Conforms(l, h') {
      assert h'[|h|] == t;
      assert 1.0 <= l.maxTokens + Accrued(l, h'[|h|], h'[|h|]);
      forall i | 0 <= i < |h| ensures Allowance(l, h, i, t) >= 1.0 {
        assert h'[i] == h[i];
        assert (|h| - i + 1) as real <= l.maxTokens + Accrued(l, h'[i], h'[|h|]);
      }
    }
  }

  /** Under any charging that conformed so far, a token is there exactly when one more charge would still conform. */
  lemma BalanceDecides(l: Limits, t0: real, ts: seq<real>, takes: seq<bool>, t: real)
    requires l.refillRate >= 0.0 && |ts| == |takes| && Starts(t0, ts + [t]) && Conforms(l, Select(ts, takes))
    ensures Grants(l, Held(l, t0, ts, takes), t) <==> Conforms(l, Select(ts, takes) + [t])
  {
    BalanceIsReadOffTheHistory(l, t0, ts, takes, t);
    ConformsSnoc(l, Select(ts, takes), t, Refill(l, Held(l, t0, ts, takes), t));
  }

  lemma {:induction false} AcceptedConforms(l: Limits, t0: real, ts: seq<real>)
    requires l.refillRate >= 0.0 && Starts(t0, ts)
    ensures Conforms(l, Accepted(l, t0, ts))
  {
    if ts != [] {
      var n := |ts| - 1;
      AcceptedConforms(l, t0, ts[..n]);
      AllowIsExact(l, t0, ts[..n], ts[n]);
      AnswersSnoc(l, t0, ts);
      AcceptedSnoc(l, t0, ts);
    }
  }

  lemma AnswersSnoc(l: Limits, t0: real, ts: seq<real>)
    requires ts != []
    ensures var n := |ts| - 1;
            var ds := Answers(l, t0, ts[..n]);
            Answers(l, t0, ts) == ds + [Grants(l, Held(l, t0, ts[..n], ds), ts[n])]
  {
    InstantsSnoc(ts);
  }

  lemma AcceptedSnoc(l: Limits, t0: real, ts: seq<real>)
    requires ts != []
    ensures var n := |ts| - 1;
            Accepted(l, t0, ts) == Accepted(l, t0, ts[..n]) + (if Answers(l, t0, ts)[n] then [ts[n]] else [])
  {
    AnswersSnoc(l, t0, ts);
  }

  /** Allow answers true exactly when the request keeps every interval of the accepted
      history within the burst plus what accrues over it. */
  lemma AllowIsExact(l: Limits, t0: real, ts: seq<real>, t: real)
    requires l.refillRate >= 0.0 && Starts(t0, ts + [t]) && Conforms(l, Accepted(l, t0, ts))
    ensures Grants(l, Held(l, t0, ts, Answers(l, t0, ts)), t)
            <==> Conforms(l, Accepted(l, t0, ts) + [t])
  {
    BalanceDecides(l, t0, ts, Answers(l, t0, ts), t);
  }

  ghost predicate StillConforms(l: Limits, h: seq<real>, t: real) {
    Conforms(l, h + [t])
  }

  /** The reference: admit a request exactly when the history stays conforming. It has no
      balance, no refill and no creation time. */
  ghost function GreedyAnswers(l: Limits, ts: seq<real>): (ds: seq<bool>)
    ensures |ds| == |ts|
  {
    HistoryAnswers((h, t) => StillConforms(l, h, t), ts)
  }

  lemma {:induction false} AnswersAreGreedy(l: Limits, t0: real, ts: seq<real>)
    requires l.refillRate >= 0.0 && Starts(t0, ts)
    ensures Answers(l, t0, ts) == GreedyAnswers(l, ts)
  {
    if ts != [] {
      var n := |ts| - 1;
      assert ts[..n] + [ts[n]] == ts;
      AnswersAreGreedy(l, t0, ts[..n]);
      AcceptedConforms(l, t0, ts[..n]);
      AllowIsExact(l, t0, ts[..n], ts[n]);
      AnswersSnoc(l, t0, ts);
      AcceptedSnoc(l, t0, ts);
    }
  }

  /** A bucket made lazily at first use decides like one made full at startup. */
  lemma LazyDecidesLikeEager(l: Limits, startup: real, born: real, ts: seq<real>)
    requires l.refillRate >= 0.0 && startup <= born && Starts(born, ts)
    ensures Answers(l, startup, ts) == Answers(l, born, ts)
  {
    AnswersAreGreedy(l, startup, ts);
    AnswersAreGreedy(l, born, ts);
  }

  lemma StartsSelect(t0: real, ts: seq<real>, keep: seq<bool>)
    requires Starts(t0, ts) && |keep| == |ts|
    ensures Starts(t0, Select(ts, keep))
  {
    SelectSorted(ts, keep);
    SelectOnlyFrom(ts, keep);
    forall i | 0 <= i < |Select(ts, keep)| ensures t0 <= Select(ts, keep)[i] {
      assert Select(ts, keep)[i] in ts;
    }
  }

  /** Dropping denied requests from the trace changes no other decision. */
  lemma DenialsAreFree(l: Limits, t0: real, ts: seq<real>, keep: seq<bool>)
    requires l.refillRate >= 0.0 && Starts(t0, ts) && |keep| == |ts|
    requires forall i | 0 <= i < |ts| :: Answers(l, t0, ts)[i] ==> keep[i]
    ensures Answers(l, t0, Select(ts, keep)) == Select(Answers(l, t0, ts), keep)
  {
    StartsSelect(t0, ts, keep);
    AnswersAreGreedy(l, t0, ts);
    AnswersAreGreedy(l, t0, Select(ts, keep));
    HistoryForgetsDenials((h, t) => StillConforms(l, h, t), ts, keep);
  }

  // ------------------------------------------------------------- greedy optimality

  /** Among all conforming ways of picking requests out of the trace, none has its k-th
      request earlier than the k-th one Allow accepts, and none has more of them. */
  lemma AllowIsOptimal(l: Limits, t0: real, ts: seq<real>, pick: seq<bool>)
    requires l.refillRate >= 0.0 && Starts(t0, ts) && |pick| == |ts|
    requires Conforms(l, Select(ts, pick))
    ensures NoLater(Accepted(l, t0, ts), Select(ts, pick))
  {
    StaysAhead(l, t0, ts, pick);
  }

  /** The rival's bucket is ahead by no more than the number of requests it is behind. */
  lemma {:induction false} StaysAhead(l: Limits, t0: real, ts: seq<real>, pick: seq<bool>)
    requires l.refillRate >= 0.0 && Starts(t0, ts) && |pick| == |ts|
    requires Conforms(l, Select(ts, pick))
    ensures NoLater(Accepted(l, t0, ts), Select(ts, pick))
    ensures var ours, theirs := Held(l, t0, ts, Answers(l, t0, ts)), Held(l, t0, ts, pick);
            && ours.lastRefill == theirs.lastRefill == (if ts == [] then t0 else ts[|ts| - 1])
            && theirs.tokens - ours.tokens <= (|Accepted(l, t0, ts)| - |Select(ts, pick)|) as real
  {
    if ts != [] {
      var n := |ts| - 1;
      var t, front := ts[n], ts[..n];
      var p, c := Select(front, pick[..n]), Accepted(l, t0, front);
      SelectSplit(ts, pick);
      assert Conforms(l, p) by { ConformsPrefix(l, p, Select(ts, pick)); }
      StaysAhead(l, t0, front, pick[..n]);
      assert pick[n] ==> Grants(l, Held(l, t0, front, pick[..n]), t) by {
        RivalCanPay(l, t0, ts, pick);
      }
      AnswersSnoc(l, t0, ts);
      AcceptedSnoc(l, t0, ts);
      HeldSnoc(l, t0, ts, pick);
      HeldSnoc(l, t0, ts, Answers(l, t0, ts));
      LeadKept(l, Held(l, t0, front, Answers(l, t0, front)), Held(l, t0, front, pick[..n]), t, |c| - |p|, pick[n]);
      assert forall x | x in c :: x <= t by {
        SelectOnlyFrom(front, Answers(l, t0, front));
      }
      NoLaterSnoc(c, p, t, Answers(l, t0, ts)[n], pick[n]);
    }
  }

  lemma RivalCanPay(l: Limits, t0: real, ts: seq<real>, pick: seq<bool>)
    requires l.refillRate >= 0.0 && Starts(t0, ts) && |pick| == |ts| > 0
    requires Conforms(l, Select(ts, pick))
    ensures var n := |ts| - 1;
            pick[n] ==> Grants(l, Held(l, t0, ts[..n], pick[..n]), ts[n])
  {
    var n := |ts| - 1;
    var front, p := ts[..n], Select(ts[..n], pick[..n]);
    SelectSplit(ts, pick);
    assert Conforms(l, p) by { ConformsPrefix(l, p, Select(ts, pick)); }
    assert front + [ts[n]] == ts;
    if pick[n] {
      BalanceDecides(l, t0, front, pick[..n], ts[n]);
    }
  }

  /** One request seen by both buckets. */
  lemma LeadKept(l: Limits, ours: Bucket, theirs: Bucket, t: real, lead: int, take: bool)
    requires l.refillRate >= 0.0 && ours.lastRefill == theirs.lastRefill <= t
    requires lead >= 0 && theirs.tokens - ours.tokens <= lead as real
    requires take ==> Grants(l, theirs, t)
    ensures var ok := Grants(l, ours, t);
            var lead' := lead + (if ok then 1 else 0) - (if take then 1 else 0);
            && lead' >= 0
            && (Refill(l, theirs, t) - if take then 1.0 else 0.0)
               - (Refill(l, ours, t) - if ok then 1.0 else 0.0) <= lead' as real
  {
    AccruedSplits(l, ours.lastRefill, t, t);
  }

  lemma ConformsPrefix(l: Limits, p: seq<real>, h: seq<real>)
    requires p <= h && Conforms(l, h)
    ensures Conforms(l, p)
  {
    forall i, j | 0 <= i <= j < |p| ensures (j - i + 1) as real <= l.maxTokens + Accrued(l, p[i], p[j]) {
      assert p[i] == h[i] && p[j] == h[j];
    }
  }

  // -------------------------------------------------- two clock reads in every call

  function Count(ds: seq<bool>): nat {
    if ds == [] then 0 else Count(ds[..|ds| - 1]) + (if ds[|ds| - 1] then 1 else 0)
  }

  /** The balance never leaves the bucket, whatever the clock does between its two reads. */
  lemma {:induction false} BalanceInRange(l: Limits, t0: real, ks: seq<Tick>)
    requires l.refillRate >= 0.0 && l.maxTokens >= 0.0
    requires Monotone([Tick(t0, t0)] + ks)
    ensures 0.0 <= Charged(l, Full(l, t0), ks, Decisions(l, Full(l, t0), ks)).tokens <= l.maxTokens
  {
    if ks != [] {
      var n := |ks| - 1;
      var k0 := [Tick(t0, t0)] + ks;
      assert [Tick(t0, t0)] + ks[..n] == k0[..n + 1];
      BalanceInRange(l, t0, ks[..n]);
      var b := Charged(l, Full(l, t0), ks[..n], Decisions(l, Full(l, t0), ks[..n]));
      assert b.lastRefill == k0[n].stamp <= k0[n + 1].since == ks[n].since;
      AccruedSplits(l, b.lastRefill, ks[n].since, ks[n].since);
    }
  }

  /** Requests i to j let through at most the burst plus what accrues between their first reads. */
  lemma BurstBound(l: Limits, t0: real, ks: seq<Tick>, i: nat, j: nat)
    requires l.refillRate >= 0.0 && l.maxTokens >= 0.0
    requires Monotone([Tick(t0, t0)] + ks) && i <= j < |ks|
    ensures Count(Decisions(l, Full(l, t0), ks)[i..j + 1]) as real
            <= l.maxTokens + Accrued(l, ks[i].since, ks[j].since)
  {
    var early := ks[..j + 1];
    assert [Tick(t0, t0)] + early == ([Tick(t0, t0)] + ks)[..j + 2];
    SpentSince(l, t0, early, i);
    BalanceInRange(l, t0, early);
    DecisionsPrefix(l, Full(l, t0), ks, j + 1);
  }

  lemma RefillGains(l: Limits, b: Bucket, since: real, t: real)
    requires l.refillRate >= 0.0 && since <= b.lastRefill
    ensures Refill(l, b, t) <= b.tokens + Accrued(l, since, t)
  {
    AccruedSplits(l, since, b.lastRefill, t);
  }

  lemma {:induction false} SpentSince(l: Limits, t0: real, ks: seq<Tick>, i: nat)
    requires l.refillRate >= 0.0 && Monotone([Tick(t0, t0)] + ks) && i < |ks|
    ensures var ds := Decisions(l, Full(l, t0), ks);
            Count(ds[i..]) as real + Charged(l, Full(l, t0), ks, ds).tokens
            <= l.maxTokens + Accrued(l, ks[i].since, ks[|ks| - 1].since)
  {
    var n := |ks| - 1;
    var ds := Decisions(l, Full(l, t0), ks);
    var b := Charged(l, Full(l, t0), ks[..n], ds[..n]);
    assert Count(ds[i..]) == Count(ds[..n][i..]) + (if ds[n] then 1 else 0) by {
      assert ds[i..][..n - i] == ds[..n][i..];
    }
    assert Charged(l, Full(l, t0), ks, ds) == Charge(l, b, ks[n], ds[n]);
    if i < n {
      var k0 := [Tick(t0, t0)] + ks;
      assert [Tick(t0, t0)] + ks[..n] == k0[..n + 1];
      SpentSince(l, t0, ks[..n], i);
      assert k0[n].since <= k0[n].stamp == b.lastRefill;
      RefillGains(l, b, ks[n - 1].since, ks[n].since);
      AccruedSplits(l, ks[i].since, ks[n - 1].since, ks[n].since);
    } else {
      AccruedSplits(l, ks[n].since, ks[n].since, ks[n].since);
    }
  }

  lemma {:induction false} DecisionsPrefix(l: Limits, b: Bucket, ks: seq<Tick>, n: nat)
    requires n <= |ks|
    ensures Decisions(l, b, ks)[..n] == Decisions(l, b, ks[..n])
  {
    if n < |ks| {
      assert ks[..|ks| - 1][..n] == ks[..n];
      DecisionsPrefix(l, b, ks[..|ks| - 1], n);
    } else {
      assert ks[..n] == ks;
    }
  }

  function FirstReads(ks: seq<Tick>): (r: seq<Tick>)
    ensures |r| == |ks| && forall i | 0 <= i < |ks| :: r[i] == Tick(ks[i].since, ks[i].since)
  {
    seq(|ks|, i requires 0 <= i < |ks| => Tick(ks[i].since, ks[i].since))
  }

  /** What accrues between the two reads is lost: charged alike, the bucket holds no more
      than one that reads the clock once per call. */
  lemma {:induction false} SecondReadOnlyTightens(l: Limits, t0: real, ks: seq<Tick>, takes: seq<bool>)
    requires l.refillRate >= 0.0 && Monotone([Tick(t0, t0)] + ks) && |takes| == |ks|
    ensures Charged(l, Full(l, t0), ks, takes).tokens <= Charged(l, Full(l, t0), FirstReads(ks), takes).tokens
  {
    if ks != [] {
      var n := |ks| - 1;
      var k0 := [Tick(t0, t0)] + ks;
      assert [Tick(t0, t0)] + ks[..n] == k0[..n + 1];
      SecondReadOnlyTightens(l, t0, ks[..n], takes[..n]);
      assert FirstReads(ks)[..n] == FirstReads(ks[..n]);
      assert k0[n].since <= k0[n].stamp <= k0[n + 1].since;
      AccruedSplits(l, k0[n].since, k0[n].stamp, ks[n].since);
    }
  }

  // ------------------------------------------- exact characterisation, with two clock reads

  /** The time between the two reads of every request after the i-th. */
  function Lost(ks: seq<Tick>, i: nat): real
    requires i < |ks|
  {
    var n := |ks| - 1;
    if i == n then 0.0 else Lost(ks[..n], i) + (ks[n].stamp - ks[n].since)
  }

  /** The time that counts from the second read of the i-th request until t. */
  function Waited(ks: seq<Tick>, i: nat, t: real): real
    requires i < |ks|
  {
    t - ks[i].stamp - Lost(ks, i)
  }

  /** What the requests from the i-th on leave, had the bucket been full at the i-th. */
  function Left(l: Limits, ks: seq<Tick>, takes: seq<bool>, i: nat, t: real): real
    requires i < |ks| == |takes|
  {
    l.maxTokens + Waited(ks, i, t) * l.refillRate - Count(takes[i..]) as real
  }

  /** x is the least of maxTokens and what every request leaves: a reading of the clock reads and of
      which requests took a token. */
  ghost predicate IsTwoReadBalance(l: Limits, ks: seq<Tick>, takes: seq<bool>, t: real, x: real)
    requires |ks| == |takes|
  {
    && x <= l.maxTokens
    && (forall i | 0 <= i < |ks| :: x <= Left(l, ks, takes, i, t))
    && (x == l.maxTokens || exists i | 0 <= i < |ks| :: x == Left(l, ks, takes, i, t))
  }

  lemma LeftSnoc(l: Limits, ks: seq<Tick>, takes: seq<bool>, i: nat, t: real)
    requires i < |ks| == |takes|
    ensures var n := |ks| - 1;
            var gain, cost := Accrued(l, ks[n].stamp, t), if takes[n] then 1.0 else 0.0;
            Left(l, ks, takes, i, t) ==
            (if i == n then l.maxTokens else Left(l, ks[..n], takes[..n], i, ks[n].since)) + gain - cost
  {
    var n := |ks| - 1;
    if i == n {
      assert takes[n..] == [takes[n]] && Count(takes[n..][..0]) == 0;
    } else {
      assert takes[i..][..n - i] == takes[..n][i..];
      WaitedSplits(l, ks, i, t);
    }
  }

  lemma WaitedSplits(l: Limits, ks: seq<Tick>, i: nat, t: real)
    requires i < |ks| - 1
    ensures var n := |ks| - 1;
            Waited(ks, i, t) * l.refillRate
            == Waited(ks[..n], i, ks[n].since) * l.refillRate + Accrued(l, ks[n].stamp, t)
  {
    var n := |ks| - 1;
    assert Waited(ks, i, t) == Waited(ks[..n], i, ks[n].since) + (t - ks[n].stamp);
  }

  /** However requests are charged and whatever the clock does between its two reads, the balance is
      the one the clock reads and the charges give. */
  lemma {:induction false} TwoReadBalance(l: Limits, t0: real, ks: seq<Tick>, takes: seq<bool>, t: real)
    requires l.refillRate >= 0.0 && |ks| == |takes|
    requires if ks == [] then t0 <= t else t0 <= ks[0].since
    ensures IsTwoReadBalance(l, ks, takes, t, Refill(l, Charged(l, Full(l, t0), ks, takes), t))
  {
    if ks == [] {
      AccruedSplits(l, t0, t, t);
    } else {
      var n := |ks| - 1;
      var b := Charged(l, Full(l, t0), ks[..n], takes[..n]);
      TwoReadBalance(l, t0, ks[..n], takes[..n], ks[n].since);
      TwoReadStep(l, ks, takes, t, Refill(l, b, ks[n].since));
    }
  }

  lemma TwoReadStep(l: Limits, ks: seq<Tick>, takes: seq<bool>, t: real, x: real)
    requires |ks| == |takes| > 0
    requires var n := |ks| - 1; IsTwoReadBalance(l, ks[..n], takes[..n], ks[n].since, x)
    ensures var n := |ks| - 1;
            var b := Bucket(x - (if takes[n] then 1.0 else 0.0), ks[n].stamp);
            IsTwoReadBalance(l, ks, takes, t, Refill(l, b, t))
  {
    var n := |ks| - 1;
    var gain, cost := Accrued(l, ks[n].stamp, t), if takes[n] then 1.0 else 0.0;
    var raised := x - cost + gain;
    forall i | 0 <= i < |ks| ensures raised <= Left(l, ks, takes, i, t) {
      LeftSnoc(l, ks, takes, i, t);
    }
    if x == l.maxTokens {
      LeftSnoc(l, ks, takes, n, t);
      assert raised == Left(l, ks, takes, n, t);
    } else {
      var i :| 0 <= i < n && x == Left(l, ks[..n], takes[..n], i, ks[n].since);
      LeftSnoc(l, ks, takes, i, t);
      assert raised == Left(l, ks, takes, i, t);
    }
  }

  /** The request finds room from the i-th request on: its token and those taken since are within the
      capacity and what the counted time brings. */
  ghost predicate RoomSince(l: Limits, ks: seq<Tick>, takes: seq<bool>, i: nat, t: real)
    requires i < |ks| == |takes|
  {
    Count(takes[i..]) as real + 1.0 <= l.maxTokens + Waited(ks, i, t) * l.refillRate
  }

  lemma RoomIsAToken(l: Limits, ks: seq<Tick>, takes: seq<bool>, i: nat, t: real)
    requires i < |ks| == |takes|
    ensures RoomSince(l, ks, takes, i, t) <==> Left(l, ks, takes, i, t) >= 1.0
  {
  }

  lemma OneIsLeft(l: Limits, ks: seq<Tick>, takes: seq<bool>, t: real, x: real)
    requires |ks| == |takes| && IsTwoReadBalance(l, ks, takes, t, x)
    ensures x >= 1.0 <==> 1.0 <= l.maxTokens && forall i | 0 <= i < |ks| :: RoomSince(l, ks, takes, i, t)
  {
    forall i | 0 <= i < |ks| ensures RoomSince(l, ks, takes, i, t) <==> Left(l, ks, takes, i, t) >= 1.0 {
      RoomIsAToken(l, ks, takes, i, t);
    }
    if x < 1.0 && x != l.maxTokens {
      var i :| 0 <= i < |ks| && x == Left(l, ks, takes, i, t);
      assert !RoomSince(l, ks, takes, i, t);
    }
  }

  /** Allow answers true exactly when the capacity is a token and there is room from every request on. */
  lemma AllowIsExactWithTwoReads(l: Limits, t0: real, ks: seq<Tick>, takes: seq<bool>, t: real)
    requires l.refillRate >= 0.0 && |ks| == |takes|
    requires if ks == [] then t0 <= t else t0 <= ks[0].since
    ensures Grants(l, Charged(l, Full(l, t0), ks, takes), t) <==>
            1.0 <= l.maxTokens && forall i | 0 <= i < |ks| :: RoomSince(l, ks, takes, i, t)
  {
    TwoReadBalance(l, t0, ks, takes, t);
    OneIsLeft(l, ks, takes, t, Refill(l, Charged(l, Full(l, t0), ks, takes), t));
  }

  // ------------------------------------------------------------------ the registry

  ghost predicate SingleInstants(cs: seq<Call>, ts: seq<real>) {
    |cs| == |ts| && forall i | 0 <= i < |cs| :: cs[i].tick == Tick(ts[i], ts[i]) && cs[i].born <= ts[i]
  }

  function Ticks(cs: seq<Call>): (ks: seq<Tick>)
    ensures |ks| == |cs| && forall i | 0 <= i < |cs| :: ks[i] == cs[i].tick
  {
    seq(|cs|, i requires 0 <= i < |cs| => cs[i].tick)
  }

  lemma DecisionsSnoc(l: Limits, b0: Bucket, ks: seq<Tick>, k: Tick, ds: seq<bool>, b: Bucket)
    requires ds == Decisions(l, b0, ks) && b == Charged(l, b0, ks, ds)
    ensures var ok := Grants(l, b, k.since);
            Decisions(l, b0, ks + [k]) == ds + [ok] && Charged(l, b0, ks + [k], ds + [ok]) == Charge(l, b, k, ok)
  {
    assert (ks + [k])[..|ks|] == ks && (ds + [Grants(l, b, k.since)])[..|ds|] == ds;
  }

  /** One more call on a bucket of its own, made full at the call if it is the first. */
  lemma OneMoreAnswer(l: Limits, front: seq<Call>, c: Call, b: Bucket, ds: seq<bool>)
    requires Alone(BucketKind(l), front) == (if front == [] then None else Some(b), ds)
    requires front == [] ==> b == Full(l, c.born)
    ensures var ok := Grants(l, b, c.tick.since);
            Alone(BucketKind(l), front + [c]) == (Some(Charge(l, b, c.tick, ok)), ds + [ok])
  {
    AloneSnoc(BucketKind(l), front, c);
  }

  lemma {:induction false} AloneDecides(l: Limits, cs: seq<Call>)
    requires cs != []
    ensures var b0 := Full(l, cs[0].born);
            var ds := Decisions(l, b0, Ticks(cs));
            Alone(BucketKind(l), cs) == (Some(Charged(l, b0, Ticks(cs), ds)), ds)
  {
    var n := |cs| - 1;
    var front, b0 := cs[..n], Full(l, cs[0].born);
    var ds := Decisions(l, b0, Ticks(front));
    var b := Charged(l, b0, Ticks(front), ds);
    assert Alone(BucketKind(l), front) == (if front == [] then None else Some(b), ds) by {
      if n > 0 {
        AloneDecides(l, front);
      }
    }
    assert cs == front + [cs[n]] && Ticks(cs) == Ticks(front) + [cs[n].tick];
    OneMoreAnswer(l, front, cs[n], b, ds);
    DecisionsSnoc(l, b0, Ticks(front), cs[n].tick, ds, b);
  }

  /** Whatever the other keys do and whatever the clock does, a key's answers are those of one bucket
      made full at its first request and shown only that key's requests. */
  lemma RegistryKeyDecidesLikeABucket(l: Limits, rs: seq<Request<Call>>, key: Key)
    requires InputsOf(rs, key) != []
    ensures var cs := InputsOf(rs, key);
            Select(Serve(BucketKind(l), rs).1, ForKey(rs, key)) == Decisions(l, Full(l, cs[0].born), Ticks(cs))
  {
    KeysAreIsolated(BucketKind(l), rs, key);
    AloneDecides(l, InputsOf(rs, key));
  }

  /** With one instant per request, the bucket may as well have been made full at startup. */
  lemma RegistryKeyDecidesLikeItsOwnBucket(l: Limits, startup: real, rs: seq<Request<Call>>, key: Key, ts: seq<real>)
    requires l.refillRate >= 0.0 && SingleInstants(InputsOf(rs, key), ts) && Sorted(ts)
    requires InputsOf(rs, key) != [] ==> startup <= InputsOf(rs, key)[0].born
    ensures Select(Serve(BucketKind(l), rs).1, ForKey(rs, key)) == Answers(l, startup, ts)
  {
    var cs := InputsOf(rs, key);
    if cs != [] {
      RegistryKeyDecidesLikeABucket(l, rs, key);
      assert Ticks(cs) == Instants(ts);
      LazyDecidesLikeEager(l, startup, cs[0].born, ts);
    } else {
      KeysAreIsolated(BucketKind(l), rs, key);
    }
  }
}

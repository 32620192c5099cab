/** The sliding window of internal/ratelimit/sliding_window.go, with instants as real numbers. */
module SlidingWindows {
  import opened Schedules
  import opened KeyedRegistries

  /** The prefix-eviction loop, as a function. */
  function Evict(q: seq<real>, cutoff: real): seq<real> {
    if q != [] && q[0] < cutoff then Evict(q[1..], cutoff) else q
  }

  /** One call of Allow: the new queue and the answer. */
  function Admit(limit: int, window: real, q: seq<real>, k: Tick): (seq<real>, bool) {
    var kept := Evict(q, k.since - window);
    if |kept| >= limit then (kept, false) else (kept + [k.stamp], true)
  }

  class SlidingWindow {
    var timestamps: seq<real>
    const limit: int
    const window: real

    constructor (limit: int, window: real)
      ensures timestamps == [] && this.limit == limit && this.window == window
    {
      this.timestamps := [];
      this.limit := limit;
      this.window := window;
    }

    method Allow(k: Tick) returns (ok: bool)
      modifies this
      ensures (timestamps, ok) == Admit(limit, window, old(timestamps), k)
    {
      var cutoff := k.since - window;
      while |timestamps| > 0 && timestamps[0] < cutoff
        invariant Evict(timestamps, cutoff) == Evict(old(timestamps), cutoff)
        decreases |timestamps|
      {
        timestamps := timestamps[1..];
      }
      if |timestamps| >= limit {
        return false;
      }
      timestamps := timestamps + [k.stamp];
      return true;
    }
  }

  function WindowKind(limit: int, window: real): Kind<seq<real>, Tick> {
    Kind((k: Tick) => [], (q: seq<real>, k: Tick) => Admit(limit, window, q, k))
  }

  class Registry {
    var limiters: map<Key, SlidingWindow>
    const limit: int
    const window: real

    ghost predicate Valid()
      reads this, limiters.Values
    {
      && (forall k | k in limiters :: limiters[k].limit == limit && limiters[k].window == window)
      && (forall k, k' | k in limiters && k' in limiters && k != k' :: limiters[k] != limiters[k'])
    }

    ghost function View(): map<Key, seq<real>>
      reads this, limiters.Values
    {
      map k | k in limiters :: limiters[k].timestamps
    }

    constructor (limit: int, window: real)
      ensures Valid() && View() == map[] && this.limit == limit && this.window == window
    {
      this.limiters := map[];
      this.limit := limit;
      this.window := window;
    }

    method Allow(key: Key, k: Tick) returns (ok: bool)
      requires Valid()
      modifies this, limiters.Values
      ensures Valid() && fresh(limiters.Values - old(limiters.Values))
      ensures (View(), ok) == Meet(WindowKind(limit, window), old(View()), Request(key, k))
    {
      ghost var before := View();
      if key !in limiters {
        var sw := new SlidingWindow(limit, window);
        limiters := limiters[key := sw];
      }
      var sw := limiters[key];
      assert sw.timestamps == if key in before then before[key] else [];
      ok := sw.Allow(k);
      assert View() == before[key := sw.timestamps];
    }
  }

  // ---------------------------------------------------------------- whole traces

  /** The live queue, every acceptance ever recorded (nothing evicted), and the answers. */
  datatype Log = Log(queue: seq<real>, history: seq<real>, answers: seq<bool>)

  function Extend(limit: int, window: real, g: Log, k: Tick): Log {
    var kept := Evict(g.queue, k.since - window);
    if |kept| >= limit then Log(kept, g.history, g.answers + [false])
    else Log(kept + [k.stamp], g.history + [k.stamp], g.answers + [true])
  }

  function Run(limit: int, window: real, ks: seq<Tick>): (g: Log)
    ensures |g.answers| == |ks|
  {
    if ks == [] then Log([], [], []) else
      var n := |ks| - 1;
      Extend(limit, window, Run(limit, window, ks[..n]), ks[n])
  }

  function Stamps(ks: seq<Tick>): seq<real> {
    if ks == [] then [] else Stamps(ks[..|ks| - 1]) + [ks[|ks| - 1].stamp]
  }

  /** The entries of h no older than cutoff, in order. */
  function Recent(h: seq<real>, cutoff: real): (r: seq<real>)
    ensures |r| <= |h|
  {
    if h == [] then [] else
      var n := |h| - 1;
      Recent(h[..n], cutoff) + (if h[n] >= cutoff then [h[n]] else [])
  }

  // ------------------------------------------------- the queue is the recent history

  lemma {:induction false} RecentSplit(a: seq<real>, b: seq<real>, cutoff: real)
    ensures Recent(a + b, cutoff) == Recent(a, cutoff) + Recent(b, cutoff)
  {
    if b == [] {
      assert a + b == a;
    } else {
      var n := |b| - 1;
      assert (a + b)[..|a| + n] == a + b[..n];
      RecentSplit(a, b[..n], cutoff);
    }
  }

  lemma {:induction false} RecentAll(h: seq<real>, cutoff: real)
    requires forall i | 0 <= i < |h| :: h[i] >= cutoff
    ensures Recent(h, cutoff) == h
  {
    if h != [] {
      RecentAll(h[..|h| - 1], cutoff);
    }
  }

  lemma {:induction false} RecentAgain(h: seq<real>, earlier: real, cutoff: real)
    requires earlier <= cutoff
    ensures Recent(Recent(h, earlier), cutoff) == Recent(h, cutoff)
  {
    if h != [] {
      var n := |h| - 1;
      RecentAgain(h[..n], earlier, cutoff);
      RecentSplit(Recent(h[..n], earlier), if h[n] >= earlier then [h[n]] else [], cutoff);
    }
  }

  ghost predicate UpTo(q: seq<real>, top: real) {
    Sorted(q) && forall i | 0 <= i < |q| :: q[i] <= top
  }

  lemma {:induction false} EvictKeepsOrder(q: seq<real>, cutoff: real, top: real)
    requires UpTo(q, top)
    ensures UpTo(Evict(q, cutoff), top)
  {
    if q != [] && q[0] < cutoff {
      EvictKeepsOrder(q[1..], cutoff, top);
    }
  }

  /** On a sorted queue, evicting the stale prefix keeps exactly the recent entries. */
  lemma {:induction false} EvictIsFilter(q: seq<real>, cutoff: real)
    requires Sorted(q)
    ensures Evict(q, cutoff) == Recent(q, cutoff)
  {
    if q != [] && q[0] < cutoff {
      EvictIsFilter(q[1..], cutoff);
      RecentSplit(q[..1], q[1..], cutoff);
      assert q == q[..1] + q[1..] && Recent(q[..1], cutoff) == [];
    } else {
      RecentAll(q, cutoff);
    }
  }

  /** From cutoff on, the queue reads like the whole history; both are in order. */
  ghost predicate Faithful(g: Log, top: real, cutoff: real) {
    UpTo(g.queue, top) && UpTo(g.history, top) && Recent(g.queue, cutoff) == Recent(g.history, cutoff)
  }

  /** The queue right after eviction is exactly the recent part of the history. */
  lemma EvictionLeavesTheRecentHistory(g: Log, top: real, cutoff: real)
    requires Faithful(g, top, cutoff)
    ensures Evict(g.queue, cutoff) == Recent(g.history, cutoff)
  {
    EvictIsFilter(g.queue, cutoff);
  }

  /** Evicting the stale prefix keeps the queue in order and reading like the history. */
  lemma KeptReadsAlike(g: Log, top: real, stale: real, cutoff: real)
    requires Faithful(g, top, stale) && stale <= cutoff
    ensures UpTo(Evict(g.queue, stale), top) && Recent(Evict(g.queue, stale), cutoff) == Recent(g.history, cutoff)
  {
    EvictKeepsOrder(g.queue, stale, top);
    EvictionLeavesTheRecentHistory(g, top, stale);
    RecentAgain(g.history, stale, cutoff);
  }

  lemma OneMoreReadsAlike(q: seq<real>, h: seq<real>, top: real, stamp: real, cutoff: real)
    requires UpTo(q, top) && UpTo(h, top) && top <= stamp && Recent(q, cutoff) == Recent(h, cutoff)
    ensures UpTo(q, stamp) && UpTo(h, stamp)
    ensures UpTo(q + [stamp], stamp) && UpTo(h + [stamp], stamp)
    ensures Recent(q + [stamp], cutoff) == Recent(h + [stamp], cutoff)
  {
    UpToAppend(q, top, stamp);
    UpToAppend(h, top, stamp);
    AppendReadsAlike(q, h, stamp, cutoff);
  }

  lemma StaysFaithful(limit: int, window: real, g: Log, k: Tick, cutoff: real)
    requires k.since <= k.stamp && k.since - window <= cutoff
    requires Faithful(g, k.since, k.since - window)
    ensures Faithful(Extend(limit, window, g, k), k.stamp, cutoff)
  {
    KeptReadsAlike(g, k.since, k.since - window, cutoff);
    OneMoreReadsAlike(Evict(g.queue, k.since - window), g.history, k.since, k.stamp, cutoff);
  }

  lemma UpToAppend(q: seq<real>, top: real, stamp: real)
    requires UpTo(q, top) && top <= stamp
    ensures UpTo(q, stamp) && UpTo(q + [stamp], stamp)
  {
  }

  lemma AppendReadsAlike(q: seq<real>, h: seq<real>, stamp: real, cutoff: real)
    requires Recent(q, cutoff) == Recent(h, cutoff)
    ensures Recent(q + [stamp], cutoff) == Recent(h + [stamp], cutoff)
  {
    RecentSplit(q, [stamp], cutoff);
    RecentSplit(h, [stamp], cutoff);
  }

  /** The last request, if any, is over by top, and its cutoff was no later than cutoff. */
  ghost predicate EndsBy(ks: seq<Tick>, window: real, top: real, cutoff: real) {
    ks != [] ==> ks[|ks| - 1].stamp <= top && ks[|ks| - 1].since - window <= cutoff
  }

  lemma EndsByTheNext(ks: seq<Tick>, k: Tick, window: real)
    requires Monotone(ks + [k])
    ensures Monotone(ks) && k.since <= k.stamp && EndsBy(ks, window, k.since, k.since - window)
  {
    MonotonePrefix(ks, k);
  }

  /** Holds along every trace, whatever the clock does between the two reads of a call. */
  lemma {:induction false} QueueIsFaithful(limit: int, window: real, ks: seq<Tick>, top: real, cutoff: real)
    requires Monotone(ks) && EndsBy(ks, window, top, cutoff)
    ensures Faithful(Run(limit, window, ks), top, cutoff)
  {
    if ks != [] {
      var n := |ks| - 1;
      var k := ks[n];
      EndsByTheNext(ks[..n], k, window);
      assert ks[..n] + [k] == ks;
      QueueIsFaithful(limit, window, ks[..n], k.since, k.since - window);
      StaysFaithful(limit, window, Run(limit, window, ks[..n]), k, cutoff);
    }
  }

  lemma RunSnoc(limit: int, window: real, ks: seq<Tick>, k: Tick)
    ensures Run(limit, window, ks + [k]) == Extend(limit, window, Run(limit, window, ks), k)
  {
    assert (ks + [k])[..|ks|] == ks;
  }

  lemma QueueAtTheNextRequest(limit: int, window: real, ks: seq<Tick>, k: Tick)
    requires Monotone(ks + [k])
    ensures var g := Run(limit, window, ks);
            Evict(g.queue, k.since - window) == Recent(g.history, k.since - window)
  {
    var g := Run(limit, window, ks);
    assert Faithful(g, k.since, k.since - window) by {
      EndsByTheNext(ks, k, window);
      QueueIsFaithful(limit, window, ks, k.since, k.since - window);
    }
    EvictionLeavesTheRecentHistory(g, k.since, k.since - window);
  }

  lemma ExtendCounts(limit: int, window: real, g: Log, k: Tick, recent: seq<real>)
    requires Evict(g.queue, k.since - window) == recent
    ensures var g', ok := Extend(limit, window, g, k), |recent| < limit;
            g'.answers == g.answers + [ok] && g'.history == if ok then g.history + [k.stamp] else g.history
  {
  }

  /** A request is let through, and recorded, exactly when fewer than limit of all
      acceptances are no older than its cutoff. */
  lemma AnswerCountsTheHistory(limit: int, window: real, ks: seq<Tick>, k: Tick)
    requires Monotone(ks + [k])
    ensures var g, g' := Run(limit, window, ks), Run(limit, window, ks + [k]);
            var ok := |Recent(g.history, k.since - window)| < limit;
            && g'.answers == g.answers + [ok]
            && g'.history == if ok then g.history + [k.stamp] else g.history
  {
    var g := Run(limit, window, ks);
    QueueAtTheNextRequest(limit, window, ks, k);
    RunSnoc(limit, window, ks, k);
    ExtendCounts(limit, window, g, k, Recent(g.history, k.since - window));
  }

  lemma MonotonePrefix(ks: seq<Tick>, k: Tick)
    requires Monotone(ks + [k])
    ensures Monotone(ks) && k.since <= k.stamp
    ensures ks != [] ==> ks[|ks| - 1].since <= ks[|ks| - 1].stamp <= k.since
  {
    var all := ks + [k];
    assert all[|ks|] == k && forall i | 0 <= i < |ks| :: all[i] == ks[i];
  }

  lemma {:induction false} HistoryIsWhatWasAccepted(limit: int, window: real, ks: seq<Tick>)
    ensures Run(limit, window, ks).history == Stamps(Select(ks, Run(limit, window, ks).answers))
  {
    if ks != [] {
      var n := |ks| - 1;
      HistoryIsWhatWasAccepted(limit, window, ks[..n]);
      var g := Run(limit, window, ks);
      assert g.answers[..n] == Run(limit, window, ks[..n]).answers;
      SelectSplit(ks, g.answers);
      var front := Select(ks[..n], g.answers[..n]);
      assert (front + [ks[n]])[..|front|] == front;
    }
  }

  predicate HasRoom(limit: int, window: real, accepted: seq<Tick>, k: Tick) {
    |Recent(Stamps(accepted), k.since - window)| < limit
  }

  /** The reference limiter keeps no queue: it counts over the whole accepted history. */
  ghost function NaiveAnswers(limit: int, window: real, ks: seq<Tick>): (ds: seq<bool>)
    ensures |ds| == |ks|
  {
    HistoryAnswers((h, k) => HasRoom(limit, window, h, k), ks)
  }

  /** Evicting loses nothing: every answer is the one the reference gives. */
  lemma {:induction false} AllowCountsTheWholeHistory(limit: int, window: real, ks: seq<Tick>)
    requires Monotone(ks)
    ensures Run(limit, window, ks).answers == NaiveAnswers(limit, window, ks)
  {
    if ks != [] {
      var front, k := ks[..|ks| - 1], ks[|ks| - 1];
      assert front + [k] == ks;
      AllowCountsTheWholeHistory(limit, window, front);
      AnswerIsNaive(limit, window, front, k);
      NaiveAnswersSnoc(limit, window, front, k);
    }
  }

  lemma AnswerIsNaive(limit: int, window: real, ks: seq<Tick>, k: Tick)
    requires Monotone(ks + [k])
    ensures var ds := Run(limit, window, ks).answers;
            Run(limit, window, ks + [k]).answers == ds + [HasRoom(limit, window, Select(ks, ds), k)]
  {
    AnswerCountsTheHistory(limit, window, ks, k);
    HistoryIsWhatWasAccepted(limit, window, ks);
  }

  lemma NaiveAnswersSnoc(limit: int, window: real, ks: seq<Tick>, k: Tick)
    ensures var ds := NaiveAnswers(limit, window, ks);
            NaiveAnswers(limit, window, ks + [k]) == ds + [HasRoom(limit, window, Select(ks, ds), k)]
  {
    HistoryAnswersSnoc((h, k) => HasRoom(limit, window, h, k), ks, k);
  }

  // ------------------------------------------------------------------- the bound

  /** At most limit entries in every closed interval of length window. */
  ghost predicate Permits(limit: int, window: real, h: seq<real>) {
    forall i, j | 0 <= i <= j < |h| && h[j] - h[i] <= window :: j - i + 1 <= limit
  }

  /** On a sorted history the recent entries are a tail of it. */
  lemma {:induction false} RecentTail(h: seq<real>, cutoff: real, i: nat)
    requires Sorted(h) && i < |h|
    ensures h[i] >= cutoff <==> |h| - i <= |Recent(h, cutoff)|
  {
    var n := |h| - 1;
    if i < n {
      RecentTail(h[..n], cutoff, i);
    } else if n > 0 {
      RecentTail(h[..n], cutoff, n - 1);
    }
  }

  /** Whatever the clock does between its two reads, the recorded acceptances never crowd a window. */
  lemma {:induction false} WindowBound(limit: int, window: real, ks: seq<Tick>)
    requires Monotone(ks)
    ensures Permits(limit, window, Run(limit, window, ks).history)
  {
    if ks != [] {
      var n := |ks| - 1;
      var k, g := ks[n], Run(limit, window, ks[..n]);
      WindowBound(limit, window, ks[..n]);
      assert ks[..n] + [k] == ks;
      AnswerCountsTheHistory(limit, window, ks[..n], k);
      if |Recent(g.history, k.since - window)| < limit {
        QueueIsFaithful(limit, window, ks[..n], k.since, k.since - window);
        PermitsSnoc(limit, window, g.history, k);
      }
    }
  }

  lemma PermitsSnoc(limit: int, window: real, h: seq<real>, k: Tick)
    requires Permits(limit, window, h) && Sorted(h) && k.since <= k.stamp
    requires |Recent(h, k.since - window)| < limit
    ensures Permits(limit, window, h + [k.stamp])
  {
    var h' := h + [k.stamp];
    forall i, j | 0 <= i <= j < |h'| && h'[j] - h'[i] <= window ensures j - i + 1 <= limit {
      if j < |h| {
        assert h[j] - h[i] <= window;
      } else if i < |h| {
        RecentTail(h, k.since - window, i);
      }
    }
  }

  // ------------------------------------------------------------- greedy optimality

  /** The requests Allow lets through when each call sees a single instant. */
  function Accepted(limit: int, window: real, ts: seq<real>): seq<real> {
    Run(limit, window, Instants(ts)).history
  }

  /** No way of picking requests that respects every closed window has its k-th request
      earlier than the k-th one Allow accepts, or has more of them. */
  lemma {:induction false} AllowIsOptimal(limit: int, window: real, ts: seq<real>, pick: seq<bool>)
    requires window >= 0.0 || limit > 0
    requires Sorted(ts) && |pick| == |ts| && Permits(limit, window, Select(ts, pick))
    ensures NoLater(Accepted(limit, window, ts), Select(ts, pick))
  {
    if ts != [] {
      var n := |ts| - 1;
      var p := Select(ts[..n], pick[..n]);
      SelectSplit(ts, pick);
      assert Permits(limit, window, p) by { PermitsPrefix(limit, window, p, Select(ts, pick)); }
      AllowIsOptimal(limit, window, ts[..n], pick[..n]);
      OptimalStep(limit, window, ts, p, Select(ts, pick), pick[n]);
    }
  }

  /** The condition is the exact one: with neither a window nor a limit nothing is ever accepted,
      although every schedule respects the windows. */
  lemma {:induction false} NoWindowNoLimit(limit: int, window: real, ts: seq<real>)
    requires window < 0.0 && limit <= 0 && Sorted(ts)
    ensures Accepted(limit, window, ts) == [] && Permits(limit, window, ts)
  {
    if ts != [] {
      var n := |ts| - 1;
      NoWindowNoLimit(limit, window, ts[..n]);
      AcceptedSnoc(limit, window, ts);
    }
  }

  lemma OptimalStep(limit: int, window: real, ts: seq<real>, p: seq<real>, p': seq<real>, take: bool)
    requires window >= 0.0 || limit > 0
    requires Sorted(ts) && ts != [] && p' == p + (if take then [ts[|ts| - 1]] else [])
    requires NoLater(Accepted(limit, window, ts[..|ts| - 1]), p) && Permits(limit, window, p')
    ensures NoLater(Accepted(limit, window, ts), p')
  {
    var n := |ts| - 1;
    var c, c' := Accepted(limit, window, ts[..n]), Accepted(limit, window, ts);
    assert UpTo(c, ts[n]) by {
      AcceptedOrder(limit, window, ts[..n], ts[n]);
    }
    assert c' == if |Recent(c, ts[n] - window)| < limit then c + [ts[n]] else c by {
      AcceptedSnoc(limit, window, ts);
    }
    OneMoreRequest(limit, window, c, p, c', ts[n], take);
  }

  lemma OneMoreRequest(limit: int, window: real, c: seq<real>, p: seq<real>, c': seq<real>, t: real, take: bool)
    requires (window >= 0.0 || limit > 0) && UpTo(c, t) && NoLater(c, p)
    requires Permits(limit, window, p + (if take then [t] else []))
    requires c' == if |Recent(c, t - window)| < limit then c + [t] else c
    ensures NoLater(c', p + (if take then [t] else []))
  {
    var ok := |Recent(c, t - window)| < limit;
    if window < 0.0 {
      NothingIsRecent(c, t - window);
    } else if take && !ok && |p| == |c| {
      CrowdedForBoth(limit, window, c, p, t);
    }
    NoLaterSnoc(c, p, t, ok, take);
    assert c + [] == c;
  }

  lemma {:induction false} NothingIsRecent(h: seq<real>, cutoff: real)
    requires forall i | 0 <= i < |h| :: h[i] < cutoff
    ensures Recent(h, cutoff) == []
  {
    if h != [] {
      NothingIsRecent(h[..|h| - 1], cutoff);
    }
  }

  lemma SortedInstants(ts: seq<real>)
    requires Sorted(ts)
    ensures Monotone(Instants(ts))
  {
  }

  lemma AcceptedSnoc(limit: int, window: real, ts: seq<real>)
    requires Sorted(ts) && ts != []
    ensures var n := |ts| - 1;
            var c := Accepted(limit, window, ts[..n]);
            Accepted(limit, window, ts) == if |Recent(c, ts[n] - window)| < limit then c + [ts[n]] else c
  {
    var front, k := Instants(ts[..|ts| - 1]), Tick(ts[|ts| - 1], ts[|ts| - 1]);
    assert Instants(ts) == front + [k] by {
      InstantsSnoc(ts);
    }
    SortedInstants(ts);
    AnswerCountsTheHistory(limit, window, front, k);
  }

  lemma AcceptedOrder(limit: int, window: real, ts: seq<real>, t: real)
    requires Sorted(ts) && forall i | 0 <= i < |ts| :: ts[i] <= t
    ensures UpTo(Accepted(limit, window, ts), t)
  {
    QueueIsFaithful(limit, window, Instants(ts), t, t - window);
  }

  lemma PermitsPrefix(limit: int, window: real, p: seq<real>, h: seq<real>)
    requires p <= h && Permits(limit, window, h)
    ensures Permits(limit, window, p)
  {
    forall i, j | 0 <= i <= j < |p| && p[j] - p[i] <= window ensures j - i + 1 <= limit {
      assert p[i] == h[i] && p[j] == h[j];
    }
  }

  /** A rival that is level cannot accept what Allow denies. */
  lemma CrowdedForBoth(limit: int, window: real, c: seq<real>, p: seq<real>, t: real)
    requires window >= 0.0 && Sorted(c) && |p| == |c| && NoLater(c, p)
    requires |Recent(c, t - window)| >= limit
    ensures !Permits(limit, window, p + [t])
  {
    var p' := p + [t];
    assert p'[|p|] == t;
    if limit > 0 {
      var i := |c| - limit;
      RecentTail(c, t - window, i);
      assert p'[i] == p[i] && c[i] <= p[i];
      assert p'[|p|] - p'[i] <= window;
    }
  }

  /** Dropping denied requests from the trace changes no other answer. */
  lemma DenialsAreFree(limit: int, window: real, ks: seq<Tick>, keep: seq<bool>)
    requires Monotone(ks) && |keep| == |ks|
    requires forall i | 0 <= i < |ks| :: Run(limit, window, ks).answers[i] ==> keep[i]
    ensures Run(limit, window, Select(ks, keep)).answers == Select(Run(limit, window, ks).answers, keep)
  {
    MonotoneSelect(ks, keep);
    AllowCountsTheWholeHistory(limit, window, ks);
    AllowCountsTheWholeHistory(limit, window, Select(ks, keep));
    HistoryForgetsDenials((h, k) => HasRoom(limit, window, h, k), ks, keep);
  }

  // ------------------------------------------------------------------ the registry

  /** Whatever the other keys do, a key's answers are those of one window shown only its requests. */
  lemma RegistryKeyDecidesLikeItsOwnWindow(limit: int, window: real, rs: seq<Request<Tick>>, key: Key)
    ensures Select(Serve(WindowKind(limit, window), rs).1, ForKey(rs, key))
            == Run(limit, window, InputsOf(rs, key)).answers
  {
    KeysAreIsolated(WindowKind(limit, window), rs, key);
    AloneRuns(limit, window, InputsOf(rs, key));
  }

  lemma {:induction false} AloneRuns(limit: int, window: real, ks: seq<Tick>)
    ensures var (o, ds) := Alone(WindowKind(limit, window), ks);
            var g := Run(limit, window, ks);
            ds == g.answers && (o.Some? ==> o.value == g.queue)
  {
    if ks != [] {
      var front, k := ks[..|ks| - 1], ks[|ks| - 1];
      assert front + [k] == ks;
      AloneRuns(limit, window, front);
      AloneSnoc(WindowKind(limit, window), front, k);
      RunSnoc(limit, window, front, k);
    }
  }
}

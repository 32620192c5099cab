/** Request traces, the sub-schedules picked out of them, and the order in which
    one schedule can be said to be no later than another. Shared by both rate limiters. */
module Schedules {

  /** The two clock reads made by one call of Allow, both under the limiter's mutex. */
  datatype Tick = Tick(since: real, stamp: real)

  /** The entries of s whose flag is set, in order. */
  function Select<T>(s: seq<T>, flags: seq<bool>): (r: seq<T>)
    requires |s| == |flags|
    ensures |r| <= |s|
  {
    if s == [] then [] else
      var n := |s| - 1;
      var front := Select(s[..n], flags[..n]);
      if flags[n] then front + [s[n]] else front
  }

  lemma {:induction false} SelectOnlyFrom<T>(s: seq<T>, flags: seq<bool>)
    requires |s| == |flags|
    ensures forall x | x in Select(s, flags) :: x in s
  {
    if s != [] {
      SelectOnlyFrom(s[..|s| - 1], flags[..|s| - 1]);
    }
  }

  ghost predicate Sorted(ts: seq<real>) {
    forall i, j | 0 <= i < j < |ts| :: ts[i] <= ts[j]
  }

  /** Calls are serialised by the mutex and the clock never goes back. */
  ghost predicate Monotone(ks: seq<Tick>) {
    && (forall i | 0 <= i < |ks| :: ks[i].since <= ks[i].stamp)
    && (forall i, j | 0 <= i < j < |ks| :: ks[i].stamp <= ks[j].since)
  }

  /** The trace in which both reads of each call see the same instant. */
  function Instants(ts: seq<real>): (ks: seq<Tick>)
    ensures |ks| == |ts| && forall i | 0 <= i < |ts| :: ks[i] == Tick(ts[i], ts[i])
  {
    seq(|ts|, i requires 0 <= i < |ts| => Tick(ts[i], ts[i]))
  }

  /** The k-th entry of c comes no later than the k-th entry of p, for every k that p has. */
  ghost predicate NoLater(c: seq<real>, p: seq<real>) {
    |p| <= |c| && forall k | 0 <= k < |p| :: c[k] <= p[k]
  }

  lemma {:induction false} SelectSorted(ts: seq<real>, flags: seq<bool>)
    requires |ts| == |flags| && Sorted(ts)
    ensures Sorted(Select(ts, flags))
  {
    if ts != [] {
      var n := |ts| - 1;
      SelectSorted(ts[..n], flags[..n]);
      var front := Select(ts[..n], flags[..n]);
      SelectOnlyFrom(ts[..n], flags[..n]);
      forall k | 0 <= k < |front| ensures front[k] <= ts[n] {
        assert front[k] in ts[..n];
      }
    }
  }

  lemma {:induction false} MonotoneSelect(ks: seq<Tick>, flags: seq<bool>)
    requires |ks| == |flags| && Monotone(ks)
    ensures Monotone(Select(ks, flags))
  {
    if ks != [] {
      var n := |ks| - 1;
      MonotoneSelect(ks[..n], flags[..n]);
      var front := Select(ks[..n], flags[..n]);
      SelectOnlyFrom(ks[..n], flags[..n]);
      forall k | 0 <= k < |front| ensures front[k].stamp <= ks[n].since {
        assert front[k] in ks[..n];
      }
    }
  }

  lemma SelectSplit<T>(s: seq<T>, flags: seq<bool>)
    requires |s| == |flags| > 0
    ensures var n := |s| - 1;
            Select(s, flags) == Select(s[..n], flags[..n]) + (if flags[n] then [s[n]] else [])
  {
  }

  lemma SelectSnoc<T>(s: seq<T>, flags: seq<bool>, x: T, flag: bool)
    requires |s| == |flags|
    ensures Select(s + [x], flags + [flag]) == Select(s, flags) + (if flag then [x] else [])
  {
    assert (s + [x])[..|s|] == s && (flags + [flag])[..|s|] == flags;
  }

  /** Picking only entries that were kept gives the same picks with or without the rest. */
  lemma {:induction false} SelectTwice<T>(s: seq<T>, keep: seq<bool>, picks: seq<bool>)
    requires |s| == |keep| == |picks| && forall i | 0 <= i < |s| :: picks[i] ==> keep[i]
    ensures |Select(s, keep)| == |Select(picks, keep)|
    ensures Select(Select(s, keep), Select(picks, keep)) == Select(s, picks)
  {
    if s != [] {
      var n := |s| - 1;
      SelectTwice(s[..n], keep[..n], picks[..n]);
      SelectSplit(s, keep);
      SelectSplit(picks, keep);
      SelectSplit(s, picks);
      SelectTwiceSnoc(Select(s[..n], keep[..n]), Select(picks[..n], keep[..n]), s[n], keep[n], picks[n]);
    }
  }

  lemma SelectTwiceSnoc<T>(kept: seq<T>, picks: seq<bool>, x: T, keep: bool, pick: bool)
    requires |kept| == |picks| && (pick ==> keep)
    ensures Select(kept + (if keep then [x] else []), picks + (if keep then [pick] else []))
            == Select(kept, picks) + (if pick then [x] else [])
  {
    if keep {
      SelectSnoc(kept, picks, x, pick);
    } else {
      assert kept + [] == kept && picks + [] == picks;
    }
  }

  /** A limiter that keeps no state but its accepted history, and asks admit about it. */
  ghost function HistoryAnswers<K>(admit: (seq<K>, K) -> bool, ks: seq<K>): (ds: seq<bool>)
    ensures |ds| == |ks|
  {
    if ks == [] then [] else
      var n := |ks| - 1;
      var ds := HistoryAnswers(admit, ks[..n]);
      ds + [admit(Select(ks[..n], ds), ks[n])]
  }

  lemma HistoryAnswersSnoc<K>(admit: (seq<K>, K) -> bool, ks: seq<K>, k: K)
    ensures var ds := HistoryAnswers(admit, ks);
            HistoryAnswers(admit, ks + [k]) == ds + [admit(Select(ks, ds), k)]
  {
    assert (ks + [k])[..|ks|] == ks;
  }

  /** Such a limiter answers the kept requests alike when only denied ones are dropped. */
  lemma {:induction false} HistoryForgetsDenials<K>(admit: (seq<K>, K) -> bool, ks: seq<K>, keep: seq<bool>)
    requires |keep| == |ks|
    requires forall i | 0 <= i < |ks| :: HistoryAnswers(admit, ks)[i] ==> keep[i]
    ensures HistoryAnswers(admit, Select(ks, keep)) == Select(HistoryAnswers(admit, ks), keep)
  {
    if ks != [] {
      var n := |ks| - 1;
      var ds := HistoryAnswers(admit, ks);
      assert ds[..n] == HistoryAnswers(admit, ks[..n]);
      HistoryForgetsDenials(admit, ks[..n], keep[..n]);
      SelectTwice(ks[..n], keep[..n], ds[..n]);
      var kept := Select(ks[..n], keep[..n]);
      assert (kept + [ks[n]])[..|kept|] == kept;
    }
  }

  /** Both schedules meet the latest request t; ours may skip it only while it has one in hand. */
  lemma NoLaterSnoc(c: seq<real>, p: seq<real>, t: real, ours: bool, theirs: bool)
    requires NoLater(c, p) && forall x | x in c :: x <= t
    requires theirs && !ours ==> |p| < |c|
    ensures NoLater(c + (if ours then [t] else []), p + (if theirs then [t] else []))
  {
    var c', p' := c + (if ours then [t] else []), p + (if theirs then [t] else []);
    forall k | 0 <= k < |p'| ensures c'[k] <= p'[k] {
      if k < |p| {
        assert c[k] <= p[k];
      } else if k < |c| {
        assert c[k] in c;
      }
    }
  }

  lemma InstantsSnoc(ts: seq<real>)
    requires ts != []
    ensures Instants(ts)[..|ts| - 1] == Instants(ts[..|ts| - 1])
    ensures Instants(ts) == Instants(ts[..|ts| - 1]) + [Tick(ts[|ts| - 1], ts[|ts| - 1])]
  {
  }
}

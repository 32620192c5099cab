/** A registry that keeps one limiter per key and makes it on the key's first request:
    the common part of BucketRegistry and of the sliding-window Registry. */
module KeyedRegistries {
  import opened Framing
  import opened Schedules
  import opened Wrappers

  /** A Go string: a client's address or username. */
  type Key = seq<byte>

  datatype Request<I> = Request(key: Key, input: I)

  /** How a limiter is made at its first input, and how one meets an input. */
  datatype Kind<!S, !I> = Kind(make: I -> S, meet: (S, I) -> (S, bool))

  function Meet<S, I>(kind: Kind<S, I>, m: map<Key, S>, r: Request<I>): (map<Key, S>, bool) {
    var s := if r.key in m then m[r.key] else kind.make(r.input);
    var (s', ok) := kind.meet(s, r.input);
    (m[r.key := s'], ok)
  }

  /** The registry, from empty, along a trace of requests over all keys. */
  function Serve<S, I>(kind: Kind<S, I>, rs: seq<Request<I>>): (r: (map<Key, S>, seq<bool>))
    ensures |r.1| == |rs|
  {
    if rs == [] then (map[], []) else
      var n := |rs| - 1;
      var (m, ds) := Serve(kind, rs[..n]);
      var (m', ok) := Meet(kind, m, rs[n]);
      (m', ds + [ok])
  }

  /** A single limiter, made at its first input, run on its own. */
  function Alone<S, I>(kind: Kind<S, I>, inputs: seq<I>): (r: (Option<S>, seq<bool>))
    ensures |r.1| == |inputs| && (r.0.Some? <==> inputs != [])
  {
    if inputs == [] then (None, []) else
      var n := |inputs| - 1;
      var (o, ds) := Alone(kind, inputs[..n]);
      var s := if o.Some? then o.value else kind.make(inputs[n]);
      var (s', ok) := kind.meet(s, inputs[n]);
      (Some(s'), ds + [ok])
  }

  lemma AloneSnoc<S, I>(kind: Kind<S, I>, inputs: seq<I>, x: I)
    ensures var (o, ds) := Alone(kind, inputs);
            var (s, ok) := kind.meet(if o.Some? then o.value else kind.make(x), x);
            Alone(kind, inputs + [x]) == (Some(s), ds + [ok])
  {
    assert (inputs + [x])[..|inputs|] == inputs;
  }

  function ForKey<I>(rs: seq<Request<I>>, key: Key): (flags: seq<bool>)
    ensures |flags| == |rs|
  {
    seq(|rs|, i requires 0 <= i < |rs| => rs[i].key == key)
  }

  /** The inputs that one key's requests carry, in order. */
  function InputsOf<I>(rs: seq<Request<I>>, key: Key): seq<I> {
    if rs == [] then [] else
      var n := |rs| - 1;
      InputsOf(rs[..n], key) + (if rs[n].key == key then [rs[n].input] else [])
  }

  /** Other keys' traffic never shows: a key's answers and its stored limiter are those of
      one limiter run alone on that key's requests. */
  lemma {:induction false} KeysAreIsolated<S, I>(kind: Kind<S, I>, rs: seq<Request<I>>, key: Key)
    ensures var (m, ds) := Serve(kind, rs);
            var (o, alone) := Alone(kind, InputsOf(rs, key));
            && Select(ds, ForKey(rs, key)) == alone
            && (key in m <==> o.Some?)
            && (key in m ==> m[key] == o.value)
  {
    if rs != [] {
      var n := |rs| - 1;
      KeysAreIsolated(kind, rs[..n], key);
      assert ForKey(rs, key)[..n] == ForKey(rs[..n], key);
      assert Serve(kind, rs).1[..n] == Serve(kind, rs[..n]).1;
      SelectSplit(Serve(kind, rs).1, ForKey(rs, key));
      var front, inputs := InputsOf(rs[..n], key), InputsOf(rs, key);
      if rs[n].key == key {
        assert inputs[..|front|] == front && inputs[|front|] == rs[n].input;
      } else {
        assert inputs == front;
      }
    }
  }
}

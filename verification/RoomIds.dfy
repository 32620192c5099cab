/** Any number of processes (gateway routers, messaging-service room stores) caching rooms that
    they find or create in one shared table. Each process is serial under its own mutex, so one
    JoinRoom is at most four of its steps; the steps of different processes interleave freely. */
module RoomIds {
  import opened Histories
  import opened Rooms

  /** How far the process holding its own lock has got with one uncached room. */
  datatype Phase =
    | Idle
    | Looking(name: Text)
    | Creating(name: Text, freshId: Text)
    | Caching(name: Text, id: Text)

  datatype Process = Process(cache: map<Text, Text>, phase: Phase)

  datatype System = System(table: Table, procs: map<nat, Process>)

  datatype Action =
    | Begin(name: Text)
    | Find(fails: bool, freshId: Text)
    | Create(fails: bool)
    | Cache
    | Empty(name: Text)
    | Restart

  /** One step of process p. Steps that are not enabled do nothing. The unique name and the primary
      key are what make Create fail besides a database error; a process that fails is back to idle. */
  function Do(s: System, p: nat, a: Action): System {
    if p !in s.procs then (if a.Restart? then s.(procs := s.procs[p := Process(map[], Idle)]) else s)
    else
      var me := s.procs[p];
      match (a, me.phase)
      case (Begin(name), Idle) =>
        if name in me.cache then s else Become(s, p, me.(phase := Looking(name)))
      case (Find(fails, freshId), Looking(name)) =>
        Become(s, p, me.(phase :=
          if fails then Idle
          else if name in s.table then Caching(name, s.table[name])
          else Creating(name, freshId)))
      case (Create(fails), Creating(name, id)) =>
        if fails || name in s.table || id in s.table.Values then Become(s, p, me.(phase := Idle))
        else Become(s.(table := s.table[name := id]), p, me.(phase := Caching(name, id)))
      case (Cache, Caching(name, id)) =>
        Become(s, p, Process(me.cache[name := id], Idle))
      case (Empty(name), Idle) =>
        Become(s, p, me.(cache := me.cache - {name}))
      case (Restart, _) =>
        Become(s, p, Process(map[], Idle))
      case _ => s
  }

  function Become(s: System, p: nat, me: Process): System {
    s.(procs := s.procs[p := me])
  }

  function Run(s0: System, steps: seq<(nat, Action)>): System {
    if steps == [] then s0 else
      var n := |steps| - 1;
      Do(Run(s0, steps[..n]), steps[n].0, steps[n].1)
  }

  /** GetRoomID: empty when the room is not cached. */
  function RoomIdAt(s: System, p: nat, name: Text): Text {
    if p in s.procs && name in s.procs[p].cache then s.procs[p].cache[name] else []
  }

  ghost predicate Injective(t: Table) {
    forall n, n' | n in t && n' in t && t[n] == t[n'] :: n == n'
  }

  /** The premise on uuid.New: a generated id is not the empty string. */
  ghost predicate IdsNonEmpty(steps: seq<(nat, Action)>) {
    forall i | 0 <= i < |steps| && steps[i].1.Find? :: steps[i].1.freshId != []
  }

  /** A table with distinct non-empty ids, whatever rooms it already has, and nothing running. */
  ghost predicate Initial(s: System) {
    Injective(s.table) && [] !in s.table.Values && s.procs == map[]
  }

  ghost predicate Consistent(p: Process, t: Table) {
    && (forall n | n in p.cache :: n in t && p.cache[n] == t[n])
    && (p.phase.Caching? ==> p.phase.name in t && p.phase.id == t[p.phase.name])
    && (p.phase.Creating? ==> p.phase.freshId != [])
  }

  ghost predicate Inv(s: System) {
    && Injective(s.table)
    && [] !in s.table.Values
    && forall p | p in s.procs :: Consistent(s.procs[p], s.table)
  }

  /** Rows are never changed or deleted. */
  ghost predicate Extends(t: Table, t': Table) {
    forall n | n in t :: n in t' && t'[n] == t[n]
  }

  lemma StepKeepsInv(s: System, p: nat, a: Action)
    requires Inv(s) && (a.Find? ==> a.freshId != [])
    ensures Inv(Do(s, p, a)) && Extends(s.table, Do(s, p, a).table)
  {
    var s' := Do(s, p, a);
    assert s'.table != s.table ==>
      exists n, id :: n !in s.table && id !in s.table.Values && id != [] && s'.table == s.table[n := id];
    forall q | q in s'.procs ensures Consistent(s'.procs[q], s'.table) {
      if q != p {
        assert Consistent(s.procs[q], s.table);
      }
    }
  }

  lemma {:induction false} RunKeepsInv(s0: System, steps: seq<(nat, Action)>)
    requires Initial(s0) && IdsNonEmpty(steps)
    ensures Inv(Run(s0, steps))
  {
    if steps != [] {
      var n := |steps| - 1;
      RunKeepsInv(s0, steps[..n]);
      StepKeepsInv(Run(s0, steps[..n]), steps[n].0, steps[n].1);
    }
  }

  lemma {:induction false} TableOnlyGrows(s0: System, steps: seq<(nat, Action)>, i: nat)
    requires Initial(s0) && IdsNonEmpty(steps) && i <= |steps|
    ensures Extends(Run(s0, steps[..i]).table, Run(s0, steps).table)
  {
    var n := |steps| - 1;
    if i == |steps| {
      assert steps[..i] == steps;
    } else {
      TableOnlyGrows(s0, steps[..n], i);
      assert steps[..n][..i] == steps[..i];
      RunKeepsInv(s0, steps[..n]);
      StepKeepsInv(Run(s0, steps[..n]), steps[n].0, steps[n].1);
    }
  }

  /** Whatever two processes answer for a room, at whatever two moments of a run, the non-empty
      answers are equal exactly when the room names are. */
  lemma AnswersAgree(s0: System, steps: seq<(nat, Action)>, i: nat, j: nat, p: nat, q: nat, name: Text, name': Text)
    requires Initial(s0) && IdsNonEmpty(steps) && i <= |steps| && j <= |steps|
    requires RoomIdAt(Run(s0, steps[..i]), p, name) != [] && RoomIdAt(Run(s0, steps[..j]), q, name') != []
    ensures RoomIdAt(Run(s0, steps[..i]), p, name) == RoomIdAt(Run(s0, steps[..j]), q, name') <==> name == name'
  {
    AnswerIsFinal(s0, steps, i, p, name);
    AnswerIsFinal(s0, steps, j, q, name');
    RunKeepsInv(s0, steps);
  }

  lemma AnswerIsFinal(s0: System, steps: seq<(nat, Action)>, i: nat, p: nat, name: Text)
    requires Initial(s0) && IdsNonEmpty(steps) && i <= |steps|
    requires RoomIdAt(Run(s0, steps[..i]), p, name) != []
    ensures name in Run(s0, steps).table && RoomIdAt(Run(s0, steps[..i]), p, name) == Run(s0, steps).table[name]
  {
    RunKeepsInv(s0, steps[..i]);
    TableOnlyGrows(s0, steps, i);
    assert Consistent(Run(s0, steps[..i]).procs[p], Run(s0, steps[..i]).table);
  }

  /** Losing the race between Find and Create costs an error and nothing else; the next attempt
      takes the winner's id. */
  lemma LoserKeepsItsCache(s: System, p: nat, retryId: Text)
    requires p in s.procs && s.procs[p].phase.Creating? && s.procs[p].phase.name in s.table
    requires s.procs[p].phase.name !in s.procs[p].cache
    ensures var name := s.procs[p].phase.name;
            var lost := Do(s, p, Create(false));
            && lost == Become(s, p, s.procs[p].(phase := Idle))
            && var retried := Do(Do(Do(lost, p, Begin(name)), p, Find(false, retryId)), p, Cache);
               retried == Become(s, p, Process(s.procs[p].cache[name := s.table[name]], Idle))
  {
    var name := s.procs[p].phase.name;
    var lost := Do(s, p, Create(false));
    var s1 := Do(lost, p, Begin(name));
    var s2 := Do(s1, p, Find(false, retryId));
    var s3 := Do(s2, p, Cache);
    assert s1.procs == s.procs[p := s1.procs[p]];
    assert s2.procs == s.procs[p := s2.procs[p]];
    assert s3.procs == s.procs[p := s3.procs[p]];
  }

  /** With nobody in between, the four steps are the find-or-create that JoinRoom performs. */
  lemma UninterruptedIsFindOrCreate(s: System, p: nat, name: Text, m: Moment)
    requires p in s.procs && s.procs[p].phase == Idle && name !in s.procs[p].cache
    requires m.freshId !in s.table.Values
    ensures var found := Do(Do(s, p, Begin(name)), p, Find(m.findFails, m.freshId));
            var s' := Do(Do(found, p, Create(m.createFails)), p, Cache);
            var (r, t) := FindOrCreate(s.table, name, m);
            && s'.table == t && s'.procs[p].phase == Idle
            && s'.procs[p].cache == if r.Ok? then s.procs[p].cache[name := r.value] else s.procs[p].cache
  {
  }

  // --------------------------------------------------------------- when there is an answer

  predicate IsCaching(s: System, p: nat, name: Text) {
    p in s.procs && s.procs[p].phase.Caching? && s.procs[p].phase.name == name
  }

  predicate IsIdle(s: System, p: nat) {
    p in s.procs && s.procs[p].phase.Idle?
  }

  ghost function StartedAt(steps: seq<(nat, Action)>, p: nat): nat -> bool {
    (i: nat) => i < |steps| && steps[i] == (p, Restart)
  }

  /** A process is running exactly when it has been started. */
  lemma {:induction false} RunningExactly(s0: System, steps: seq<(nat, Action)>, p: nat)
    requires s0.procs == map[]
    ensures p in Run(s0, steps).procs <==> exists i: nat | i < |steps| :: StartedAt(steps, p)(i)
  {
    if steps != [] {
      var n := |steps| - 1;
      RunningExactly(s0, steps[..n], p);
      assert AlikeBefore(StartedAt(steps, p), StartedAt(steps[..n], p), n);
      assert p in Run(s0, steps).procs <==> p in Run(s0, steps[..n]).procs || StartedAt(steps, p)(n);
    }
  }

  /** p completes the caching of the room. */
  predicate Completes(s: System, q: nat, a: Action, p: nat, name: Text) {
    q == p && a.Cache? && IsCaching(s, p, name)
  }

  /** p, idle, sees the room's last member leave, or p starts afresh. */
  predicate Forgets(s: System, q: nat, a: Action, p: nat, name: Text) {
    q == p && (a.Restart? || (a == Empty(name) && IsIdle(s, p)))
  }

  ghost function CompletedAt(s0: System, steps: seq<(nat, Action)>, p: nat, name: Text): nat -> bool {
    (i: nat) => i < |steps| && Completes(Run(s0, steps[..i]), steps[i].0, steps[i].1, p, name)
  }

  ghost function ForgottenAt(s0: System, steps: seq<(nat, Action)>, p: nat, name: Text): nat -> bool {
    (i: nat) => i < |steps| && Forgets(Run(s0, steps[..i]), steps[i].0, steps[i].1, p, name)
  }

  predicate Cached(s: System, p: nat, name: Text) {
    p in s.procs && name in s.procs[p].cache
  }

  lemma CachedAfter(s: System, q: nat, a: Action, p: nat, name: Text)
    ensures Cached(Do(s, q, a), p, name) <==>
            Completes(s, q, a, p, name) || (Cached(s, p, name) && !Forgets(s, q, a, p, name))
  {
  }

  lemma {:induction false} CachedExactly(s0: System, steps: seq<(nat, Action)>, p: nat, name: Text)
    requires s0.procs == map[]
    ensures Cached(Run(s0, steps), p, name) <==>
            Lasting(CompletedAt(s0, steps, p, name), ForgottenAt(s0, steps, p, name), |steps|)
  {
    if steps != [] {
      var n := |steps| - 1;
      CachedExactly(s0, steps[..n], p, name);
      CachedAfter(Run(s0, steps[..n]), steps[n].0, steps[n].1, p, name);
      assert forall i: nat | i < n :: steps[..n][..i] == steps[..i];
      LastingSnoc(CompletedAt(s0, steps, p, name), ForgottenAt(s0, steps, p, name),
                  CompletedAt(s0, steps[..n], p, name), ForgottenAt(s0, steps[..n], p, name), n);
    }
  }

  /** GetRoomID answers, in any interleaving, exactly when the process has completed the caching of the
      room and has since neither seen it empty nor restarted. */
  lemma AnswersExactly(s0: System, steps: seq<(nat, Action)>, p: nat, name: Text)
    requires Initial(s0) && IdsNonEmpty(steps)
    ensures RoomIdAt(Run(s0, steps), p, name) != [] <==>
            Lasting(CompletedAt(s0, steps, p, name), ForgottenAt(s0, steps, p, name), |steps|)
  {
    CachedExactly(s0, steps, p, name);
    RunKeepsInv(s0, steps);
    var s := Run(s0, steps);
    if Cached(s, p, name) {
      assert Consistent(s.procs[p], s.table);
      assert s.table[name] in s.table.Values;
    }
  }

  // ------------------------------------------------- the steps are the stores' own operations

  /** What a room store, and a router, have cached: the ids of the rooms that have members. */
  function StoreCache(s: Store): map<Text, Text> {
    map r | r in s :: s[r].id
  }

  function RouterCache<C>(s: Router<C>): map<Text, Text> {
    map r | r in s.rooms :: s.rooms[r].room.id
  }

  /** Forgetting the connections, as the router's joins and leaves do those of the store, changes nothing. */
  lemma RouterCachesAlike<C>(s: Router<C>)
    ensures RouterCache(s) == StoreCache(Erase(s))
  {
  }

  /** The process is idle and has cached this. */
  predicate Holding(s: System, p: nat, cache: map<Text, Text>) {
    p in s.procs && s.procs[p] == Process(cache, Idle)
  }

  /** A join of a room that is there takes no step; of any other, the four steps, after which the cache
      and the table are the store's. */
  lemma JoinIsItsSteps(s: System, p: nat, store: Store, name: Text, user: Text, m: Moment)
    requires Holding(s, p, StoreCache(store)) && m.freshId !in s.table.Values
    ensures var found := Do(Do(s, p, Begin(name)), p, Find(m.findFails, m.freshId));
            var s' := Do(Do(found, p, Create(m.createFails)), p, Cache);
            var (store', t, _) := StoreJoin(store, s.table, name, user, m);
            Holding(s', p, StoreCache(store')) && s'.table == t
  {
    if name !in store {
      UninterruptedIsFindOrCreate(s, p, name, m);
    }
  }

  /** A leave is the room emptying when the user was its last member, and no step when not. */
  lemma LeaveIsItsStep(s: System, p: nat, store: Store, name: Text, user: Text)
    requires Holding(s, p, StoreCache(store)) && name in store
    ensures var s' := if store[name].members <= {user} then Do(s, p, Empty(name)) else s;
            Holding(s', p, StoreCache(StoreLeave(store, name, user).value)) && s'.table == s.table
  {
    assert store[name].members <= {user} <==> store[name].members - {user} == {};
  }

  /** Rooms emptying one after another. */
  function EmptyEach(s: System, p: nat, names: seq<Text>): System {
    if names == [] then s else Do(EmptyEach(s, p, names[..|names| - 1]), p, Empty(names[|names| - 1]))
  }

  lemma {:induction false} EmptyEachForgets(s: System, p: nat, cache: map<Text, Text>, names: seq<Text>)
    requires Holding(s, p, cache)
    ensures Holding(EmptyEach(s, p, names), p, map r | r in cache && r !in names :: cache[r])
    ensures EmptyEach(s, p, names).table == s.table
  {
    if names != [] {
      var n := |names| - 1;
      EmptyEachForgets(s, p, cache, names[..n]);
      assert names == names[..n] + [names[n]];
    }
  }

  /** Disconnect is the emptying of the rooms whose only member was the user, in whatever order. */
  lemma DisconnectIsItsSteps<C>(s: System, p: nat, router: Router<C>, user: Text, names: seq<Text>)
    requires Holding(s, p, RouterCache(router))
    requires forall r :: r in names <==> r in router.rooms && router.rooms[r].members.Keys <= {user}
    ensures Holding(EmptyEach(s, p, names), p, RouterCache(Disconnect(router, user)))
  {
    EmptyEachForgets(s, p, RouterCache(router), names);
    forall r | r in router.rooms
      ensures router.rooms[r].members - {user} == map[] <==> router.rooms[r].members.Keys <= {user}
    {
      var left := router.rooms[r].members - {user};
      assert left.Keys == router.rooms[r].members.Keys - {user};
      assert left == map[] <==> left.Keys == {};
    }
  }
}

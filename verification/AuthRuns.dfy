/** The auth service after any interleaving of its calls, read off the calls: who has an account and
    with which id, which calls are under way, which refresh tokens are live and for whom, and which
    access tokens have been signed. */
module AuthRuns {
  import opened Wrappers
  import opened Histories
  import opened Rooms
  import opened Auth
  import opened TokenChains

  // ------------------------------------------------------------------ calls under way

  /** The event begins this call: a registration of a good name that nobody has, or a login that looks
      up this id. */
  predicate Begins(s: State, e: Event, k: nat, task: Task) {
    match task
    case Registering(name) => e == RegisterFind(k, name) && name !in s.users && ValidUsername(name)
    case LoggingIn(name, uid) => e == LoginFind(k, name) && name != [] && name in s.users && s.users[name] == uid
  }

  /** The event begins another call of the same task, or finishes one of this kind. */
  predicate Concludes(s: State, e: Event, k: nat, task: Task) {
    match e
    case RegisterFind(k', name) => k' == k && name !in s.users && ValidUsername(name)
    case LoginFind(k', name) => k' == k && name != [] && name in s.users
    case RegisterCreate(k', _, _) => k' == k && task.Registering?
    case LoginFinish(k', _) => k' == k && task.LoggingIn?
    case Refreshes(_, _) => false
  }

  /** The positions whose events begin the call, and those whose events conclude it. */
  ghost function BegunAt(users: Users, es: seq<Event>, k: nat, task: Task): nat -> bool {
    (i: nat) => i < |es| && Begins(Run(users, es[..i]), es[i], k, task)
  }

  ghost function ConcludedAt(users: Users, es: seq<Event>, k: nat, task: Task): nat -> bool {
    (i: nat) => i < |es| && Concludes(Run(users, es[..i]), es[i], k, task)
  }

  ghost predicate HasTask(s: State, k: nat, task: Task) {
    k in s.tasks && s.tasks[k] == task
  }

  lemma TaskAfter(s: State, e: Event, k: nat, task: Task)
    ensures HasTask(Do(s, e), k, task) <==> Begins(s, e, k, task) || (HasTask(s, k, task) && !Concludes(s, e, k, task))
  {
  }

  /** A call is under way exactly when an event has begun it and none since has concluded it. */
  lemma {:induction false} TasksExactly(users: Users, es: seq<Event>, k: nat, task: Task)
    ensures HasTask(Run(users, es), k, task) <==>
            Lasting(BegunAt(users, es, k, task), ConcludedAt(users, es, k, task), |es|)
  {
    if es != [] {
      var n := |es| - 1;
      TasksExactly(users, es[..n], k, task);
      TaskAfter(Run(users, es[..n]), es[n], k, task);
      assert forall i: nat | i < n :: es[..n][..i] == es[..i];
      LastingSnoc(BegunAt(users, es, k, task), ConcludedAt(users, es, k, task),
                  BegunAt(users, es[..n], k, task), ConcludedAt(users, es[..n], k, task), n);
    }
  }

  // ------------------------------------------------------------------ accounts

  /** The event is the insert of a registration of this name, and does not fail. */
  predicate Inserts(s: State, e: Event, name: Text) {
    e.RegisterCreate? && !e.fails && e.task in s.tasks && s.tasks[e.task] == Registering(name)
  }

  ghost function InsertedAt(users: Users, es: seq<Event>, name: Text): nat -> bool {
    (i: nat) => i < |es| && Inserts(Run(users, es[..i]), es[i], name)
  }

  /** The i-th position inserts the name with this id, and no earlier one inserts it. */
  ghost predicate InsertsFirst(users: Users, es: seq<Event>, i: nat, name: Text, id: Text) {
    && i < |es| && InsertedAt(users, es, name)(i) && es[i].RegisterCreate? && es[i].freshId == id
    && forall j: nat | j < i :: !InsertedAt(users, es, name)(j)
  }

  lemma AccountAfter(s: State, e: Event, name: Text)
    ensures var s' := Do(s, e);
            && (name in s'.users <==> name in s.users || Inserts(s, e, name))
            && (name in s.users ==> s'.users[name] == s.users[name])
            && (name !in s.users && Inserts(s, e, name) ==> s'.users[name] == e.freshId)
  {
  }

  /** A name has an account exactly when it had one at the start or some registration has inserted it. */
  lemma {:induction false} AccountsExactly(users: Users, es: seq<Event>, name: Text)
    ensures name in Run(users, es).users <==>
            name in users || exists i: nat | i < |es| :: InsertedAt(users, es, name)(i)
  {
    if es != [] {
      var n := |es| - 1;
      AccountsExactly(users, es[..n], name);
      AccountAfter(Run(users, es[..n]), es[n], name);
      SameInserts(users, es, name);
    }
  }

  lemma SameInserts(users: Users, es: seq<Event>, name: Text)
    requires es != []
    ensures var n := |es| - 1;
            && AlikeBefore(InsertedAt(users, es, name), InsertedAt(users, es[..n], name), n)
            && InsertedAt(users, es, name)(n) == Inserts(Run(users, es[..n]), es[n], name)
  {
    var n := |es| - 1;
    assert forall i: nat | i < n :: es[..n][..i] == es[..i];
  }

  /** Its id is the one it had at the start, or else that of the first insert of the name. */
  lemma {:induction false} IdsExactly(users: Users, es: seq<Event>, name: Text)
    requires name in Run(users, es).users
    ensures if name in users then Run(users, es).users[name] == users[name]
            else exists i: nat | i < |es| :: InsertsFirst(users, es, i, name, Run(users, es).users[name])
  {
    if es != [] {
      var n := |es| - 1;
      var s := Run(users, es[..n]);
      AccountAfter(s, es[n], name);
      AccountsExactly(users, es[..n], name);
      SameInserts(users, es, name);
      if name in s.users {
        IdsExactly(users, es[..n], name);
        if name !in users {
          var i: nat :| i < n && InsertsFirst(users, es[..n], i, name, s.users[name]);
          assert InsertsFirst(users, es, i, name, s.users[name]);
        }
      } else {
        assert InsertsFirst(users, es, n, name, es[n].freshId);
      }
    }
  }

  // ------------------------------------------------------------------ refresh tokens

  datatype Coin = Coin(token: Text, user: Text)

  /** The token that the event mints and its user: at the end of a login, or by a refresh of a token that
      is live for the user. */
  function Mint(s: State, e: Event): Option<Coin> {
    match e
    case LoginFinish(k, m) =>
      if k in s.tasks && s.tasks[k].LoggingIn? && s.tasks[k].username != [] && !m.randFails
      then Some(Coin(m.token, s.tasks[k].username)) else None
    case Refreshes(old', m) =>
      if old' != [] && old' in s.live && s.live[old'] in s.users && !m.findFails && !m.signFails && !m.randFails
      then Some(Coin(m.token, s.live[old'])) else None
    case _ => None
  }

  /** The event presents the token in a refresh, whatever comes of it, or mints it anew. */
  predicate Spends(s: State, e: Event, token: Text) {
    (e.Refreshes? && e.token == token != []) || (Mint(s, e).Some? && Mint(s, e).value.token == token)
  }

  ghost function MintedAt(users: Users, es: seq<Event>, token: Text, user: Text): nat -> bool {
    (i: nat) => i < |es| && Mint(Run(users, es[..i]), es[i]) == Some(Coin(token, user))
  }

  ghost function SpentAt(users: Users, es: seq<Event>, token: Text): nat -> bool {
    (i: nat) => i < |es| && Spends(Run(users, es[..i]), es[i], token)
  }

  ghost predicate LiveFor(s: State, token: Text, user: Text) {
    token in s.live && s.live[token] == user
  }

  lemma LiveAfter(s: State, e: Event, token: Text, user: Text)
    ensures LiveFor(Do(s, e), token, user) <==>
            Mint(s, e) == Some(Coin(token, user)) || (LiveFor(s, token, user) && !Spends(s, e, token))
  {
    match e
    case LoginFinish(k, m) => LoginEffect(s, k, m);
    case Refreshes(old', m) => RefreshEffect(s, old', m);
    case _ =>
  }

  /** A refresh token is live for a user exactly when an event minted it for them, and it has neither been
      presented in a refresh since nor been minted again. */
  lemma {:induction false} LiveExactly(users: Users, es: seq<Event>, token: Text, user: Text)
    ensures LiveFor(Run(users, es), token, user) <==>
            Lasting(MintedAt(users, es, token, user), SpentAt(users, es, token), |es|)
  {
    if es != [] {
      var n := |es| - 1;
      LiveExactly(users, es[..n], token, user);
      LiveAfter(Run(users, es[..n]), es[n], token, user);
      assert forall i: nat | i < n :: es[..n][..i] == es[..i];
      LastingSnoc(MintedAt(users, es, token, user), SpentAt(users, es, token),
                  MintedAt(users, es[..n], token, user), SpentAt(users, es[..n], token), n);
    }
  }

  // ------------------------------------------------------------------ access tokens

  /** The event signs the access token: the end of a login, with the id its call looked up, or a refresh
      that gets as far as signing, with the id looked up then. */
  predicate Signs(s: State, e: Event, a: Access) {
    match e
    case LoginFinish(k, _) => k in s.tasks && s.tasks[k] == LoggingIn(a.sub, a.uid)
    case Refreshes(token, m) =>
      && token != [] && token in s.live && s.live[token] == a.sub
      && a.sub in s.users && s.users[a.sub] == a.uid && !m.findFails && !m.signFails
    case _ => false
  }

  lemma SignedAfter(s: State, e: Event, a: Access)
    ensures a in Do(s, e).signed <==> a in s.signed || Signs(s, e, a)
  {
  }

  ghost function SignedAt(users: Users, es: seq<Event>, a: Access): nat -> bool {
    (i: nat) => i < |es| && Signs(Run(users, es[..i]), es[i], a)
  }

  /** An access token has been signed exactly when some event did so. */
  lemma {:induction false} SignedExactly(users: Users, es: seq<Event>, a: Access)
    ensures a in Run(users, es).signed <==> exists i: nat | i < |es| :: SignedAt(users, es, a)(i)
  {
    if es != [] {
      var n := |es| - 1;
      SignedExactly(users, es[..n], a);
      SignedAfter(Run(users, es[..n]), es[n], a);
      SameSigned(users, es, a);
    }
  }

  lemma SameSigned(users: Users, es: seq<Event>, a: Access)
    requires es != []
    ensures var n := |es| - 1;
            && AlikeBefore(SignedAt(users, es, a), SignedAt(users, es[..n], a), n)
            && SignedAt(users, es, a)(n) == Signs(Run(users, es[..n]), es[n], a)
  {
    var n := |es| - 1;
    assert forall i: nat | i < n :: es[..n][..i] == es[..i];
  }

  // --------------------------------------------------- the events are the service's methods

  /** With nothing in between, the two events of a registration insert exactly when Register does. */
  lemma RegisterIsItsEvents(s: State, k: nat, name: Text, fails: bool, id: Text)
    requires k !in s.tasks
    ensures var s' := Do(Do(s, RegisterFind(k, name)), RegisterCreate(k, fails, id));
            var ok := ValidUsername(name) && name !in s.users && !fails;
            s' == s.(users := if ok then s.users[name := id] else s.users)
  {
    assert s.tasks[k := Registering(name)] - {k} == s.tasks;
  }

  /** And those of a login mint what Login mints, for the same user. */
  lemma LoginIsItsEvents(s: State, k: nat, name: Text, m: IssueMoment)
    requires k !in s.tasks
    ensures var s' := Do(Do(s, LoginFind(k, name)), LoginFinish(k, m));
            var ok := name != [] && name in s.users && !m.randFails;
            && s'.users == s.users && s'.tasks == s.tasks
            && s'.live == (if ok then s.live[m.token := name] else s.live)
            && (ok ==> Access(name, s.users[name]) in s'.signed)
  {
    if name != [] && name in s.users {
      assert s.tasks[k := LoggingIn(name, s.users[name])] - {k} == s.tasks;
    }
  }
}

/** What the positions of a history say about its end: something begun at one of them and not undone
    at a later one. Shared by the laws that read a state off the calls that led to it. */
module Histories {

  /** Begun at i and not undone between there and n. */
  ghost predicate Stays(begun: nat -> bool, undone: nat -> bool, i: nat, n: nat) {
    begun(i) && forall j: nat | i < j < n :: !undone(j)
  }

  /** Some position before n began it, and no later one undid it. */
  ghost predicate Lasting(begun: nat -> bool, undone: nat -> bool, n: nat) {
    exists i: nat | i < n :: Stays(begun, undone, i, n)
  }

  ghost predicate AlikeBefore(f: nat -> bool, g: nat -> bool, n: nat) {
    forall i: nat | i < n :: f(i) == g(i)
  }

  /** At one position more: begun there, or lasting and not undone there; of a history whose earlier
      positions may be described in other words. */
  lemma LastingSnoc(begun: nat -> bool, undone: nat -> bool, begun': nat -> bool, undone': nat -> bool, n: nat)
    requires AlikeBefore(begun, begun', n) && AlikeBefore(undone, undone', n)
    ensures Lasting(begun, undone, n + 1) <==> begun(n) || (Lasting(begun', undone', n) && !undone(n))
  {
    if begun(n) {
      assert Stays(begun, undone, n, n + 1);
    }
    if i: nat :| i < n && Stays(begun', undone', i, n) && !undone(n) {
      assert Stays(begun, undone, i, n + 1);
    }
    if Lasting(begun, undone, n + 1) && !begun(n) {
      var i: nat :| i < n + 1 && Stays(begun, undone, i, n + 1);
      assert !undone(n) && Stays(begun', undone', i, n);
    }
  }
}

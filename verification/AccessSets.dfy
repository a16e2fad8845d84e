/** Predicted access sets and the conflict test of `access_set.rs`. */
module AccessSets {
  import opened State

  datatype AccessSet = AccessSet(readSet: set<Key>, writeSet: set<Key>) {
    function Keys(): set<Key> { readSet + writeSet }
  }

  /** `conflicts_with`: write-write, read-write, write-read. */
  predicate ConflictsWith(a: AccessSet, b: AccessSet) {
    || (exists k :: k in a.writeSet && k in b.writeSet)
    || (exists k :: k in a.readSet && k in b.writeSet)
    || (exists k :: k in a.writeSet && k in b.readSet)
  }

  /** No conflict means that neither writes what the other touches. */
  lemma IndependentExactly(a: AccessSet, b: AccessSet)
    ensures !ConflictsWith(a, b) <==> a.writeSet !! b.Keys() && b.writeSet !! a.Keys()
  {
  }

  lemma ConflictSymmetric(a: AccessSet, b: AccessSet)
    ensures ConflictsWith(a, b) <==> ConflictsWith(b, a)
  {
  }
}

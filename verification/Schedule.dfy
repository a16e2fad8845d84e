/** The greedy first-fit scheduler of `scheduler.rs`. */
module Schedule {
  import opened Basics
  import opened AccessSets
  import opened Serial

  /** A schedule: each batch lists the block indices of its transactions. */
  type Batches = seq<seq<nat>>

  predicate InBatch(batches: Batches, b: int, i: int) {
    0 <= b < |batches| && i in batches[b]
  }

  ghost predicate Placed(batches: Batches, i: int) {
    exists b :: InBatch(batches, b, i)
  }

  predicate Ascending(batch: seq<nat>) {
    forall a, b :: 0 <= a < b < |batch| ==> batch[a] < batch[b]
  }

  /** Batches are not empty and list their transactions in block order. */
  predicate WellOrdered(batches: Batches) {
    forall b :: 0 <= b < |batches| ==> batches[b] != [] && Ascending(batches[b])
  }

  /** Exactly the transactions before `n` are placed, each in one batch. */
  ghost predicate Partition(batches: Batches, n: nat) {
    && (forall b, i :: InBatch(batches, b, i) ==> i < n)
    && (forall i :: 0 <= i < n ==> Placed(batches, i))
    && (forall b, c, i :: InBatch(batches, b, i) && InBatch(batches, c, i) ==> b == c)
  }

  ghost predicate ConflictFree(batches: Batches, access: seq<AccessSet>) {
    forall b, i, j :: InBatch(batches, b, i) && InBatch(batches, b, j) && i != j ==> !Conflict(access, i, j)
  }

  /** Some transaction of the batch with a smaller index conflicts with `i`. */
  ghost predicate Blocked(batches: Batches, access: seq<AccessSet>, c: int, i: int) {
    exists j :: InBatch(batches, c, j) && j < i && Conflict(access, j, i)
  }

  /** Every transaction was kept out of every earlier batch by an earlier transaction it conflicts with. */
  ghost predicate Greedy(batches: Batches, access: seq<AccessSet>) {
    forall b, i, c :: InBatch(batches, b, i) && 0 <= c < b ==> Blocked(batches, access, c, i)
  }

  /** A first-fit schedule of the first `n` transactions. */
  ghost predicate FirstFit(batches: Batches, access: seq<AccessSet>, n: nat) {
    && WellOrdered(batches)
    && Partition(batches, n)
    && ConflictFree(batches, access)
    && Greedy(batches, access)
  }

  // ---------------------------------------------------------------------
  // schedule_parallel
  // ---------------------------------------------------------------------

  /** Does any transaction already in the batch conflict with transaction `i`? */
  method AnyConflict(batchSets: seq<AccessSet>, ghost batch: seq<nat>, access: seq<AccessSet>, i: nat) returns (r: bool)
    requires |batchSets| == |batch| && i < |access|
    requires forall k :: 0 <= k < |batch| ==> batch[k] < |access| && batchSets[k] == access[batch[k]]
    ensures r <==> exists j :: j in batch && Conflict(access, j, i)
  {
    for k := 0 to |batchSets|
      invariant forall m :: 0 <= m < k ==> !Conflict(access, batch[m], i)
    {
      if ConflictsWith(batchSets[k], access[i]) {
        assert batch[k] in batch && Conflict(access, batch[k], i);
        return true;
      }
    }
    r := false;
  }

  predicate Mirrors(batchSets: seq<seq<AccessSet>>, batches: Batches, access: seq<AccessSet>) {
    && |batchSets| == |batches|
    && forall b :: 0 <= b < |batches| ==>
         && |batchSets[b]| == |batches[b]|
         && forall k :: 0 <= k < |batches[b]| ==>
              batches[b][k] < |access| && batchSets[b][k] == access[batches[b][k]]
  }

  method ScheduleParallel(access: seq<AccessSet>) returns (batches: Batches)
    ensures FirstFit(batches, access, |access|)
  {
    batches := [];
    var batchSets: seq<seq<AccessSet>> := [];
    for i := 0 to |access|
      invariant FirstFit(batches, access, i)
      invariant Mirrors(batchSets, batches, access)
    {
      var b := 0;
      var placed := false;
      while b < |batches| && !placed
        invariant 0 <= b <= |batches|
        invariant forall c :: 0 <= c < b ==> Blocked(batches, access, c, i)
        invariant placed ==> b < |batches| && forall j :: InBatch(batches, b, j) ==> !Conflict(access, j, i)
        decreases |batches| - b, !placed
      {
        var conflicts := AnyConflict(batchSets[b], batches[b], access, i);
        if conflicts {
          var j :| j in batches[b] && Conflict(access, j, i);
          assert InBatch(batches, b, j);
          b := b + 1;
        } else {
          placed := true;
        }
      }
      if placed {
        PlaceKeepsFirstFit(batches, access, i, b);
        batchSets := batchSets[b := batchSets[b] + [access[i]]];
        batches := batches[b := batches[b] + [i]];
      } else {
        OpenKeepsFirstFit(batches, access, i);
        batchSets := batchSets + [[access[i]]];
        batches := batches + [[i]];
      }
    }
  }

  /** Membership after adding `i` to batch `b` (which may be new). */
  lemma AddedMembership(batches: Batches, next: Batches, i: nat, b: nat)
    requires b <= |batches|
    requires next == if b < |batches| then batches[b := batches[b] + [i]] else batches + [[i]]
    ensures forall c, j :: InBatch(next, c, j) <==> InBatch(batches, c, j) || (c == b && j == i)
  {
  }

  lemma PlaceKeepsFirstFit(batches: Batches, access: seq<AccessSet>, i: nat, b: nat)
    requires FirstFit(batches, access, i) && b < |batches|
    requires forall c :: 0 <= c < b ==> Blocked(batches, access, c, i)
    requires forall j :: InBatch(batches, b, j) ==> !Conflict(access, j, i)
    ensures FirstFit(batches[b := batches[b] + [i]], access, i + 1)
  {
    var next := batches[b := batches[b] + [i]];
    AddedMembership(batches, next, i, b);
    assert forall k :: 0 <= k < |batches[b]| ==> InBatch(batches, b, batches[b][k]);
    AddKeeps(batches, next, access, i, b);
  }

  lemma OpenKeepsFirstFit(batches: Batches, access: seq<AccessSet>, i: nat)
    requires FirstFit(batches, access, i)
    requires forall c :: 0 <= c < |batches| ==> Blocked(batches, access, c, i)
    ensures FirstFit(batches + [[i]], access, i + 1)
  {
    var next := batches + [[i]];
    AddedMembership(batches, next, i, |batches|);
    AddKeeps(batches, next, access, i, |batches|);
  }

  lemma AddKeeps(batches: Batches, next: Batches, access: seq<AccessSet>, i: nat, b: nat)
    requires Partition(batches, i) && ConflictFree(batches, access) && Greedy(batches, access)
    requires forall c, j :: InBatch(next, c, j) <==> InBatch(batches, c, j) || (c == b && j == i)
    requires forall c :: 0 <= c < b ==> Blocked(batches, access, c, i)
    requires forall j :: InBatch(batches, b, j) ==> !Conflict(access, j, i)
    ensures Partition(next, i + 1) && ConflictFree(next, access) && Greedy(next, access)
  {
    forall j | 0 <= j < i + 1 ensures Placed(next, j) {
      if j < i {
        assert Placed(batches, j);
        var c :| InBatch(batches, c, j);
        assert InBatch(next, c, j);
      } else {
        assert InBatch(next, b, i);
      }
    }
    forall c, j, k | InBatch(next, c, j) && InBatch(next, c, k) && j != k ensures !Conflict(access, j, k) {
      if j == i {
        assert InBatch(batches, b, k) && c == b;
        SymmetricConflict(access, k, i);
      }
    }
    forall c, j, d | InBatch(next, c, j) && 0 <= d < c ensures Blocked(next, access, d, j) {
      assert Blocked(batches, access, d, j);
      var k :| InBatch(batches, d, k) && k < j && Conflict(access, k, j);
      assert InBatch(next, d, k);
    }
  }

  lemma SymmetricConflict(access: seq<AccessSet>, i: int, j: int)
    ensures Conflict(access, i, j) <==> Conflict(access, j, i)
  {
  }

  // ---------------------------------------------------------------------
  // What a first-fit schedule is
  // ---------------------------------------------------------------------

  /** The definition pins the schedule down: transaction `i` has only one possible batch. */
  lemma {:induction false} FirstFitPlacesAlike(b1: Batches, b2: Batches, access: seq<AccessSet>, n: nat, i: nat, b: nat)
    requires FirstFit(b1, access, n) && FirstFit(b2, access, n)
    requires InBatch(b1, b, i)
    ensures InBatch(b2, b, i)
    decreases i
  {
    assert Placed(b2, i);
    var c :| InBatch(b2, c, i);
    if c < b {
      // batch c of the first schedule holds an earlier conflicting transaction; so does batch c of the second
      assert Blocked(b1, access, c, i);
      var j :| InBatch(b1, c, j) && j < i && Conflict(access, j, i);
      FirstFitPlacesAlike(b1, b2, access, n, j, c);
    } else if b < c {
      assert Blocked(b2, access, b, i);
      var j :| InBatch(b2, b, j) && j < i && Conflict(access, j, i);
      FirstFitPlacesAlike(b2, b1, access, n, j, b);
    }
  }

  /** Ascending lists with the same members are equal. */
  lemma {:induction false} AscendingUnique(s: seq<nat>, t: seq<nat>)
    requires Ascending(s) && Ascending(t)
    requires forall i :: i in s <==> i in t
    ensures s == t
  {
    if s == [] {
      assert forall k :: 0 <= k < |t| ==> t[k] in s;
    } else {
      assert s[|s| - 1] in t;
      var x, y := s[|s| - 1], t[|t| - 1];
      assert y in s && x in t;
      var s', t' := s[..|s| - 1], t[..|t| - 1];
      forall i ensures i in s' <==> i in t' {
        assert i in s <==> i in s' || i == x;
        assert i in t <==> i in t' || i == y;
      }
      AscendingUnique(s', t');
    }
  }

  /** There is exactly one first-fit schedule of a block. */
  lemma FirstFitUnique(b1: Batches, b2: Batches, access: seq<AccessSet>, n: nat)
    requires FirstFit(b1, access, n) && FirstFit(b2, access, n)
    ensures b1 == b2
  {
    SameLength(b1, b2, access, n);
    SameLength(b2, b1, access, n);
    forall b | 0 <= b < |b1| ensures b1[b] == b2[b] {
      forall i ensures i in b1[b] <==> i in b2[b] {
        if InBatch(b1, b, i) {
          FirstFitPlacesAlike(b1, b2, access, n, i, b);
        }
        if InBatch(b2, b, i) {
          FirstFitPlacesAlike(b2, b1, access, n, i, b);
        }
      }
      AscendingUnique(b1[b], b2[b]);
    }
  }

  lemma SameLength(b1: Batches, b2: Batches, access: seq<AccessSet>, n: nat)
    requires FirstFit(b1, access, n) && FirstFit(b2, access, n)
    ensures |b1| <= |b2|
  {
    if b1 != [] {
      var last := |b1| - 1;
      assert InBatch(b1, last, b1[last][0]);
      FirstFitPlacesAlike(b1, b2, access, n, b1[last][0], last);
    }
  }

  /** The transactions other than `i` that conflict with `i`. */
  ghost function Rivals(access: seq<AccessSet>, i: nat): set<nat> {
    set j | 0 <= j < |access| && j != i && Conflict(access, j, i)
  }

  /**
   * Batch count: some transaction has at least one rival in every batch but its own, so the number
   * of batches is at most one more than the largest number of rivals.
   */
  lemma BatchCountBound(batches: Batches, access: seq<AccessSet>) returns (i: nat)
    requires FirstFit(batches, access, |access|) && batches != []
    ensures i < |access| && |batches| <= 1 + |Rivals(access, i)|
  {
    var last := |batches| - 1;
    i := batches[last][0];
    assert InBatch(batches, last, i);
    var found := RivalsBelow(batches, access, i, last);
    SubsetSize(found, Rivals(access, i));
  }

  lemma {:induction false} RivalsBelow(batches: Batches, access: seq<AccessSet>, i: nat,
                                       b: nat) returns (found: set<nat>)
    requires FirstFit(batches, access, |access|) && b < |batches|
    requires forall c :: 0 <= c < b ==> Blocked(batches, access, c, i)
    ensures |found| == b && found <= Rivals(access, i)
    ensures forall j :: j in found ==> exists c :: 0 <= c < b && InBatch(batches, c, j)
  {
    if b == 0 {
      found := {};
    } else {
      var rest := RivalsBelow(batches, access, i, b - 1);
      assert Blocked(batches, access, b - 1, i);
      var j :| InBatch(batches, b - 1, j) && j < i && Conflict(access, j, i);
      assert j !in rest;
      found := rest + {j};
    }
  }

}

/**
 * Serializability. A transaction step is framed by its access set: it reads only keys of the set
 * and writes only keys of its write part. Orders that agree on every conflicting pair then cannot
 * be told apart, neither by the store nor by any receipt.
 */
module Serial {
  import opened State
  import opened AccessSets

  /** What one transaction does to a store: its receipt and the writes it makes. */
  datatype Outcome = Outcome(receipt: Receipt, writes: Writes)

  /** `step(i, s)` is the execution of the block's `i`-th transaction against `s`. */
  type Step = (nat, Store) -> Outcome

  /** Outcome of a sequence of transactions: final store, and the receipt of each. */
  datatype RunResult = RunResult(store: Store, receipts: map<nat, Receipt>)

  function RunSeq(step: Step, order: seq<nat>, s: Store): RunResult {
    if order == [] then RunResult(s, map[])
    else
      var o := step(order[0], s);
      var rest := RunSeq(step, order[1..], ApplyWrites(s, o.writes));
      RunResult(rest.store, rest.receipts[order[0] := o.receipt])
  }

  ghost predicate FramedStep(step: Step, i: nat, acc: AccessSet) {
    && (forall s :: step(i, s).writes.Keys <= acc.writeSet)
    && (forall s, t :: AgreeOn(s, t, acc.Keys()) ==> step(i, s) == step(i, t))
  }

  ghost predicate Framed(step: Step, access: seq<AccessSet>) {
    forall i :: 0 <= i < |access| ==> FramedStep(step, i, access[i])
  }

  predicate Conflict(access: seq<AccessSet>, i: int, j: int) {
    0 <= i < |access| && 0 <= j < |access| && ConflictsWith(access[i], access[j])
  }

  predicate Indices(order: seq<nat>, n: nat) {
    forall k :: 0 <= k < |order| ==> order[k] < n
  }

  predicate Distinct(order: seq<nat>) {
    forall a, b :: 0 <= a < b < |order| ==> order[a] != order[b]
  }

  // ---------------------------------------------------------------------
  // Two independent transactions
  // ---------------------------------------------------------------------

  /** The writes of one leave alone everything the other touches. */
  lemma WritesOutsideAgree(s: Store, w: Writes, keys: set<Key>)
    requires w.Keys !! keys
    ensures AgreeOn(s, ApplyWrites(s, w), keys)
  {
  }

  lemma DisjointWritesCommute(s: Store, v: Writes, w: Writes)
    requires v.Keys !! w.Keys
    ensures ApplyWrites(ApplyWrites(s, v), w) == ApplyWrites(ApplyWrites(s, w), v)
  {
  }

  /** Swapping two neighbours that do not conflict changes nothing. */
  lemma SwapFront(step: Step, access: seq<AccessSet>, i: nat, j: nat, rest: seq<nat>, s: Store)
    requires Framed(step, access) && i < |access| && j < |access| && i != j && !Conflict(access, i, j)
    ensures RunSeq(step, [i, j] + rest, s) == RunSeq(step, [j, i] + rest, s)
  {
    IndependentExactly(access[i], access[j]);
    var oi, oj := step(i, s), step(j, s);
    assert FramedStep(step, i, access[i]) && FramedStep(step, j, access[j]);
    var si, sj := ApplyWrites(s, oi.writes), ApplyWrites(s, oj.writes);
    WritesOutsideAgree(s, oi.writes, access[j].Keys());
    WritesOutsideAgree(s, oj.writes, access[i].Keys());
    assert step(j, si) == oj && step(i, sj) == oi;
    DisjointWritesCommute(s, oi.writes, oj.writes);
    var end := ApplyWrites(si, oj.writes);
    RunTwo(step, i, j, rest, s);
    RunTwo(step, j, i, rest, s);
    var r: map<nat, Receipt> := RunSeq(step, rest, end).receipts;
    assert r[j := oj.receipt][i := oi.receipt] == r[i := oi.receipt][j := oj.receipt];
  }

  lemma RunTwo(step: Step, i: nat, j: nat, rest: seq<nat>, s: Store)
    ensures var si := ApplyWrites(s, step(i, s).writes);
            var sij := ApplyWrites(si, step(j, si).writes);
            var r := RunSeq(step, rest, sij);
            RunSeq(step, [i, j] + rest, s) ==
            RunResult(r.store, r.receipts[j := step(j, si).receipt][i := step(i, s).receipt])
  {
  }

  lemma RunCons(step: Step, i: nat, rest: seq<nat>, s: Store)
    ensures var o := step(i, s);
            var r := RunSeq(step, rest, ApplyWrites(s, o.writes));
            RunSeq(step, [i] + rest, s) == RunResult(r.store, r.receipts[i := o.receipt])
  {
  }

  /** A transaction that conflicts with nothing before it can run first. */
  lemma {:induction false} MoveToFront(step: Step, access: seq<AccessSet>, before: seq<nat>, x: nat, rest: seq<nat>,
                                       s: Store)
    requires Framed(step, access) && Indices(before, |access|) && x < |access|
    requires forall k :: 0 <= k < |before| ==> before[k] != x && !Conflict(access, before[k], x)
    ensures RunSeq(step, before + [x] + rest, s) == RunSeq(step, [x] + before + rest, s)
  {
    if before == [] {
      assert before + [x] + rest == [x] + before + rest;
    } else {
      var i, tail := before[0], before[1..];
      var s1 := ApplyWrites(s, step(i, s).writes);
      assert before + [x] + rest == [i] + (tail + [x] + rest);
      RunCons(step, i, tail + [x] + rest, s);
      MoveToFront(step, access, tail, x, rest, s1);
      assert [x] + tail + rest == [x] + (tail + rest);
      RunCons(step, i, [x] + (tail + rest), s);
      assert [i] + ([x] + (tail + rest)) == [i, x] + (tail + rest);
      assert !Conflict(access, i, x);
      SwapFront(step, access, i, x, tail + rest, s);
      assert [x] + before + rest == [x, i] + (tail + rest);
    }
  }

  // ---------------------------------------------------------------------
  // Trace equivalence
  // ---------------------------------------------------------------------

  predicate Before(order: seq<nat>, i: nat, j: nat) {
    exists a, b :: 0 <= a < b < |order| && order[a] == i && order[b] == j
  }

  /** Both orders run the same transactions, each once. */
  ghost predicate SameTransactions(o1: seq<nat>, o2: seq<nat>) {
    Distinct(o1) && Distinct(o2) && forall i :: i in o1 <==> i in o2
  }

  ghost predicate SameConflictOrder(access: seq<AccessSet>, o1: seq<nat>, o2: seq<nat>) {
    forall i, j :: Conflict(access, i, j) && Before(o1, i, j) ==> Before(o2, i, j)
  }

  lemma BeforeAt(order: seq<nat>, a: nat, b: nat)
    requires a < b < |order|
    ensures Before(order, order[a], order[b])
  {
  }

  lemma BeforeNotAfter(order: seq<nat>, i: nat, j: nat)
    requires Distinct(order) && Before(order, i, j)
    ensures !Before(order, j, i)
  {
  }

  /** Dropping one transaction from both orders keeps the relation between them. */
  lemma DropSame(o1: seq<nat>, at: nat, o2: seq<nat>)
    requires SameTransactions(o1, o2) && at < |o1| && o2 != [] && o1[at] == o2[0]
    ensures SameTransactions(o1[..at] + o1[at + 1..], o2[1..])
  {
    var d1, d2 := o1[..at] + o1[at + 1..], o2[1..];
    forall i ensures i in d1 <==> i in d2 {
      if i in d1 {
        var k :| 0 <= k < |d1| && d1[k] == i;
        var k' := if k < at then k else k + 1;
        assert o1[k'] == i;
        assert i in o2 && i != o2[0];
      }
      if i in d2 {
        assert i in o2 && i != o2[0] && i in o1;
        var k :| 0 <= k < |o1| && o1[k] == i;
        assert d1[if k < at then k else k - 1] == i;
      }
    }
  }

  lemma DropConflictOrder(access: seq<AccessSet>, o1: seq<nat>, at: nat, o2: seq<nat>)
    requires SameTransactions(o1, o2) && at < |o1| && o2 != [] && o1[at] == o2[0]
    requires SameConflictOrder(access, o1, o2)
    ensures SameConflictOrder(access, o1[..at] + o1[at + 1..], o2[1..])
  {
  }

  /** What comes first in one order conflicts with nothing that the other order puts before it. */
  lemma NoRivalBefore(access: seq<AccessSet>, o1: seq<nat>, at: nat, o2: seq<nat>)
    requires SameTransactions(o1, o2) && SameConflictOrder(access, o1, o2) && Indices(o2, |access|)
    requires at < |o1| && o2 != [] && o1[at] == o2[0]
    ensures forall k :: 0 <= k < at ==> o1[k] < |access| && o1[k] != o1[at] && !Conflict(access, o1[k], o1[at])
  {
    hide Conflict;
    forall k | 0 <= k < at ensures o1[k] < |access| && !Conflict(access, o1[k], o1[at]) {
      assert o1[k] in o1 && o1[k] in o2;
      BeforeAt(o1, k, at);
      NothingBeforeHead(o2, o1[k]);
    }
  }

  /**
   * Trace equivalence: two orders of the same transactions that order every conflicting pair alike
   * lead to the same store and give every transaction the same receipt.
   */
  lemma {:induction false} TraceEquivalence(step: Step, access: seq<AccessSet>, o1: seq<nat>, o2: seq<nat>, s: Store)
    requires Framed(step, access) && Indices(o2, |access|)
    requires SameTransactions(o1, o2) && SameConflictOrder(access, o1, o2)
    ensures RunSeq(step, o1, s) == RunSeq(step, o2, s)
    decreases |o2|
  {
    hide RunSeq, FramedStep, ConflictsWith;
    assert o1 != [] ==> o1[0] in o1 && o1[0] in o2;
    if o2 == [] {
    } else {
      var x := o2[0];
      assert x in o2;
      var at :| 0 <= at < |o1| && o1[at] == x;
      var before, rest := o1[..at], o1[at + 1..];
      assert o1 == before + [x] + rest;
      NoRivalBefore(access, o1, at, o2);
      MoveToFront(step, access, before, x, rest, s);
      assert [x] + before + rest == [x] + (before + rest);
      RunCons(step, x, before + rest, s);
      DropSame(o1, at, o2);
      DropConflictOrder(access, o1, at, o2);
      TraceEquivalence(step, access, before + rest, o2[1..], ApplyWrites(s, step(x, s).writes));
      assert o2 == [x] + o2[1..];
      RunCons(step, x, o2[1..], s);
    }
  }

  lemma NothingBeforeHead(order: seq<nat>, i: nat)
    requires Distinct(order) && order != []
    ensures !Before(order, i, order[0])
  {
  }
}

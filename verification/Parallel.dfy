/** Parallel block execution (`parallel.rs`): overlays of one base per batch, flush, and reassembly. */
module Parallel {
  import opened Basics
  import opened State
  import opened AccessSets
  import opened Serial
  import opened Schedule

  /** Every transaction of the batch runs on an overlay of `base`; the overlays are then flushed in the given order. */
  function FlushBatch(step: Step, order: seq<nat>, base: Store, s: Store): RunResult {
    if order == [] then RunResult(s, map[])
    else
      var o := step(order[0], base);
      var rest := FlushBatch(step, order[1..], base, ApplyWrites(s, o.writes));
      RunResult(rest.store, rest.receipts[order[0] := o.receipt])
  }

  /** Batches one after another, each against the store the previous one left. */
  function RunBatches(step: Step, batches: Batches, s: Store): RunResult {
    if batches == [] then RunResult(s, map[])
    else
      var first := FlushBatch(step, batches[0], s, s);
      var rest := RunBatches(step, batches[1..], first.store);
      RunResult(rest.store, rest.receipts + first.receipts)
  }

  function Flatten(batches: Batches): seq<nat> {
    if batches == [] then [] else batches[0] + Flatten(batches[1..])
  }

  function BlockOrder(n: nat): seq<nat> {
    seq(n, i => i)
  }

  // ---------------------------------------------------------------------
  // One batch
  // ---------------------------------------------------------------------

  ghost predicate Independent(order: seq<nat>, access: seq<AccessSet>) {
    forall a, b :: 0 <= a < b < |order| ==> order[a] != order[b] && !Conflict(access, order[a], order[b])
  }

  /** Earlier members of an independent batch leave alone what later ones touch. */
  lemma {:induction false} FlushIsSequential(step: Step, access: seq<AccessSet>, order: seq<nat>, base: Store, s: Store)
    requires Framed(step, access) && Indices(order, |access|) && Independent(order, access)
    requires forall k :: 0 <= k < |order| ==> AgreeOn(base, s, access[order[k]].Keys())
    ensures FlushBatch(step, order, base, s) == RunSeq(step, order, s)
  {
    if order == [] {
    } else {
      var i, rest := order[0], order[1..];
      assert FramedStep(step, i, access[i]);
      var o := step(i, base);
      var s' := ApplyWrites(s, o.writes);
      forall k | 0 <= k < |rest| ensures AgreeOn(base, s', access[rest[k]].Keys()) {
        assert rest[k] == order[k + 1] && !Conflict(access, order[0], order[k + 1]);
        IndependentExactly(access[i], access[rest[k]]);
        WritesOutsideAgree(s, o.writes, access[rest[k]].Keys());
      }
      FlushIsSequential(step, access, rest, base, s');
    }
  }

  /**
   * Batch isolation: running an independent batch on separate overlays of one store and flushing
   * them in any order equals running its transactions one after another in any order.
   */
  lemma BatchIsolation(step: Step, access: seq<AccessSet>, flush: seq<nat>, order: seq<nat>, s: Store)
    requires Framed(step, access) && Indices(order, |access|) && Indices(flush, |access|)
    requires Independent(flush, access) && Independent(order, access) && SameTransactions(flush, order)
    ensures FlushBatch(step, flush, s, s) == RunSeq(step, order, s)
  {
    FlushIsSequential(step, access, flush, s, s);
    assert SameConflictOrder(access, flush, order);
    TraceEquivalence(step, access, flush, order, s);
  }

  // ---------------------------------------------------------------------
  // Whole blocks
  // ---------------------------------------------------------------------

  lemma {:induction false} RunSeqAppend(step: Step, a: seq<nat>, b: seq<nat>, s: Store)
    ensures var ra := RunSeq(step, a, s);
            var rb := RunSeq(step, b, ra.store);
            RunSeq(step, a + b, s) == RunResult(rb.store, rb.receipts + ra.receipts)
  {
    if a == [] {
      assert a + b == b;
    } else {
      assert (a + b)[1..] == a[1..] + b;
      RunSeqAppend(step, a[1..], b, ApplyWrites(s, step(a[0], s).writes));
    }
  }

  ghost predicate GoodBatch(batch: seq<nat>, access: seq<AccessSet>) {
    Indices(batch, |access|) && Independent(batch, access)
  }

  lemma FirstFitGoodBatches(batches: Batches, access: seq<AccessSet>)
    requires FirstFit(batches, access, |access|)
    ensures forall b :: 0 <= b < |batches| ==> GoodBatch(batches[b], access)
  {
    forall b | 0 <= b < |batches| ensures GoodBatch(batches[b], access) {
      forall k | 0 <= k < |batches[b]| ensures batches[b][k] < |access| {
        assert InBatch(batches, b, batches[b][k]);
      }
      forall x, y | 0 <= x < y < |batches[b]| ensures !Conflict(access, batches[b][x], batches[b][y]) {
        assert InBatch(batches, b, batches[b][x]) && InBatch(batches, b, batches[b][y]);
      }
    }
  }

  /** Parallel execution equals running the flattened batches one transaction at a time. */
  lemma {:induction false} ParallelIsFlattened(step: Step, access: seq<AccessSet>, batches: Batches, s: Store)
    requires Framed(step, access)
    requires forall b :: 0 <= b < |batches| ==> GoodBatch(batches[b], access)
    ensures RunBatches(step, batches, s) == RunSeq(step, Flatten(batches), s)
  {
    if batches == [] {
    } else {
      assert GoodBatch(batches[0], access);
      FlushIsSequential(step, access, batches[0], s, s);
      ParallelIsFlattened(step, access, batches[1..], RunSeq(step, batches[0], s).store);
      RunSeqAppend(step, batches[0], Flatten(batches[1..]), s);
    }
  }

  /** Transaction `j` runs in an earlier batch than `i`, although it comes later in the block and conflicts with it. */
  ghost predicate Inverted(batches: Batches, access: seq<AccessSet>, i: int, j: int) {
    && i < j && Conflict(access, i, j)
    && exists b, c :: c < b && InBatch(batches, b, i) && InBatch(batches, c, j)
  }

  ghost predicate KeepsConflictOrder(batches: Batches, access: seq<AccessSet>) {
    forall i, j :: !Inverted(batches, access, i, j)
  }

  ghost predicate Disjoint(batches: Batches) {
    && (forall b :: 0 <= b < |batches| ==> Ascending(batches[b]))
    && (forall b, c, i :: InBatch(batches, b, i) && InBatch(batches, c, i) ==> b == c)
  }

  lemma TailDisjoint(batches: Batches)
    requires batches != [] && Disjoint(batches)
    ensures Disjoint(batches[1..])
    ensures forall b, i :: InBatch(batches[1..], b, i) ==> InBatch(batches, b + 1, i)
    ensures forall b, i :: b > 0 && InBatch(batches, b, i) ==> InBatch(batches[1..], b - 1, i)
  {
    var rest := batches[1..];
    forall b, c, i | InBatch(rest, b, i) && InBatch(rest, c, i) ensures b == c {
      assert InBatch(batches, b + 1, i) && InBatch(batches, c + 1, i);
    }
  }

  lemma {:induction false} FlattenMembers(batches: Batches, i: nat)
    ensures i in Flatten(batches) <==> Placed(batches, i)
  {
    if batches == [] {
    } else {
      var rest := batches[1..];
      FlattenMembers(rest, i);
      if i in batches[0] {
        assert InBatch(batches, 0, i);
      }
      if Placed(rest, i) {
        var b :| InBatch(rest, b, i);
        assert InBatch(batches, b + 1, i);
      }
      if Placed(batches, i) {
        var b :| InBatch(batches, b, i);
        if b > 0 {
          assert InBatch(rest, b - 1, i);
        }
      }
    }
  }

  lemma {:induction false} FlattenDistinct(batches: Batches)
    requires Disjoint(batches)
    ensures Serial.Distinct(Flatten(batches))
  {
    if batches == [] {
    } else {
      var head, rest := batches[0], Flatten(batches[1..]);
      TailDisjoint(batches);
      FlattenDistinct(batches[1..]);
      forall a, b | 0 <= a < |head| && 0 <= b < |rest| ensures head[a] != rest[b] {
        FlattenMembers(batches[1..], rest[b]);
        assert rest[b] in rest;
        var c :| InBatch(batches[1..], c, rest[b]);
        assert InBatch(batches, c + 1, rest[b]) && InBatch(batches, 0, head[a]);
      }
    }
  }

  /** Members of earlier batches come first in the flattened order. */
  lemma {:induction false} FlattenOrder(batches: Batches, b: nat, c: nat, i: nat, j: nat)
    requires b < c && InBatch(batches, b, i) && InBatch(batches, c, j)
    ensures Before(Flatten(batches), i, j)
  {
    var head, rest := batches[0], Flatten(batches[1..]);
    if b == 0 {
      assert InBatch(batches[1..], c - 1, j);
      FlattenMembers(batches[1..], j);
      var x :| 0 <= x < |head| && head[x] == i;
      var y :| 0 <= y < |rest| && rest[y] == j;
      BeforeAt(head + rest, x, |head| + y);
    } else {
      assert InBatch(batches[1..], b - 1, i) && InBatch(batches[1..], c - 1, j);
      FlattenOrder(batches[1..], b - 1, c - 1, i, j);
      var x, y :| 0 <= x < y < |rest| && rest[x] == i && rest[y] == j;
      BeforeAt(head + rest, |head| + x, |head| + y);
    }
  }

  lemma FlattenFirstFit(batches: Batches, access: seq<AccessSet>)
    requires FirstFit(batches, access, |access|)
    ensures SameTransactions(BlockOrder(|access|), Flatten(batches)) && Indices(Flatten(batches), |access|)
  {
    var order := Flatten(batches);
    FlattenDistinct(batches);
    forall i: nat ensures i in BlockOrder(|access|) <==> i in order {
      FlattenMembers(batches, i);
      if i < |access| {
        assert BlockOrder(|access|)[i] == i && Placed(batches, i);
      }
    }
    forall k | 0 <= k < |order| ensures order[k] < |access| {
      assert order[k] in order;
      FlattenMembers(batches, order[k]);
    }
  }

  /** If no conflicting pair is inverted, parallel execution equals block order. */
  lemma OrderedScheduleIsBlockOrder(step: Step, access: seq<AccessSet>, batches: Batches, s: Store)
    requires Framed(step, access) && FirstFit(batches, access, |access|) && KeepsConflictOrder(batches, access)
    ensures RunBatches(step, batches, s) == RunSeq(step, BlockOrder(|access|), s)
  {
    var block, order := BlockOrder(|access|), Flatten(batches);
    FirstFitGoodBatches(batches, access);
    ParallelIsFlattened(step, access, batches, s);
    FlattenFirstFit(batches, access);
    forall i, j | Conflict(access, i, j) && Before(block, i, j) ensures Before(order, i, j) {
      assert Placed(batches, i) && Placed(batches, j);
      var b :| InBatch(batches, b, i);
      var c :| InBatch(batches, c, j);
      assert !Inverted(batches, access, i, j) && b != c;
      FlattenOrder(batches, b, c, i, j);
    }
    TraceEquivalence(step, access, block, order, s);
  }

  // ---------------------------------------------------------------------
  // An inverted pair is observable
  // ---------------------------------------------------------------------

  /** A block in which `writer` writes one key, `reader` reports whether it is there, and nobody else does anything. */
  function Probe(writer: nat, reader: nat, key: Key): Step {
    (i: nat, s: Store) =>
      if i == writer then Outcome(Receipt(true, 0, 0, ZERO_ADDRESS), map[key := Some(OtherValue(1))])
      else if i == reader then Outcome(Receipt(key in s, 0, 0, ZERO_ADDRESS), map[])
      else Outcome(Receipt(true, 0, 0, ZERO_ADDRESS), map[])
  }

  lemma ProbeFramed(access: seq<AccessSet>, writer: nat, reader: nat, key: Key)
    requires writer < |access| && reader < |access| && writer != reader
    requires key in access[writer].writeSet && key in access[reader].Keys()
    ensures Framed(Probe(writer, reader, key), access)
  {
  }

  /** The reader sees the key exactly when the writer ran before it. */
  lemma {:induction false} ProbeReads(order: seq<nat>, writer: nat, reader: nat, key: Key, s: Store)
    requires Serial.Distinct(order) && reader in order && writer in order && writer != reader
    ensures reader in RunSeq(Probe(writer, reader, key), order, s).receipts
    ensures key in s ==> RunSeq(Probe(writer, reader, key), order, s).receipts[reader].success
    ensures key !in s ==>
              (RunSeq(Probe(writer, reader, key), order, s).receipts[reader].success <==> Before(order, writer, reader))
  {
    var step := Probe(writer, reader, key);
    var x, rest := order[0], order[1..];
    var s' := ApplyWrites(s, step(x, s).writes);
    if x == reader {
      NothingBeforeHead(order, writer);
      assert reader !in rest;
    } else {
      assert reader in rest;
      if x == writer {
        assert key in s';
        var b :| 0 <= b < |rest| && rest[b] == reader;
        assert order[b + 1] == reader;
        ProbeSeen(rest, writer, reader, key, s');
      } else {
        assert ApplyWrites(s, map[]) == s;
        assert writer in rest;
        ProbeReads(rest, writer, reader, key, s);
        assert Before(rest, writer, reader) ==> Before(order, writer, reader) by {
          if Before(rest, writer, reader) {
            var a, b :| 0 <= a < b < |rest| && rest[a] == writer && rest[b] == reader;
            assert order[a + 1] == writer && order[b + 1] == reader;
          }
        }
        assert Before(order, writer, reader) ==> Before(rest, writer, reader) by {
          if Before(order, writer, reader) {
            var a, b :| 0 <= a < b < |order| && order[a] == writer && order[b] == reader;
            assert rest[a - 1] == writer && rest[b - 1] == reader;
          }
        }
      }
    }
  }

  /** Once written, the key stays. */
  lemma {:induction false} ProbeSeen(order: seq<nat>, writer: nat, reader: nat, key: Key, s: Store)
    requires reader in order && writer != reader && key in s
    ensures reader in RunSeq(Probe(writer, reader, key), order, s).receipts
    ensures RunSeq(Probe(writer, reader, key), order, s).receipts[reader].success
  {
    var step := Probe(writer, reader, key);
    var x := order[0];
    var s' := ApplyWrites(s, step(x, s).writes);
    assert key in s';
    if x != reader {
      assert reader in order[1..];
      ProbeSeen(order[1..], writer, reader, key, s');
    }
  }

  /** An inverted pair gives some framed block a different receipt than block order would. */
  lemma InversionObservable(access: seq<AccessSet>, batches: Batches, i: nat, j: nat) returns (step: Step)
    requires FirstFit(batches, access, |access|) && Inverted(batches, access, i, j)
    ensures Framed(step, access)
    ensures RunBatches(step, batches, map[]) != RunSeq(step, BlockOrder(|access|), map[])
  {
    var block, order := BlockOrder(|access|), Flatten(batches);
    var b, c :| c < b && InBatch(batches, b, i) && InBatch(batches, c, j);
    FlattenOrder(batches, c, b, j, i);
    FlattenFirstFit(batches, access);
    BeforeNotAfter(order, j, i);
    assert block[i] == i && block[j] == j;
    BeforeAt(block, i, j);
    BeforeNotAfter(block, i, j);
    assert i in block && j in block && i in order && j in order;
    var key, writer, reader := ConflictKey(access, i, j);
    step := Probe(writer, reader, key);
    ProbeFramed(access, writer, reader, key);
    ProbeReads(block, writer, reader, key, map[]);
    ProbeReads(order, writer, reader, key, map[]);
    FirstFitGoodBatches(batches, access);
    ParallelIsFlattened(step, access, batches, map[]);
  }

  lemma ConflictKey(access: seq<AccessSet>, i: nat, j: nat) returns (key: Key, writer: nat, reader: nat)
    requires Conflict(access, i, j)
    ensures (writer == i && reader == j) || (writer == j && reader == i)
    ensures key in access[writer].writeSet && key in access[reader].Keys()
  {
    if k :| k in access[j].writeSet && k in access[i].Keys() {
      key, writer, reader := k, j, i;
    } else {
      key :| key in access[i].writeSet && key in access[j].readSet;
      writer, reader := i, j;
    }
  }

  ghost predicate AlwaysBlockOrder(access: seq<AccessSet>, batches: Batches) {
    forall step: Step, s :: Framed(step, access) ==>
      RunBatches(step, batches, s) == RunSeq(step, BlockOrder(|access|), s)
  }

  /**
   * Parallel execution equals block order for every framed block with these access sets if and only
   * if the schedule inverts no conflicting pair.
   */
  lemma BlockOrderExactly(access: seq<AccessSet>, batches: Batches)
    requires FirstFit(batches, access, |access|)
    ensures AlwaysBlockOrder(access, batches) <==> KeepsConflictOrder(batches, access)
  {
    if KeepsConflictOrder(batches, access) {
      forall step: Step, s | Framed(step, access)
        ensures RunBatches(step, batches, s) == RunSeq(step, BlockOrder(|access|), s)
      {
        OrderedScheduleIsBlockOrder(step, access, batches, s);
      }
    } else {
      var i, j :| Inverted(batches, access, i, j);
      var step := InversionObservable(access, batches, i, j);
      assert Framed(step, access);
    }
  }
}

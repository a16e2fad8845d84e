/** `ParallelExecutor`: schedule, run each batch on overlays, flush, put the receipts back in block order. */
module ParallelExecutor {
  import opened State
  import opened AccessSets
  import opened Serial
  import opened Schedule
  import opened Parallel
  import opened Overlay

  datatype ScheduleStats = ScheduleStats(totalTransactions: nat, batchCount: nat, maxBatchSize: nat,
                                         parallelismRatio: real)

  type Indexed = seq<(nat, Receipt)>

  /** Receipts of a batch, as a list: `FlushBatch` collects the same ones in a map. */
  function ReceiptsOn(step: Step, batch: seq<nat>, base: Store): Indexed {
    seq(|batch|, k requires 0 <= k < |batch| => (batch[k], step(batch[k], base).receipt))
  }

  predicate Listed(results: Indexed, i: int) {
    exists k :: 0 <= k < |results| && results[k].0 == i
  }

  predicate ListsReceipts(results: Indexed, receipts: map<nat, Receipt>) {
    && (forall k :: 0 <= k < |results| ==> results[k].0 in receipts && receipts[results[k].0] == results[k].1)
    && (forall i :: i in receipts ==> Listed(results, i))
  }

  predicate DistinctKeys(results: Indexed) {
    forall a, b :: 0 <= a < b < |results| ==> results[a].0 != results[b].0
  }

  /** The flush loop of one batch, seen from its end. */
  lemma {:induction false} FlushSnoc(step: Step, order: seq<nat>, i: nat, base: Store, s: Store)
    ensures FlushBatch(step, order + [i], base, s).store ==
            ApplyWrites(FlushBatch(step, order, base, s).store, step(i, base).writes)
  {
    if order == [] {
      assert order + [i] == [i];
      var s1 := ApplyWrites(s, step(i, base).writes);
      assert FlushBatch(step, [], base, s1).store == s1;
    } else {
      assert (order + [i])[1..] == order[1..] + [i];
      FlushSnoc(step, order[1..], i, base, ApplyWrites(s, step(order[0], base).writes));
    }
  }

  lemma {:induction false} FlushReceipts(step: Step, order: seq<nat>, base: Store, s: Store)
    requires Serial.Distinct(order)
    ensures ListsReceipts(ReceiptsOn(step, order, base), FlushBatch(step, order, base, s).receipts)
  {
    if order == [] {
    } else {
      var s' := ApplyWrites(s, step(order[0], base).writes);
      var rest := FlushBatch(step, order[1..], base, s').receipts;
      FlushReceipts(step, order[1..], base, s');
      var all, tail := ReceiptsOn(step, order, base), ReceiptsOn(step, order[1..], base);
      assert forall k :: 0 <= k < |tail| ==> all[k + 1] == tail[k];
      forall k | 0 < k < |all| ensures all[k].0 in rest && rest[all[k].0] == all[k].1 && all[k].0 != order[0] {
        assert all[k] == tail[k - 1];
      }
      forall i | i in rest ensures Listed(all, i) {
        assert Listed(tail, i);
        var k :| 0 <= k < |tail| && tail[k].0 == i;
        assert all[k + 1].0 == i;
      }
      assert all[0].0 == order[0];
    }
  }

  /** Run a batch: every transaction on its own overlay of the store as it is, then flush one after another. */
  method ExecuteBatch(store: StateStore, step: Step, batch: seq<nat>) returns (results: Indexed)
    modifies store
    ensures store.data == FlushBatch(step, batch, old(store.data), old(store.data)).store
    ensures results == ReceiptsOn(step, batch, old(store.data))
  {
    ghost var base := store.data;
    var outcomes: seq<(nat, Outcome)> := [];
    for k := 0 to |batch|
      invariant store.data == base
      invariant |outcomes| == k
      invariant forall m :: 0 <= m < k ==> outcomes[m] == (batch[m], step(batch[m], base))
    {
      outcomes := outcomes + [(batch[k], step(batch[k], store.data))];
    }
    results := [];
    for k := 0 to |batch|
      invariant store.data == FlushBatch(step, batch[..k], base, base).store
      invariant |results| == k
      invariant forall m :: 0 <= m < k ==> results[m] == (batch[m], step(batch[m], base).receipt)
    {
      var (i, o) := outcomes[k];
      FlushSnoc(step, batch[..k], i, base, base);
      assert batch[..k + 1] == batch[..k] + [i];
      FlushWrites(store, o.writes);
      results := results + [(i, o.receipt)];
    }
    assert batch[..|batch|] == batch;
  }

  // ---------------------------------------------------------------------
  // Reassembly
  // ---------------------------------------------------------------------

  predicate SortedByIndex(results: Indexed) {
    forall a, b :: 0 <= a < b < |results| ==> results[a].0 <= results[b].0
  }

  function Insert(x: (nat, Receipt), sorted: Indexed): Indexed {
    if sorted == [] || x.0 < sorted[0].0 then [x] + sorted else [sorted[0]] + Insert(x, sorted[1..])
  }

  lemma {:induction false} InsertPermutes(x: (nat, Receipt), sorted: Indexed)
    ensures multiset(Insert(x, sorted)) == multiset(sorted) + multiset{x}
  {
    if !(sorted == [] || x.0 < sorted[0].0) {
      assert sorted == [sorted[0]] + sorted[1..];
      InsertPermutes(x, sorted[1..]);
    }
  }

  lemma {:induction false} InsertSorts(x: (nat, Receipt), sorted: Indexed)
    requires SortedByIndex(sorted)
    ensures SortedByIndex(Insert(x, sorted))
    ensures forall k :: 0 <= k < |Insert(x, sorted)| ==> Insert(x, sorted)[k] == x || Insert(x, sorted)[k] in sorted
  {
    if !(sorted == [] || x.0 < sorted[0].0) {
      InsertSorts(x, sorted[1..]);
    }
  }

  /** `sort_by_key`, as an insertion sort. */
  method SortByIndex(results: Indexed) returns (sorted: Indexed)
    ensures SortedByIndex(sorted) && multiset(sorted) == multiset(results)
  {
    sorted := [];
    for k := 0 to |results|
      invariant SortedByIndex(sorted) && multiset(sorted) == multiset(results[..k])
    {
      InsertPermutes(results[k], sorted);
      InsertSorts(results[k], sorted);
      sorted := Insert(results[k], sorted);
      assert results[..k + 1] == results[..k] + [results[k]];
    }
    assert results[..|results|] == results;
  }

  /** Sorting a list that carries each of 0, 1, ..., n - 1 once puts entry `i` at position `i`. */
  lemma SortedIsIdentity(results: Indexed, sorted: Indexed, receipts: map<nat, Receipt>, n: nat)
    requires SortedByIndex(sorted) && multiset(sorted) == multiset(results) && DistinctKeys(results)
    requires ListsReceipts(results, receipts) && forall i: nat :: i in receipts <==> i < n
    ensures |sorted| == n && forall i :: 0 <= i < n ==> sorted[i] == (i, receipts[i])
  {
    PermutationKeepsDistinct(results, sorted);
    forall k | 0 <= k < |sorted| ensures sorted[k].0 < n && sorted[k].1 == receipts[sorted[k].0] {
      assert sorted[k] in multiset(results);
    }
    forall i | 0 <= i < n ensures Listed(sorted, i) {
      assert i in receipts && Listed(results, i);
      var k :| 0 <= k < |results| && results[k].0 == i;
      assert results[k] in multiset(sorted);
    }
    StrictlySortedIdentity(sorted, n);
  }

  lemma {:induction false} StrictlySortedIdentity(sorted: Indexed, n: nat)
    requires SortedByIndex(sorted) && DistinctKeys(sorted)
    requires forall k :: 0 <= k < |sorted| ==> sorted[k].0 < n
    requires forall i :: 0 <= i < n ==> Listed(sorted, i)
    ensures |sorted| == n && forall i :: 0 <= i < n ==> sorted[i].0 == i
  {
    assert |sorted| > 0 ==> sorted[0].0 < n;
    if n == 0 {
    } else {
      assert Listed(sorted, n - 1);
      var k :| 0 <= k < |sorted| && sorted[k].0 == n - 1;
      assert sorted[k].0 <= sorted[|sorted| - 1].0;
      var init := sorted[..k];
      forall i | 0 <= i < n - 1 ensures Listed(init, i) {
        assert Listed(sorted, i);
        var m :| 0 <= m < |sorted| && sorted[m].0 == i;
        assert init[m].0 == i;
      }
      StrictlySortedIdentity(init, n - 1);
    }
  }

  lemma PermutationKeepsDistinct(results: Indexed, sorted: Indexed)
    requires multiset(sorted) == multiset(results) && DistinctKeys(results)
    ensures DistinctKeys(sorted)
  {
    forall a, b | 0 <= a < b < |sorted| ensures sorted[a].0 != sorted[b].0 {
      var x, y := sorted[a], sorted[b];
      assert sorted == sorted[..a] + [x] + sorted[a + 1..b] + [y] + sorted[b + 1..];
      assert x in multiset(results) && y in multiset(results);
      if x == y {
        assert multiset(sorted)[x] >= 2;
        DistinctOnce(results, x);
      }
      var i :| 0 <= i < |results| && results[i] == x;
      var j :| 0 <= j < |results| && results[j] == y;
    }
  }

  lemma {:induction false} DistinctOnce(results: Indexed, x: (nat, Receipt))
    requires DistinctKeys(results)
    ensures multiset(results)[x] <= 1
  {
    if results == [] {
    } else {
      var tail := results[1..];
      assert results == [results[0]] + tail;
      assert forall k :: 0 <= k < |tail| ==> tail[k] == results[k + 1];
      assert results[0] !in tail;
      DistinctOnce(tail, x);
    }
  }

  // ---------------------------------------------------------------------
  // A whole block
  // ---------------------------------------------------------------------

  function Stats(batches: Batches): ScheduleStats {
    ScheduleStats(|Flatten(batches)|, |batches|, MaxSize(batches),
                  if batches == [] then 0.0 else |Flatten(batches)| as real / |batches| as real)
  }

  function MaxSize(batches: Batches): nat {
    if batches == [] then 0
    else if |batches[0]| > MaxSize(batches[1..]) then |batches[0]| else MaxSize(batches[1..])
  }

  lemma {:induction false} MaxSizeIsMax(batches: Batches)
    ensures forall b :: 0 <= b < |batches| ==> |batches[b]| <= MaxSize(batches)
    ensures batches != [] ==> exists b :: 0 <= b < |batches| && |batches[b]| == MaxSize(batches)
  {
    if batches == [] {
    } else {
      var rest := batches[1..];
      MaxSizeIsMax(rest);
      assert forall b :: 1 <= b < |batches| ==> batches[b] == rest[b - 1];
      if |batches[0]| > MaxSize(rest) {
        assert |batches[0]| == MaxSize(batches);
      } else if rest != [] {
        var b :| 0 <= b < |rest| && |rest[b]| == MaxSize(rest);
        assert |batches[b + 1]| == MaxSize(batches);
      }
    }
  }

  lemma {:induction false} FlattenSize(batches: Batches, bound: nat)
    requires forall b :: 0 <= b < |batches| ==> |batches[b]| <= bound
    ensures |Flatten(batches)| <= |batches| * bound
  {
    if batches == [] {
    } else {
      FlattenSize(batches[1..], bound);
      assert |batches| * bound == |batches[1..]| * bound + bound;
    }
  }

  function Indices(order: seq<nat>): set<nat> {
    set i | i in order
  }

  lemma {:induction false} DistinctLength(order: seq<nat>)
    requires Serial.Distinct(order)
    ensures |Indices(order)| == |order|
  {
    if order == [] {
    } else {
      DistinctLength(order[1..]);
      assert order[0] !in Indices(order[1..]) && Indices(order) == Indices(order[1..]) + {order[0]};
    }
  }

  lemma Scaled(x: real, y: real, c: real)
    requires x < y && c > 0.0
    ensures x * c < y * c
  {
  }

  lemma QuotientBounds(a: real, c: real, m: real)
    requires 0.0 < c <= a <= m * c
    ensures 1.0 <= a / c <= m
  {
    var q := a / c;
    assert q * c == a;
    if q < 1.0 {
      Scaled(q, 1.0, c);
    }
    if q > m {
      Scaled(m, q, c);
    }
  }

  lemma RatioBounds(total: nat, count: nat, most: nat)
    requires 0 < count <= total <= count * most
    ensures 1.0 <= total as real / count as real <= most as real
  {
    assert (count * most) as real == most as real * count as real;
    QuotientBounds(total as real, count as real, most as real);
  }

  /**
   * The statistics of a schedule: every transaction counted once, the largest batch, and a ratio
   * between one and the size of that batch, with real numbers for the source's floating point.
   */
  lemma StatsMeasure(batches: Batches, access: seq<AccessSet>)
    requires FirstFit(batches, access, |access|)
    ensures var stats := Stats(batches);
            && stats.totalTransactions == |access|
            && |access| <= stats.batchCount * stats.maxBatchSize
            && (forall b :: 0 <= b < |batches| ==> |batches[b]| <= stats.maxBatchSize)
            && (batches != [] ==> exists b :: 0 <= b < |batches| && |batches[b]| == stats.maxBatchSize)
            && (batches != [] ==> 1.0 <= stats.parallelismRatio <= stats.maxBatchSize as real)
  {
    NoEmptyBatch(batches, access);
    hide FirstFit;
    FlattenFirstFit(batches, access);
    var order, block := Flatten(batches), BlockOrder(|access|);
    DistinctLength(order);
    DistinctLength(block);
    assert Indices(order) == Indices(block);
    MaxSizeIsMax(batches);
    FlattenSize(batches, MaxSize(batches));
    if batches != [] {
      RatioBounds(|access|, |batches|, MaxSize(batches));
    }
  }

  lemma NoEmptyBatch(batches: Batches, access: seq<AccessSet>)
    requires FirstFit(batches, access, |access|)
    ensures |batches| <= |Flatten(batches)|
  {
    FlattenAtLeast(batches);
  }

  lemma {:induction false} FlattenAtLeast(batches: Batches)
    requires forall b :: 0 <= b < |batches| ==> batches[b] != []
    ensures |batches| <= |Flatten(batches)|
  {
    if batches == [] {
    } else {
      FlattenAtLeast(batches[1..]);
    }
  }

  lemma RunBatchesCons(step: Step, head: seq<nat>, rest: Batches, s: Store)
    ensures var f := FlushBatch(step, head, s, s);
            var r := RunBatches(step, rest, f.store);
            RunBatches(step, [head] + rest, s) == RunResult(r.store, r.receipts + f.receipts)
  {
  }

  lemma {:induction false} RunBatchesSnoc(step: Step, batches: Batches, batch: seq<nat>, s: Store)
    ensures var r := RunBatches(step, batches, s);
            var f := FlushBatch(step, batch, r.store, r.store);
            RunBatches(step, batches + [batch], s) == RunResult(f.store, f.receipts + r.receipts)
  {
    if batches == [] {
      var f := FlushBatch(step, batch, s, s);
      assert batches + [batch] == [batch] + [];
      RunBatchesCons(step, batch, [], s);
      assert map[] + f.receipts == f.receipts + map[];
    } else {
      var head, rest := batches[0], batches[1..];
      var first := FlushBatch(step, head, s, s);
      RunBatchesSnoc(step, rest, batch, first.store);
      assert batches + [batch] == [head] + (rest + [batch]);
      RunBatchesCons(step, head, rest + [batch], s);
      assert batches == [head] + rest;
      RunBatchesCons(step, head, rest, s);
      var r := RunBatches(step, rest, first.store);
      var f := FlushBatch(step, batch, r.store, r.store);
      MergeAssociative(f.receipts, r.receipts, first.receipts);
    }
  }

  lemma MergeAssociative(a: map<nat, Receipt>, b: map<nat, Receipt>, c: map<nat, Receipt>)
    ensures (a + b) + c == a + (b + c)
  {
  }

  /** Indices listed so far: those of the batches run so far. */
  ghost predicate Collected(results: Indexed, batches: Batches, k: nat) {
    forall m :: 0 <= m < |results| ==> RanBefore(batches, k, results[m].0)
  }

  ghost predicate RanBefore(batches: Batches, k: nat, i: int) {
    exists b :: 0 <= b < k && InBatch(batches, b, i)
  }

  lemma AppendResults(results: Indexed, more: Indexed, batches: Batches, k: nat, receipts: map<nat, Receipt>,
                      extra: map<nat, Receipt>)
    requires Disjoint(batches) && k < |batches|
    requires DistinctKeys(results) && Collected(results, batches, k) && ListsReceipts(results, receipts)
    requires |more| == |batches[k]| && forall m :: 0 <= m < |more| ==> more[m].0 == batches[k][m]
    requires ListsReceipts(more, extra)
    ensures DistinctKeys(results + more) && Collected(results + more, batches, k + 1)
    ensures ListsReceipts(results + more, extra + receipts)
  {
    var all := results + more;
    forall m | 0 <= m < |all| ensures RanBefore(batches, k + 1, all[m].0) {
      if m < |results| {
        assert RanBefore(batches, k, results[m].0);
        var b :| 0 <= b < k && InBatch(batches, b, results[m].0);
      } else {
        assert InBatch(batches, k, all[m].0);
      }
    }
    forall a, b | 0 <= a < |results| && 0 <= b < |more| ensures results[a].0 != more[b].0 {
      assert RanBefore(batches, k, results[a].0);
      var c :| 0 <= c < k && InBatch(batches, c, results[a].0);
      assert InBatch(batches, k, more[b].0);
    }
    assert DistinctKeys(all);
    assert forall m :: 0 <= m < |results| ==> all[m] == results[m];
    assert forall m :: 0 <= m < |more| ==> all[|results| + m] == more[m];
    forall i | i in extra + receipts ensures Listed(all, i) {
      if i in receipts {
        assert Listed(results, i);
        var m :| 0 <= m < |results| && results[m].0 == i;
        assert all[m].0 == i;
      } else {
        var m :| 0 <= m < |more| && more[m].0 == i;
        assert all[|results| + m].0 == i;
      }
    }
    forall m | 0 <= m < |all| ensures all[m].0 in extra + receipts && (extra + receipts)[all[m].0] == all[m].1 {
      if m >= |results| {
        var x := more[m - |results|].0;
        assert x in receipts ==> Listed(results, x);
      }
    }
  }

  /**
   * `execute_block_parallel`: the schedule is the first-fit one, the store ends as its batches leave
   * it, and receipt `i` is the one transaction `i` gets there. For framed transactions that is what
   * the flattened batches do when run one transaction at a time.
   */
  method ExecuteBlockParallel(store: StateStore, step: Step, access: seq<AccessSet>)
      returns (receipts: seq<Receipt>, stats: ScheduleStats, batches: Batches)
    modifies store
    ensures FirstFit(batches, access, |access|) && stats == Stats(batches)
    ensures store.data == RunBatches(step, batches, old(store.data)).store
    ensures |receipts| == |access|
    ensures var r := RunBatches(step, batches, old(store.data)).receipts;
            forall i :: 0 <= i < |access| ==> i in r && receipts[i] == r[i]
    ensures Framed(step, access) ==>
              RunBatches(step, batches, old(store.data)) == RunSeq(step, Flatten(batches), old(store.data))
  {
    hide Framed, RunSeq, FlushBatch, Flatten;
    ghost var start := store.data;
    batches := ScheduleParallel(access);
    stats := Stats(batches);
    FirstFitGoodBatches(batches, access);
    var results: Indexed := [];
    for k := 0 to |batches|
      invariant store.data == RunBatches(step, batches[..k], start).store
      invariant ListsReceipts(results, RunBatches(step, batches[..k], start).receipts)
      invariant DistinctKeys(results) && Collected(results, batches, k)
    {
      ghost var before := RunBatches(step, batches[..k], start);
      RunBatchesSnoc(step, batches[..k], batches[k], start);
      assert batches[..k + 1] == batches[..k] + [batches[k]];
      assert GoodBatch(batches[k], access);
      FlushReceipts(step, batches[k], before.store, before.store);
      var more := ExecuteBatch(store, step, batches[k]);
      AppendResults(results, more, batches, k, before.receipts,
                    FlushBatch(step, batches[k], before.store, before.store).receipts);
      results := results + more;
    }
    assert batches[..|batches|] == batches;
    if Framed(step, access) {
      ParallelIsFlattened(step, access, batches, start);
    }
    FlattenFirstFit(batches, access);
    RunBatchesReceiptKeys(step, batches, start);
    AllIndices(Flatten(batches), |access|);
    var sorted := SortByIndex(results);
    SortedIsIdentity(results, sorted, RunBatches(step, batches, start).receipts, |access|);
    receipts := seq(|sorted|, i requires 0 <= i < |sorted| => sorted[i].1);
  }

  lemma {:induction false} FlushReceiptKeys(step: Step, order: seq<nat>, base: Store, s: Store)
    ensures FlushBatch(step, order, base, s).receipts.Keys == set i | i in order
    decreases |order|
  {
    if order == [] {
    } else {
      FlushReceiptKeys(step, order[1..], base, ApplyWrites(s, step(order[0], base).writes));
      assert (set i | i in order) == {order[0]} + (set i | i in order[1..]);
    }
  }

  lemma {:induction false} RunBatchesReceiptKeys(step: Step, batches: Batches, s: Store)
    ensures RunBatches(step, batches, s).receipts.Keys == set i | i in Flatten(batches)
    decreases |batches|
  {
    if batches == [] {
    } else {
      var first := FlushBatch(step, batches[0], s, s);
      FlushReceiptKeys(step, batches[0], s, s);
      RunBatchesReceiptKeys(step, batches[1..], first.store);
      assert (set i | i in Flatten(batches)) == (set i | i in batches[0]) + (set i | i in Flatten(batches[1..]));
    }
  }

  lemma AllIndices(order: seq<nat>, n: nat)
    requires SameTransactions(BlockOrder(n), order)
    ensures forall i: nat :: i in order <==> i < n
  {
    forall i: nat ensures i in order <==> i < n {
      if i < n {
        assert BlockOrder(n)[i] == i;
      }
    }
  }
}

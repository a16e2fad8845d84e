/** What the operations of the pool promise its users, one by one and over every run. */
module PoolLaws {
  import opened Basics
  import opened Pools

  // ---------------------------------------------------------------------
  // What is let in
  // ---------------------------------------------------------------------

  /** The checks of a transaction that do not depend on the pool. */
  predicate Passes(cfg: PoolConfig, tx: PooledTx) {
    && tx.maxFee >= cfg.minFee
    && (cfg.verifySignature ==> tx.signed)
    && (cfg.chainId != "" ==> tx.chainId == cfg.chainId)
  }

  /** The account may have one more. */
  predicate Counted(cfg: PoolConfig, p: Pool, tx: PooledTx) {
    tx.sender in p.bySender ==> |p.bySender[tx.sender]| < cfg.maxPerAccount
  }

  /** The nonce is not too far above any indexed one of the sender. */
  ghost predicate Near(cfg: PoolConfig, p: Pool, tx: PooledTx) {
    forall n: u64 :: IndexAt(p, tx.sender, n).Some? ==> tx.nonce <= n + cfg.maxNonceGap
  }

  ghost predicate FitsAccount(cfg: PoolConfig, p: Pool, tx: PooledTx) {
    Counted(cfg, p, tx) && Near(cfg, p, tx)
  }

  lemma GapExactly(cfg: PoolConfig, p: Pool, tx: PooledTx)
    ensures GapTooLarge(cfg, p, tx) <==> !Near(cfg, p, tx)
  {
    if n: u64 :| IndexAt(p, tx.sender, n).Some? && tx.nonce > n + cfg.maxNonceGap {
      assert n in Queue(p, tx.sender);
    }
    if GapTooLarge(cfg, p, tx) {
      var n :| n in Queue(p, tx.sender) && tx.nonce > n + cfg.maxNonceGap;
      assert IndexAt(p, tx.sender, n).Some?;
    }
  }

  lemma AdmitExactly(cfg: PoolConfig, p: Pool, tx: PooledTx, r: Result<(), PoolError>, q: Pool)
    requires Admit(cfg, p, tx, r, q) && (cfg.chainId != "" ==> tx.chainId == cfg.chainId)
    ensures r.Ok? <==> Passes(cfg, tx) && FitsAccount(cfg, p, tx)
    ensures if r.Ok? then q == Add(p, tx) else q == p
  {
    hide GapTooLarge, Near;
    GapExactly(cfg, p, tx);
  }

  /** The new transaction replaces one with the lowest fee of all, which is below its own. */
  predicate Replaces(p: Pool, h: Hash, tx: PooledTx) {
    && h in p.pending && p.pending[h].maxFee < tx.maxFee
    && forall k :: k in p.pending ==> p.pending[h].maxFee <= p.pending[k].maxFee
  }

  /** Into a pool with room a transaction goes exactly when it passes the checks, is new, and fits its account. */
  lemma InsertWithRoom(cfg: PoolConfig, p: Pool, tx: PooledTx, r: Result<(), PoolError>, q: Pool)
    requires Insert(cfg, p, tx, r, q) && |p.pending| < cfg.maxSize
    ensures r.Ok? <==>
            tx.hash !in p.pending && tx.hash !in p.seen && Passes(cfg, tx) && FitsAccount(cfg, p, tx)
    ensures r.Ok? ==> q.pending == p.pending[tx.hash := tx] && IndexAt(q, tx.sender, tx.nonce) == Some(tx.hash)
    ensures r.Err? ==> q == p
  {
    hide Admit, FitsAccount;
    if !Refused(cfg, p, tx) {
      AdmitExactly(cfg, p, tx, r, q);
    }
  }

  /** Into a full pool it goes only in place of a cheapest one, and only if it fits once that is gone. */
  lemma InsertWhenFull(cfg: PoolConfig, p: Pool, tx: PooledTx, r: Result<(), PoolError>, q: Pool)
    requires Insert(cfg, p, tx, r, q) && |p.pending| >= cfg.maxSize
    ensures r.Ok? ==>
              && tx.hash !in p.pending && tx.hash !in p.seen && Passes(cfg, tx)
              && exists h :: Replaces(p, h, tx) && FitsAccount(cfg, Forget(p, {h}), tx)
                             && q == Add(Forget(p, {h}), tx) && q.pending == (p.pending - {h})[tx.hash := tx]
    ensures (forall h :: h in p.pending ==> p.pending[h].maxFee >= tx.maxFee) ==> r.Err? && q == p
  {
    hide Admit, FitsAccount, Kept;
    if !Refused(cfg, p, tx) && Outbids(p, tx.maxFee) {
      var h :| Cheapest(p, h, tx.maxFee) && Admit(cfg, Forget(p, {h}), tx, r, q);
      AdmitExactly(cfg, Forget(p, {h}), tx, r, q);
      assert Replaces(p, h, tx);
    }
  }

  /** Every insert has an answer; a full pool of transactions that pay as much answers that it is full. */
  lemma FullPoolAnswers(cfg: PoolConfig, p: Pool, tx: PooledTx, r: Result<(), PoolError>)
    requires !Refused(cfg, p, tx) && |p.pending| >= cfg.maxSize
    requires forall h :: h in p.pending ==> p.pending[h].maxFee >= tx.maxFee
    ensures Insert(cfg, p, tx, r, p) <==> r == Err(MempoolFull)
  {
  }

  /** Which error the first failing check gives. */
  lemma InsertRefusal(cfg: PoolConfig, p: Pool, tx: PooledTx, r: Result<(), PoolError>, q: Pool)
    requires Insert(cfg, p, tx, r, q) && |p.pending| < cfg.maxSize
    ensures var unknown := tx.hash !in p.pending && tx.hash !in p.seen;
            var chained := cfg.chainId == "" || tx.chainId == cfg.chainId;
            var sound := unknown && chained && Counted(cfg, p, tx) && tx.maxFee >= cfg.minFee;
            && (r == Err(TransactionAlreadyExists) <==> tx.hash in p.pending)
            && (r == Err(DuplicateTransaction) <==> tx.hash !in p.pending && tx.hash in p.seen)
            && (r == Err(ChainIdMismatch) <==> unknown && !chained)
            && (r == Err(MempoolFull) <==> unknown && chained && !Counted(cfg, p, tx))
            && (r == Err(FeeTooLow) <==> unknown && chained && Counted(cfg, p, tx) && tx.maxFee < cfg.minFee)
            && (r.Err? && r.error.NonceGapTooLarge? <==> sound && !Near(cfg, p, tx))
            && (r == Err(InvalidSignature) <==> sound && Near(cfg, p, tx) && cfg.verifySignature && !tx.signed)
  {
    hide GapTooLarge, Near;
    GapExactly(cfg, p, tx);
  }

  /** The gap that is reported is the distance to the lowest indexed nonce of the sender. */
  lemma GapReported(cfg: PoolConfig, p: Pool, tx: PooledTx, e: PoolError)
    requires GapError(cfg, p, tx, e)
    ensures e.NonceGapTooLarge? && e.maxGap == cfg.maxNonceGap < e.gap <= tx.nonce
    ensures IndexAt(p, tx.sender, tx.nonce - e.gap).Some?
    ensures forall n: u64 :: IndexAt(p, tx.sender, n).Some? ==> tx.nonce - e.gap <= n
  {
    var n: u64 :| Lowest(Queue(p, tx.sender).Keys, n) && SatSub(tx.nonce, n) > cfg.maxNonceGap
                  && e == NonceGapTooLarge(cfg.maxNonceGap, SatSub(tx.nonce, n));
    assert IndexAt(p, tx.sender, n).Some?;
    forall m: u64 | IndexAt(p, tx.sender, m).Some? ensures n <= m {
      assert m in Queue(p, tx.sender).Keys;
    }
  }

  // ---------------------------------------------------------------------
  // What is pending over every run
  // ---------------------------------------------------------------------

  /** It was handed to the pool before, and passes the checks. */
  ghost predicate CameIn(cfg: PoolConfig, ops: seq<Op>, i: nat, h: Hash, tx: PooledTx) {
    tx.hash == h && Passes(cfg, tx) && exists j :: 0 <= j < i && j < |ops| && ops[j] == InsertOp(tx)
  }

  lemma InsertPasses(cfg: PoolConfig, p: Pool, tx: PooledTx, r: Result<(), PoolError>, q: Pool, h: Hash)
    requires Insert(cfg, p, tx, r, q) && h in q.pending
    ensures (h in p.pending && q.pending[h] == p.pending[h]) || (h == tx.hash && q.pending[h] == tx && Passes(cfg, tx))
  {
    hide Admit, FitsAccount, Kept;
    if |p.pending| < cfg.maxSize {
      InsertWithRoom(cfg, p, tx, r, q);
    } else if !Refused(cfg, p, tx) && Outbids(p, tx.maxFee) {
      var k :| Cheapest(p, k, tx.maxFee) && Admit(cfg, Forget(p, {k}), tx, r, q);
      AdmitExactly(cfg, Forget(p, {k}), tx, r, q);
    }
  }

  lemma PendingStays(cfg: PoolConfig, p: Pool, op: Op, q: Pool, h: Hash)
    requires Next(cfg, p, op, q) && h in q.pending
    ensures || (h in p.pending && q.pending[h] == p.pending[h])
            || (op.InsertOp? && op.tx.hash == h && q.pending[h] == op.tx && Passes(cfg, op.tx))
  {
    hide Insert, Kept;
    if op.InsertOp? {
      var r :| Insert(cfg, p, op.tx, r, q);
      InsertPasses(cfg, p, op.tx, r, q, h);
    }
  }

  /** Over every run, whatever is pending was inserted, unchanged, and pays the minimum fee, signed, for this chain. */
  lemma {:induction false} PendingCameIn(cfg: PoolConfig, ops: seq<Op>, pools: seq<Pool>, i: nat, h: Hash)
    requires Run(cfg, ops, pools) && i <= |ops| && h in pools[i].pending
    ensures CameIn(cfg, ops, i, h, pools[i].pending[h])
  {
    hide Next;
    if i == 0 {
    } else {
      assert Next(cfg, pools[i - 1], ops[i - 1], pools[i]);
      PendingStays(cfg, pools[i - 1], ops[i - 1], pools[i], h);
      if h in pools[i - 1].pending && pools[i].pending[h] == pools[i - 1].pending[h] {
        PendingCameIn(cfg, ops, pools, i - 1, h);
        var j :| 0 <= j < i - 1 && ops[j] == InsertOp(pools[i].pending[h]);
        assert j < i;
      }
    }
  }

  // ---------------------------------------------------------------------
  // What goes
  // ---------------------------------------------------------------------

  /** Exactly the transactions older than the time to live go; without one, none does. */
  lemma ExpireExactly(cfg: PoolConfig, p: Pool, now: u64, q: Pool, h: Hash)
    requires Next(cfg, p, ExpireOp(now), q)
    ensures h in q.pending <==> h in p.pending && (cfg.ttl == 0 || p.pending[h].timestamp + cfg.ttl >= now)
    ensures q.seen == p.seen
  {
  }

  /** A hash marked as seen while it is not pending stays out of the pool until the next clearing. */
  lemma MarkedStaysOut(cfg: PoolConfig, ops: seq<Op>, pools: seq<Pool>, i: nat, j: nat, h: Hash)
    requires Run(cfg, ops, pools) && i < j <= |ops|
    requires ops[i].MarkSeenOp? && h in ops[i].hashes && h !in pools[i].pending
    requires forall k :: i < k < j ==> !Clears(ops[k])
    ensures h !in pools[j].pending
  {
    hide Insert, Forget;
    assert Next(cfg, pools[i], ops[i], pools[i + 1]);
    assert h in pools[i + 1].seen && h !in pools[i + 1].pending;
    hide Next, Run;
    SeenStaysOut(cfg, ops, pools, i + 1, j, h);
  }

  /** A removed hash is gone, with its slot, and only a later insert of it brings it back. */
  lemma {:induction false} RemovedStaysOut(cfg: PoolConfig, ops: seq<Op>, pools: seq<Pool>, i: nat, j: nat, h: Hash)
    requires Run(cfg, ops, pools) && i < j <= |ops|
    requires ops[i].RemoveOp? && h in ops[i].hashes
    requires forall k :: i < k < j && ops[k].InsertOp? ==> ops[k].tx.hash != h
    ensures h !in pools[j].pending
    decreases j - i
  {
    hide Insert, Kept;
    assert Next(cfg, pools[j - 1], ops[j - 1], pools[j]);
    if j == i + 1 {
    } else {
      RemovedStaysOut(cfg, ops, pools, i, j - 1, h);
      if h in pools[j].pending {
        PendingStays(cfg, pools[j - 1], ops[j - 1], pools[j], h);
      }
    }
  }

  /** Clearing the seen hashes forgets them all and keeps the pool; clearing the pool forgets everything. */
  lemma ClearExactly(cfg: PoolConfig, p: Pool, q: Pool, h: Hash)
    ensures Next(cfg, p, ClearSeenOp, q) ==> h !in q.seen && q.pending == p.pending && q.bySender == p.bySender
    ensures Next(cfg, p, ClearOp, q) ==> h !in q.seen && h !in q.pending
  {
  }
}

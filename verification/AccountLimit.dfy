/** The limit on pending transactions per account that the configuration of the pool promises. */
module AccountLimit {
  import opened Basics
  import opened Pools

  function PendingOf(p: Pool, a: Address): set<Hash> {
    set h | h in p.pending && p.pending[h].sender == a
  }

  /** No account ever has more pending transactions than its limit. */
  ghost predicate AccountLimitHolds(cfg: PoolConfig) {
    forall ops, pools, i, a ::
      Run(cfg, ops, pools) && 0 <= i < |pools| ==> |PendingOf(pools[i], a)| <= cfg.maxPerAccount
  }

  // ---------------------------------------------------------------------
  // One sender fills the pool
  // ---------------------------------------------------------------------

  /** Transactions of one sender that all claim its first nonce. */
  function Twin(cfg: PoolConfig, i: nat): PooledTx {
    PooledTx(Hash(i), Address(1), 0, U64_MAX, 0, cfg.chainId, true)
  }

  function Filled(cfg: PoolConfig, k: nat): Pool {
    if k == 0 then EMPTY else Add(Filled(cfg, k - 1), Twin(cfg, k))
  }

  /** A pool of `k` such transactions: many pending, one index entry. */
  ghost predicate Crowded(p: Pool, k: nat) {
    && |p.pending| == k && p.seen == {}
    && (forall h :: h in p.pending ==> p.pending[h].sender == Address(1) && h.id <= k)
    && (Queue(p, Address(1)).Keys == if k == 0 then {} else {0})
  }

  lemma TwinCrowds(cfg: PoolConfig, p: Pool, k: nat)
    requires Crowded(p, k)
    ensures Crowded(Add(p, Twin(cfg, k + 1)), k + 1)
  {
    var q := Add(p, Twin(cfg, k + 1));
    assert Hash(k + 1) !in p.pending;
    assert q.pending.Keys == p.pending.Keys + {Hash(k + 1)};
    assert |q.pending| == |q.pending.Keys| && |p.pending| == |p.pending.Keys|;
    assert Queue(q, Address(1)) == Queue(p, Address(1))[0 := Hash(k + 1)];
  }

  lemma {:induction false} FilledCrowded(cfg: PoolConfig, k: nat)
    ensures Crowded(Filled(cfg, k), k)
  {
    hide Crowded, Add;
    if k == 0 {
      EmptyCrowded();
    } else {
      FilledCrowded(cfg, k - 1);
      TwinCrowds(cfg, Filled(cfg, k - 1), k - 1);
    }
  }

  lemma EmptyCrowded()
    ensures Crowded(EMPTY, 0)
  {
  }

  /** Each of them goes in: the queue they share never grows beyond one entry. */
  lemma TwinGoesIn(cfg: PoolConfig, p: Pool, k: nat)
    requires Crowded(p, k) && k < cfg.maxSize && (k == 0 ==> p == EMPTY) && (k == 0 || cfg.maxPerAccount >= 2)
    ensures Insert(cfg, p, Twin(cfg, k + 1), Ok(()), Add(p, Twin(cfg, k + 1)))
  {
    var tx := Twin(cfg, k + 1);
    assert tx.hash !in p.pending && !GapTooLarge(cfg, p, tx);
    if tx.sender in p.bySender {
      assert Queue(p, Address(1)) == p.bySender[Address(1)];
      assert |p.bySender[Address(1)]| == |Queue(p, Address(1)).Keys| <= 1;
    }
    assert Admit(cfg, p, tx, Ok(()), Add(p, tx)) by {
      hide Add;
    }
    hide Add, Admit;
  }

  lemma SenderFillsPool(cfg: PoolConfig, k: nat)
    requires k <= cfg.maxSize && (k <= 1 || cfg.maxPerAccount >= 2)
    ensures exists ops, pools :: Run(cfg, ops, pools) && |pools| == k + 1 && |PendingOf(pools[k], Address(1))| == k
  {
    hide Insert, Twin, Crowded, Add;
    var ops := seq(k, i requires 0 <= i => InsertOp(Twin(cfg, i + 1)));
    var pools := seq(k + 1, i requires 0 <= i => Filled(cfg, i));
    assert pools[0] == EMPTY;
    forall i | 0 <= i < |ops| ensures Next(cfg, pools[i], ops[i], pools[i + 1]) {
      FilledCrowded(cfg, i);
      TwinGoesIn(cfg, Filled(cfg, i), i);
    }
    FilledCrowded(cfg, k);
    AllPendingAreTwins(Filled(cfg, k), k);
    hide Next;
    assert Run(cfg, ops, pools);
  }

  lemma AllPendingAreTwins(p: Pool, k: nat)
    requires Crowded(p, k)
    ensures |PendingOf(p, Address(1))| == k
  {
    assert PendingOf(p, Address(1)) == p.pending.Keys;
    assert |p.pending| == |p.pending.Keys|;
  }

  // ---------------------------------------------------------------------
  // The limit one
  // ---------------------------------------------------------------------

  /** With the limit one a sender with a queue is refused before anything is overwritten. */
  lemma AdmitAtLimitOne(cfg: PoolConfig, p: Pool, tx: PooledTx, r: Result<(), PoolError>, q: Pool)
    requires cfg.maxPerAccount == 1 && Linked(p) && Bijective(p) && tx.hash !in p.pending && Admit(cfg, p, tx, r, q)
    ensures Bijective(q)
  {
    if r.Ok? {
      AddKeeps(p, tx);
    }
  }

  lemma InsertAtLimitOne(cfg: PoolConfig, p: Pool, tx: PooledTx, r: Result<(), PoolError>, q: Pool)
    requires cfg.maxPerAccount == 1 && Linked(p) && Bijective(p) && Insert(cfg, p, tx, r, q)
    ensures Bijective(q)
  {
    hide Admit;
    if !Refused(cfg, p, tx) {
      if |p.pending| < cfg.maxSize {
        AdmitAtLimitOne(cfg, p, tx, r, q);
      } else if Outbids(p, tx.maxFee) {
        var h :| Cheapest(p, h, tx.maxFee) && Admit(cfg, Forget(p, {h}), tx, r, q);
        ForgetKeeps(p, {h});
        AdmitAtLimitOne(cfg, Forget(p, {h}), tx, r, q);
      }
    }
  }

  lemma {:induction false} RunAtLimitOne(cfg: PoolConfig, ops: seq<Op>, pools: seq<Pool>, i: nat)
    requires cfg.maxPerAccount == 1 && Run(cfg, ops, pools) && i <= |ops|
    ensures Bijective(pools[i])
  {
    hide Sound, Bijective, Insert, Forget, SlotsUnique;
    if i == 0 {
      EmptySound(cfg);
    } else {
      var p, op, q := pools[i - 1], ops[i - 1], pools[i];
      RunAtLimitOne(cfg, ops, pools, i - 1);
      RunSound(cfg, ops, pools, i - 1);
      SoundLinked(cfg, p);
      assert Next(cfg, p, op, q);
      match op
      case InsertOp(tx) =>
        var r :| Insert(cfg, p, tx, r, q);
        InsertAtLimitOne(cfg, p, tx, r, q);
      case RemoveOp(hashes) => ForgetKeeps(p, Elements(hashes));
      case PruneOp(sender, minNonce) => ForgetKeeps(p, Stale(p, sender, minNonce));
      case ExpireOp(now) => ForgetKeeps(p, Expired(cfg, p, now));
      case MarkSeenOp(hashes) => SeenIrrelevant(cfg, p, p.seen + Elements(hashes));
      case ClearSeenOp => SeenIrrelevant(cfg, p, {});
      case ClearOp => EmptySound(cfg);
    }
  }

  /** Pending transactions of one sender in one-to-one correspondence have different nonces. */
  lemma {:induction false} CountByNonce(p: Pool, a: Address, hs: set<Hash>, ns: set<u64>)
    requires Bijective(p) && hs <= PendingOf(p, a) && forall h :: h in hs ==> p.pending[h].nonce in ns
    ensures |hs| <= |ns|
    decreases |hs|
  {
    if hs == {} {
    } else {
      var h :| h in hs;
      var n := p.pending[h].nonce;
      BijectiveUnique(p);
      hide Bijective;
      forall k | k in hs - {h} ensures p.pending[k].nonce in ns - {n} {
        assert k in PendingOf(p, a) && h in PendingOf(p, a);
      }
      CountByNonce(p, a, hs - {h}, ns - {n});
      assert |hs| == |hs - {h}| + 1 && |ns| == |ns - {n}| + 1;
    }
  }

  /** Then an account has no more pending transactions than index entries. */
  lemma PendingWithinQueue(p: Pool, a: Address)
    requires Bijective(p)
    ensures |PendingOf(p, a)| <= |Queue(p, a)|
  {
    forall h | h in PendingOf(p, a) ensures p.pending[h].nonce in Queue(p, a).Keys {
      assert Indexed(p, h);
    }
    CountByNonce(p, a, PendingOf(p, a), Queue(p, a).Keys);
    assert |Queue(p, a)| == |Queue(p, a).Keys|;
  }

  // ---------------------------------------------------------------------
  // Exactly when the limit holds
  // ---------------------------------------------------------------------

  lemma PendingWithinLimit(cfg: PoolConfig, ops: seq<Op>, pools: seq<Pool>, i: nat, a: Address)
    requires Run(cfg, ops, pools) && i <= |ops| && (cfg.maxPerAccount == 1 || cfg.maxSize <= cfg.maxPerAccount)
    ensures |PendingOf(pools[i], a)| <= cfg.maxPerAccount
  {
    RunSound(cfg, ops, pools, i);
    hide Run, Linked;
    if cfg.maxPerAccount == 1 {
      RunAtLimitOne(cfg, ops, pools, i);
      PendingWithinQueue(pools[i], a);
    } else {
      SubsetSize(PendingOf(pools[i], a), pools[i].pending.Keys);
      assert |pools[i].pending.Keys| == |pools[i].pending|;
    }
  }

  /**
   * Only index entries are counted against the limit, and transactions with one sender and nonce
   * share an entry. So the limit on pending transactions holds over all runs if and only if it is
   * one, where the first entry already refuses the second transaction, or the whole pool is no larger.
   */
  lemma AccountLimitExactly(cfg: PoolConfig)
    ensures AccountLimitHolds(cfg) <==> cfg.maxPerAccount == 1 || cfg.maxSize <= cfg.maxPerAccount
  {
    hide Run;
    if cfg.maxPerAccount == 1 || cfg.maxSize <= cfg.maxPerAccount {
      forall ops, pools, i, a | Run(cfg, ops, pools) && 0 <= i < |pools|
        ensures |PendingOf(pools[i], a)| <= cfg.maxPerAccount
      {
        RunLength(cfg, ops, pools);
        PendingWithinLimit(cfg, ops, pools, i, a);
      }
    } else {
      var k := cfg.maxPerAccount + 1;
      SenderFillsPool(cfg, k);
      var ops, pools :| Run(cfg, ops, pools) && |pools| == k + 1 && |PendingOf(pools[k], Address(1))| == k;
      assert !AccountLimitHolds(cfg);
    }
  }

  lemma RunLength(cfg: PoolConfig, ops: seq<Op>, pools: seq<Pool>)
    requires Run(cfg, ops, pools)
    ensures |pools| == |ops| + 1
  {
  }
}

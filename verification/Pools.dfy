/**
 * The mempool of `pool.rs` as a value: pending transactions by hash, an index by sender and nonce,
 * and the hashes seen recently. Every operation is a relation between two pools, since the eviction
 * of a lowest-fee transaction leaves the choice among ties open.
 */
module Pools {
  import opened Basics

  /** `signed` stands for the outcome of the signature check. */
  datatype PooledTx = PooledTx(hash: Hash, sender: Address, nonce: u64, maxFee: u64, timestamp: u64, chainId: string,
                               signed: bool)

  datatype PoolConfig = PoolConfig(maxSize: nat, maxPerAccount: nat, minFee: u64, verifySignature: bool,
                                   chainId: string, maxNonceGap: u64, ttl: u64)

  datatype PoolError =
    | TransactionAlreadyExists
    | DuplicateTransaction
    | ChainIdMismatch
    | MempoolFull
    | FeeTooLow
    | NonceGapTooLarge(maxGap: u64, gap: u64)
    | InvalidSignature

  datatype Pool = Pool(pending: map<Hash, PooledTx>, bySender: map<Address, map<u64, Hash>>, seen: set<Hash>)

  const EMPTY := Pool(map[], map[], {})

  // ---------------------------------------------------------------------
  // The index
  // ---------------------------------------------------------------------

  function IndexAt(p: Pool, a: Address, n: u64): Option<Hash> {
    if a in p.bySender && n in p.bySender[a] then Some(p.bySender[a][n]) else None
  }

  predicate AtSlot(p: Pool, h: Hash, a: Address, n: u64) {
    h in p.pending && p.pending[h].sender == a && p.pending[h].nonce == n
  }

  ghost predicate NoEmptyQueue(p: Pool) {
    forall a :: a in p.bySender ==> p.bySender[a] != map[]
  }

  /** Every index entry points to a pending transaction of that sender and nonce, and no queue is empty. */
  ghost predicate Linked(p: Pool) {
    && (forall h :: h in p.pending ==> p.pending[h].hash == h)
    && (forall a, n: u64 :: IndexAt(p, a, n).Some? ==> AtSlot(p, IndexAt(p, a, n).value, a, n))
    && NoEmptyQueue(p)
  }

  predicate Indexed(p: Pool, h: Hash) {
    h in p.pending && IndexAt(p, p.pending[h].sender, p.pending[h].nonce) == Some(h)
  }

  /** Index and pending transactions correspond one to one. */
  ghost predicate Bijective(p: Pool) {
    forall h :: h in p.pending ==> Indexed(p, h)
  }

  /** No two pending transactions share sender and nonce. */
  ghost predicate SlotsUnique(p: Pool) {
    forall h, k :: h in p.pending && k in p.pending && h != k ==>
      p.pending[h].sender != p.pending[k].sender || p.pending[h].nonce != p.pending[k].nonce
  }

  /** Pools without empty queues are determined by what can be looked up in them. */
  lemma PoolExtensional(p: Pool, q: Pool)
    requires p.pending == q.pending && p.seen == q.seen && NoEmptyQueue(p) && NoEmptyQueue(q)
    requires forall a, n: u64 :: IndexAt(p, a, n) == IndexAt(q, a, n)
    ensures p == q
  {
    forall a ensures a in p.bySender <==> a in q.bySender {
      if a in p.bySender {
        var n :| n in p.bySender[a];
        assert IndexAt(p, a, n) == IndexAt(q, a, n);
      }
      if a in q.bySender {
        var n :| n in q.bySender[a];
        assert IndexAt(p, a, n) == IndexAt(q, a, n);
      }
    }
    forall a | a in p.bySender ensures p.bySender[a] == q.bySender[a] {
      forall n ensures n in p.bySender[a] <==> n in q.bySender[a] {
        assert IndexAt(p, a, n) == IndexAt(q, a, n);
      }
      forall n | n in p.bySender[a] ensures p.bySender[a][n] == q.bySender[a][n] {
        assert IndexAt(p, a, n) == IndexAt(q, a, n);
      }
    }
    assert p.bySender == q.bySender;
  }

  // ---------------------------------------------------------------------
  // Removing
  // ---------------------------------------------------------------------

  /** The slot of some transaction that goes. */
  predicate Freed(p: Pool, gone: set<Hash>, a: Address, n: int) {
    exists h :: h in gone && h in p.pending && p.pending[h].sender == a && p.pending[h].nonce == n
  }

  function Kept(p: Pool, gone: set<Hash>, a: Address): map<u64, Hash>
    requires a in p.bySender
  {
    map n | n in p.bySender[a] && !Freed(p, gone, a, n) :: p.bySender[a][n]
  }

  /** The pool without a set of transactions: their slots go, whatever they point to, and emptied queues. */
  function Forget(p: Pool, gone: set<Hash>): Pool {
    Pool(p.pending - gone,
         map a | a in p.bySender && Kept(p, gone, a) != map[] :: Kept(p, gone, a),
         p.seen)
  }

  lemma ForgetIndex(p: Pool, gone: set<Hash>, a: Address, n: u64)
    ensures IndexAt(Forget(p, gone), a, n) == if Freed(p, gone, a, n) then None else IndexAt(p, a, n)
  {
    if a in p.bySender {
      assert n in Kept(p, gone, a) <==> n in p.bySender[a] && !Freed(p, gone, a, n);
    }
  }

  /** What makes a pool the result of a removal. */
  lemma ForgetMeans(p: Pool, gone: set<Hash>, q: Pool)
    requires q.pending == p.pending - gone && q.seen == p.seen && NoEmptyQueue(q)
    requires forall a, n: u64 :: IndexAt(q, a, n) == if Freed(p, gone, a, n) then None else IndexAt(p, a, n)
    ensures q == Forget(p, gone)
  {
    forall a, n: u64 ensures IndexAt(q, a, n) == IndexAt(Forget(p, gone), a, n) {
      ForgetIndex(p, gone, a, n);
    }
    PoolExtensional(q, Forget(p, gone));
  }

  lemma FreedSlotGoes(p: Pool, gone: set<Hash>, a: Address, n: u64)
    requires Bijective(p)
    ensures Freed(p, gone, a, n) ==> IndexAt(p, a, n).Some? && IndexAt(p, a, n).value in gone
  {
  }

  /** Removing keeps the links, and the one-to-one correspondence where it held. */
  lemma ForgetKeeps(p: Pool, gone: set<Hash>)
    requires Linked(p)
    ensures Linked(Forget(p, gone))
    ensures Bijective(p) ==> Bijective(Forget(p, gone))
  {
    var q := Forget(p, gone);
    forall a, n: u64 | IndexAt(q, a, n).Some? ensures AtSlot(q, IndexAt(q, a, n).value, a, n) {
      ForgetIndex(p, gone, a, n);
      assert AtSlot(p, IndexAt(p, a, n).value, a, n);
    }
    if Bijective(p) {
      forall h | h in q.pending ensures Indexed(q, h) {
        assert Indexed(p, h);
        var a, n := p.pending[h].sender, p.pending[h].nonce;
        ForgetIndex(p, gone, a, n);
        FreedSlotGoes(p, gone, a, n);
      }
    }
  }

  /** Removing in two goes is removing at once, so the order of a batch does not matter. */
  lemma ForgetTwice(p: Pool, a: set<Hash>, b: set<Hash>)
    ensures Forget(Forget(p, a), b) == Forget(p, a + b)
  {
    var q := Forget(p, a);
    var twice, once := Forget(q, b), Forget(p, a + b);
    forall x, n: u64 ensures IndexAt(twice, x, n) == IndexAt(once, x, n) {
      ForgetIndex(p, a, x, n);
      ForgetIndex(q, b, x, n);
      ForgetIndex(p, a + b, x, n);
      FreedUnion(p, a, b, x, n);
    }
    assert twice.pending == once.pending;
    PoolExtensional(twice, once);
  }

  lemma FreedUnion(p: Pool, a: set<Hash>, b: set<Hash>, x: Address, n: int)
    ensures Freed(p, a + b, x, n) <==> Freed(p, a, x, n) || Freed(Forget(p, a), b, x, n)
  {
  }

  lemma ForgetNothing(p: Pool)
    requires Linked(p)
    ensures Forget(p, {}) == p
  {
    var q := Forget(p, {});
    forall a, n: u64 ensures IndexAt(p, a, n) == IndexAt(q, a, n) {
      ForgetIndex(p, {}, a, n);
    }
    assert q.pending == p.pending;
    PoolExtensional(p, q);
  }

  // ---------------------------------------------------------------------
  // Inserting
  // ---------------------------------------------------------------------

  function Queue(p: Pool, a: Address): map<u64, Hash> {
    if a in p.bySender then p.bySender[a] else map[]
  }

  function Add(p: Pool, tx: PooledTx): Pool {
    Pool(p.pending[tx.hash := tx], p.bySender[tx.sender := Queue(p, tx.sender)[tx.nonce := tx.hash]], p.seen)
  }

  predicate Lowest(nonces: set<u64>, n: u64) {
    n in nonces && forall m :: m in nonces ==> n <= m
  }

  /** The error of the nonce gap test, which compares with the lowest indexed nonce. */
  ghost predicate GapError(cfg: PoolConfig, p: Pool, tx: PooledTx, e: PoolError) {
    exists n: u64 :: Lowest(Queue(p, tx.sender).Keys, n) && SatSub(tx.nonce, n) > cfg.maxNonceGap
                     && e == NonceGapTooLarge(cfg.maxNonceGap, SatSub(tx.nonce, n))
  }

  predicate GapTooLarge(cfg: PoolConfig, p: Pool, tx: PooledTx) {
    exists n :: n in Queue(p, tx.sender) && tx.nonce > n + cfg.maxNonceGap
  }

  /** `insert` from its third check on, once there is room. */
  ghost predicate Admit(cfg: PoolConfig, p: Pool, tx: PooledTx, r: Result<(), PoolError>, q: Pool) {
    if tx.sender in p.bySender && |p.bySender[tx.sender]| >= cfg.maxPerAccount then r == Err(MempoolFull) && q == p
    else if tx.maxFee < cfg.minFee then r == Err(FeeTooLow) && q == p
    else if GapTooLarge(cfg, p, tx) then r.Err? && GapError(cfg, p, tx, r.error) && q == p
    else if cfg.verifySignature && !tx.signed then r == Err(InvalidSignature) && q == p
    else r == Ok(()) && q == Add(p, tx)
  }

  /** A pending transaction with the lowest fee of all, below the given fee. */
  predicate Cheapest(p: Pool, h: Hash, fee: u64) {
    && h in p.pending && p.pending[h].maxFee < fee
    && forall k :: k in p.pending ==> p.pending[h].maxFee <= p.pending[k].maxFee
  }

  predicate Outbids(p: Pool, fee: u64) {
    exists h :: h in p.pending && p.pending[h].maxFee < fee
  }

  /** Refused before the pool is touched. */
  predicate Refused(cfg: PoolConfig, p: Pool, tx: PooledTx) {
    tx.hash in p.pending || tx.hash in p.seen || (cfg.chainId != "" && tx.chainId != cfg.chainId)
  }

  ghost predicate Insert(cfg: PoolConfig, p: Pool, tx: PooledTx, r: Result<(), PoolError>, q: Pool) {
    if tx.hash in p.pending then r == Err(TransactionAlreadyExists) && q == p
    else if tx.hash in p.seen then r == Err(DuplicateTransaction) && q == p
    else if cfg.chainId != "" && tx.chainId != cfg.chainId then r == Err(ChainIdMismatch) && q == p
    else if |p.pending| < cfg.maxSize then Admit(cfg, p, tx, r, q)
    else if Outbids(p, tx.maxFee) then exists h :: Cheapest(p, h, tx.maxFee) && Admit(cfg, Forget(p, {h}), tx, r, q)
    else r == Err(MempoolFull) && q == p
  }

  lemma AddIndex(p: Pool, tx: PooledTx, a: Address, n: u64)
    ensures IndexAt(Add(p, tx), a, n) == if a == tx.sender && n == tx.nonce then Some(tx.hash) else IndexAt(p, a, n)
  {
  }

  /** Adding keeps the links; the correspondence is one to one afterwards exactly if the slot was free. */
  lemma AddKeeps(p: Pool, tx: PooledTx)
    requires Linked(p) && tx.hash !in p.pending
    ensures Linked(Add(p, tx))
    ensures Bijective(p) ==> (Bijective(Add(p, tx)) <==> IndexAt(p, tx.sender, tx.nonce) == None)
  {
    var q := Add(p, tx);
    assert tx.nonce in q.bySender[tx.sender];
    forall a, n: u64 | IndexAt(q, a, n).Some? ensures AtSlot(q, IndexAt(q, a, n).value, a, n) {
      AddIndex(p, tx, a, n);
      assert IndexAt(p, a, n).Some? ==> AtSlot(p, IndexAt(p, a, n).value, a, n);
    }
    if Bijective(p) {
      AddBijective(p, tx);
    }
  }

  lemma AddBijective(p: Pool, tx: PooledTx)
    requires Linked(p) && Bijective(p) && tx.hash !in p.pending
    ensures Bijective(Add(p, tx)) <==> IndexAt(p, tx.sender, tx.nonce) == None
  {
    var q, before := Add(p, tx), IndexAt(p, tx.sender, tx.nonce);
    AddIndex(p, tx, tx.sender, tx.nonce);
    if before == None {
      forall h | h in q.pending ensures Indexed(q, h) {
        if h != tx.hash {
          assert Indexed(p, h);
          AddIndex(p, tx, p.pending[h].sender, p.pending[h].nonce);
        }
      }
    } else {
      assert AtSlot(p, before.value, tx.sender, tx.nonce);
      assert before.value in q.pending && !Indexed(q, before.value);
    }
  }

  // ---------------------------------------------------------------------
  // Sizes
  // ---------------------------------------------------------------------

  ghost predicate QueuesWithin(p: Pool, bound: nat) {
    forall a :: a in p.bySender ==> |p.bySender[a]| <= bound
  }

  lemma ForgetSizes(p: Pool, gone: set<Hash>, bound: nat)
    requires QueuesWithin(p, bound)
    ensures QueuesWithin(Forget(p, gone), bound)
    ensures |Forget(p, gone).pending| <= |p.pending|
  {
    SubsetSize(Forget(p, gone).pending.Keys, p.pending.Keys);
    forall a | a in Forget(p, gone).bySender ensures |Forget(p, gone).bySender[a]| <= bound {
      SubsetSize(Kept(p, gone, a).Keys, p.bySender[a].Keys);
    }
  }

  lemma ForgetOneSize(p: Pool, h: Hash)
    requires h in p.pending
    ensures |Forget(p, {h}).pending| == |p.pending| - 1
  {
  }

  lemma AddSizes(p: Pool, tx: PooledTx, bound: nat)
    requires QueuesWithin(p, bound) && tx.hash !in p.pending && 1 <= bound
    requires tx.sender in p.bySender ==> |p.bySender[tx.sender]| < bound
    ensures QueuesWithin(Add(p, tx), bound)
    ensures |Add(p, tx).pending| == |p.pending| + 1
  {
  }

  // ---------------------------------------------------------------------
  // Operations and runs
  // ---------------------------------------------------------------------

  datatype Op =
    | InsertOp(tx: PooledTx)
    | RemoveOp(hashes: seq<Hash>)
    | PruneOp(sender: Address, minNonce: u64)
    | ExpireOp(now: u64)
    | MarkSeenOp(hashes: seq<Hash>)
    | ClearSeenOp
    | ClearOp

  function HashesBelow(queue: map<u64, Hash>, minNonce: u64): set<Hash> {
    set n | n in queue && n < minNonce :: queue[n]
  }

  /** The part of a queue from a nonce on. */
  ghost predicate TailOf(all: map<u64, Hash>, minNonce: u64, queue: map<u64, Hash>) {
    && (forall n :: n in queue <==> n in all && n >= minNonce)
    && (forall n :: n in queue ==> queue[n] == all[n])
  }

  function Stale(p: Pool, a: Address, minNonce: u64): set<Hash> {
    HashesBelow(Queue(p, a), minNonce)
  }

  function Expired(cfg: PoolConfig, p: Pool, now: u64): set<Hash> {
    if cfg.ttl == 0 then {} else set h | h in p.pending && p.pending[h].timestamp < SatSub(now, cfg.ttl)
  }

  function Elements(hs: seq<Hash>): set<Hash> {
    set h | h in hs
  }

  ghost predicate Next(cfg: PoolConfig, p: Pool, op: Op, q: Pool) {
    match op
    case InsertOp(tx) => exists r :: Insert(cfg, p, tx, r, q)
    case RemoveOp(hashes) => q == Forget(p, Elements(hashes))
    case PruneOp(sender, minNonce) => q == Forget(p, Stale(p, sender, minNonce))
    case ExpireOp(now) => q == Forget(p, Expired(cfg, p, now))
    case MarkSeenOp(hashes) => q == p.(seen := p.seen + Elements(hashes))
    case ClearSeenOp => q == p.(seen := {})
    case ClearOp => q == EMPTY
  }

  /** The pool after the first `i` operations is `pools[i]`. */
  ghost predicate Run(cfg: PoolConfig, ops: seq<Op>, pools: seq<Pool>) {
    && |pools| == |ops| + 1
    && pools[0] == EMPTY
    && forall i :: 0 <= i < |ops| ==> Next(cfg, pools[i], ops[i], pools[i + 1])
  }

  function AccountBound(cfg: PoolConfig): nat {
    if cfg.maxPerAccount == 0 then 1 else cfg.maxPerAccount
  }

  /** What every operation keeps. */
  ghost predicate Sound(cfg: PoolConfig, p: Pool) {
    Linked(p) && |p.pending| <= cfg.maxSize && QueuesWithin(p, AccountBound(cfg))
  }

  lemma AdmitSound(cfg: PoolConfig, p: Pool, tx: PooledTx, r: Result<(), PoolError>, q: Pool)
    requires Sound(cfg, p) && |p.pending| < cfg.maxSize && tx.hash !in p.pending && Admit(cfg, p, tx, r, q)
    ensures Sound(cfg, q)
  {
    if r.Ok? {
      AddKeeps(p, tx);
      AddSizes(p, tx, AccountBound(cfg));
    }
  }

  lemma InsertSound(cfg: PoolConfig, p: Pool, tx: PooledTx, r: Result<(), PoolError>, q: Pool)
    requires Sound(cfg, p) && Insert(cfg, p, tx, r, q)
    ensures Sound(cfg, q)
  {
    hide Admit;
    if !Refused(cfg, p, tx) {
      if |p.pending| < cfg.maxSize {
        AdmitSound(cfg, p, tx, r, q);
      } else if Outbids(p, tx.maxFee) {
        var h :| Cheapest(p, h, tx.maxFee) && Admit(cfg, Forget(p, {h}), tx, r, q);
        ForgetKeeps(p, {h});
        ForgetSizes(p, {h}, AccountBound(cfg));
        ForgetOneSize(p, h);
        AdmitSound(cfg, Forget(p, {h}), tx, r, q);
      }
    }
  }

  lemma ForgetSound(cfg: PoolConfig, p: Pool, gone: set<Hash>)
    requires Sound(cfg, p)
    ensures Sound(cfg, Forget(p, gone))
  {
    ForgetKeeps(p, gone);
    ForgetSizes(p, gone, AccountBound(cfg));
  }

  lemma SeenIrrelevant(cfg: PoolConfig, p: Pool, seen: set<Hash>)
    ensures Sound(cfg, p) ==> Sound(cfg, p.(seen := seen))
    ensures Bijective(p) ==> Bijective(p.(seen := seen))
  {
    var q := p.(seen := seen);
    assert forall a, n: u64 :: IndexAt(q, a, n) == IndexAt(p, a, n);
    assert forall h :: Indexed(q, h) <==> Indexed(p, h);
    assert forall h, a, n: u64 :: AtSlot(q, h, a, n) <==> AtSlot(p, h, a, n);
  }

  lemma NextSound(cfg: PoolConfig, p: Pool, op: Op, q: Pool)
    requires Sound(cfg, p) && Next(cfg, p, op, q)
    ensures Sound(cfg, q)
  {
    hide Sound, Insert, Forget;
    match op
    case InsertOp(tx) =>
      var r :| Insert(cfg, p, tx, r, q);
      InsertSound(cfg, p, tx, r, q);
    case RemoveOp(hashes) => ForgetSound(cfg, p, Elements(hashes));
    case PruneOp(sender, minNonce) => ForgetSound(cfg, p, Stale(p, sender, minNonce));
    case ExpireOp(now) => ForgetSound(cfg, p, Expired(cfg, p, now));
    case MarkSeenOp(hashes) => SeenIrrelevant(cfg, p, p.seen + Elements(hashes));
    case ClearSeenOp => SeenIrrelevant(cfg, p, {});
    case ClearOp => EmptySound(cfg);
  }

  lemma EmptySound(cfg: PoolConfig)
    ensures Sound(cfg, EMPTY) && Bijective(EMPTY)
  {
  }

  /**
   * Over every sequence of operations: index entries point to pending transactions of that sender
   * and nonce, no queue is empty, the pool keeps its size, and no account has more index entries
   * than its limit, reading 0 as 1.
   */
  lemma {:induction false} RunSound(cfg: PoolConfig, ops: seq<Op>, pools: seq<Pool>, i: nat)
    requires Run(cfg, ops, pools) && i <= |ops|
    ensures Sound(cfg, pools[i])
  {
    hide Sound, Next;
    if i == 0 {
      EmptySound(cfg);
    } else {
      RunSound(cfg, ops, pools, i - 1);
      assert Next(cfg, pools[i - 1], ops[i - 1], pools[i]);
      NextSound(cfg, pools[i - 1], ops[i - 1], pools[i]);
    }
  }

  // ---------------------------------------------------------------------
  // The limit on index entries per account
  // ---------------------------------------------------------------------

  ghost predicate IndexLimitHolds(cfg: PoolConfig) {
    forall ops, pools, i ::
      Run(cfg, ops, pools) && 0 <= i < |pools| ==> QueuesWithin(pools[i], cfg.maxPerAccount)
  }

  /** With the limit 0 the first transaction of a sender is let in: no queue exists to be full. */
  lemma ZeroLimitLetsOneIn(cfg: PoolConfig)
    requires cfg.maxPerAccount == 0 < cfg.maxSize
    ensures !IndexLimitHolds(cfg)
  {
    var tx := PooledTx(Hash(1), Address(1), 0, U64_MAX, 0, cfg.chainId, true);
    var q := Add(EMPTY, tx);
    assert Admit(cfg, EMPTY, tx, Ok(()), q);
    assert Insert(cfg, EMPTY, tx, Ok(()), q);
    assert Run(cfg, [InsertOp(tx)], [EMPTY, q]);
    assert [EMPTY, q][1] == q && q.bySender[Address(1)].Keys == {0};
    assert |q.bySender[Address(1)]| == |q.bySender[Address(1)].Keys| == 1;
    assert |[EMPTY, q]| == 2 && !QueuesWithin([EMPTY, q][1], 0);
  }

  lemma IndexLimitExactly(cfg: PoolConfig)
    ensures IndexLimitHolds(cfg) <==> cfg.maxPerAccount >= 1 || cfg.maxSize == 0
  {
    if cfg.maxPerAccount >= 1 || cfg.maxSize == 0 {
      forall ops, pools, i | Run(cfg, ops, pools) && 0 <= i < |pools|
        ensures QueuesWithin(pools[i], cfg.maxPerAccount)
      {
        RunSound(cfg, ops, pools, i);
        if cfg.maxSize == 0 {
          NoQueues(pools[i]);
        }
      }
    } else {
      ZeroLimitLetsOneIn(cfg);
    }
  }

  lemma QueueMeansPending(p: Pool, a: Address)
    requires Linked(p) && a in p.bySender
    ensures |p.pending| >= 1
  {
    var n :| n in p.bySender[a];
    assert AtSlot(p, IndexAt(p, a, n).value, a, n);
    SubsetSize({IndexAt(p, a, n).value}, p.pending.Keys);
  }

  lemma NoQueues(p: Pool)
    requires Linked(p) && |p.pending| == 0
    ensures forall a :: a !in p.bySender
  {
    forall a ensures a in p.bySender ==> |p.pending| >= 1 {
      if a in p.bySender {
        QueueMeansPending(p, a);
      }
    }
  }

  // ---------------------------------------------------------------------
  // Index and pending transactions one to one
  // ---------------------------------------------------------------------

  lemma BijectiveUnique(p: Pool)
    requires Bijective(p)
    ensures SlotsUnique(p)
  {
  }

  lemma OccupiedSlotShared(p: Pool, tx: PooledTx)
    requires Linked(p) && tx.hash !in p.pending
    ensures IndexAt(p, tx.sender, tx.nonce).Some? ==> !SlotsUnique(Add(p, tx))
  {
    var there, q := IndexAt(p, tx.sender, tx.nonce), Add(p, tx);
    if there.Some? {
      assert AtSlot(p, there.value, tx.sender, tx.nonce);
      assert there.value in q.pending && tx.hash in q.pending && there.value != tx.hash;
    }
  }

  lemma AdmitBijective(cfg: PoolConfig, p: Pool, tx: PooledTx, r: Result<(), PoolError>, q: Pool)
    requires Linked(p) && Bijective(p) && tx.hash !in p.pending && Admit(cfg, p, tx, r, q) && SlotsUnique(q)
    ensures Bijective(q)
  {
    if r.Ok? {
      AddKeeps(p, tx);
      OccupiedSlotShared(p, tx);
    }
  }

  lemma InsertBijective(cfg: PoolConfig, p: Pool, tx: PooledTx, r: Result<(), PoolError>, q: Pool)
    requires Linked(p) && Bijective(p) && Insert(cfg, p, tx, r, q) && SlotsUnique(q)
    ensures Bijective(q)
  {
    hide Admit;
    if !Refused(cfg, p, tx) {
      if |p.pending| < cfg.maxSize {
        AdmitBijective(cfg, p, tx, r, q);
      } else if Outbids(p, tx.maxFee) {
        var h :| Cheapest(p, h, tx.maxFee) && Admit(cfg, Forget(p, {h}), tx, r, q);
        ForgetKeeps(p, {h});
        AdmitBijective(cfg, Forget(p, {h}), tx, r, q);
      }
    }
  }

  lemma NextBijective(cfg: PoolConfig, p: Pool, op: Op, q: Pool)
    requires Linked(p) && Bijective(p) && Next(cfg, p, op, q) && SlotsUnique(q)
    ensures Bijective(q)
  {
    hide Linked, Bijective, SlotsUnique, Insert, Forget;
    match op
    case InsertOp(tx) =>
      var r :| Insert(cfg, p, tx, r, q);
      InsertBijective(cfg, p, tx, r, q);
    case RemoveOp(hashes) => ForgetKeeps(p, Elements(hashes));
    case PruneOp(sender, minNonce) => ForgetKeeps(p, Stale(p, sender, minNonce));
    case ExpireOp(now) => ForgetKeeps(p, Expired(cfg, p, now));
    case MarkSeenOp(hashes) => SeenIrrelevant(cfg, p, p.seen + Elements(hashes));
    case ClearSeenOp => SeenIrrelevant(cfg, p, {});
    case ClearOp => EmptySound(cfg);
  }

  lemma {:induction false} UniqueRunBijective(cfg: PoolConfig, ops: seq<Op>, pools: seq<Pool>, i: nat)
    requires Run(cfg, ops, pools) && i <= |ops|
    requires forall j :: 0 <= j <= i ==> SlotsUnique(pools[j])
    ensures Bijective(pools[i])
  {
    hide Sound, Bijective, SlotsUnique, Next;
    if i == 0 {
      EmptySound(cfg);
    } else {
      UniqueRunBijective(cfg, ops, pools, i - 1);
      RunSound(cfg, ops, pools, i - 1);
      assert Linked(pools[i - 1]) by { SoundLinked(cfg, pools[i - 1]); }
      assert Next(cfg, pools[i - 1], ops[i - 1], pools[i]);
      NextBijective(cfg, pools[i - 1], ops[i - 1], pools[i]);
    }
  }

  lemma SoundLinked(cfg: PoolConfig, p: Pool)
    requires Sound(cfg, p)
    ensures Linked(p)
  {
  }

  /**
   * Along a run, index and pending transactions stay in one-to-one correspondence exactly as long as
   * no two pending transactions ever share sender and nonce.
   */
  lemma RunBijectiveExactly(cfg: PoolConfig, ops: seq<Op>, pools: seq<Pool>)
    requires Run(cfg, ops, pools)
    ensures (forall i :: 0 <= i < |pools| ==> Bijective(pools[i]))
            <==> (forall i :: 0 <= i < |pools| ==> SlotsUnique(pools[i]))
  {
    hide Bijective, SlotsUnique, Next;
    if forall i :: 0 <= i < |pools| ==> SlotsUnique(pools[i]) {
      forall i | 0 <= i < |pools| ensures Bijective(pools[i]) {
        UniqueRunBijective(cfg, ops, pools, i);
      }
    }
    if forall i :: 0 <= i < |pools| ==> Bijective(pools[i]) {
      forall i | 0 <= i < |pools| ensures SlotsUnique(pools[i]) {
        BijectiveUnique(pools[i]);
      }
    }
  }

  const FIRST := PooledTx(Hash(1), Address(1), 0, 1_000, 0, "", true)
  const SECOND := PooledTx(Hash(2), Address(1), 0, 1_000, 0, "", true)

  predicate Roomy(cfg: PoolConfig) {
    cfg.maxSize >= 2 && cfg.maxPerAccount >= 2 && cfg.minFee <= 1_000 && cfg.chainId == ""
  }

  lemma BothGoIn(cfg: PoolConfig)
    requires Roomy(cfg)
    ensures Insert(cfg, EMPTY, FIRST, Ok(()), Add(EMPTY, FIRST))
    ensures Insert(cfg, Add(EMPTY, FIRST), SECOND, Ok(()), Add(Add(EMPTY, FIRST), SECOND))
  {
  }

  lemma FirstTakesEntryAlong()
    ensures var p := Forget(Add(Add(EMPTY, FIRST), SECOND), Elements([Hash(1)]));
            p.pending.Keys == {Hash(2)} && !Indexed(p, Hash(2))
  {
    var p, gone := Add(Add(EMPTY, FIRST), SECOND), Elements([Hash(1)]);
    assert Hash(1) in gone && Hash(1) in p.pending && p.pending[Hash(1)] == FIRST;
    assert Freed(p, gone, Address(1), 0);
    ForgetIndex(p, gone, Address(1), 0);
  }

  /**
   * Uniqueness in the last state alone is not enough: after a second transaction for the same slot,
   * removing the first takes the index entry of the second with it.
   */
  lemma UniqueNowNotEnough(cfg: PoolConfig)
    requires Roomy(cfg)
    ensures exists ops, pools :: Run(cfg, ops, pools) && SlotsUnique(pools[|ops|]) && !Bijective(pools[|ops|])
  {
    hide Insert, Forget, Add, Run;
    var p1 := Add(EMPTY, FIRST);
    var p2 := Add(p1, SECOND);
    var p3 := Forget(p2, Elements([Hash(1)]));
    BothGoIn(cfg);
    FirstTakesEntryAlong();
    var ops, pools := [InsertOp(FIRST), InsertOp(SECOND), RemoveOp([Hash(1)])], [EMPTY, p1, p2, p3];
    OrphanRun(cfg, ops, pools);
    assert pools[|ops|] == p3;
    assert SlotsUnique(p3) && !Bijective(p3);
  }

  lemma OrphanRun(cfg: PoolConfig, ops: seq<Op>, pools: seq<Pool>)
    requires |ops| == 3 && |pools| == 4 && pools[0] == EMPTY
    requires Next(cfg, pools[0], ops[0], pools[1]) && Next(cfg, pools[1], ops[1], pools[2])
    requires Next(cfg, pools[2], ops[2], pools[3])
    ensures Run(cfg, ops, pools)
  {
    hide Next;
  }

  // ---------------------------------------------------------------------
  // Single operations
  // ---------------------------------------------------------------------

  /** A failing insert leaves the pool alone, except that it may have evicted before it failed. */
  lemma FailedInsertExactly(cfg: PoolConfig, p: Pool, tx: PooledTx, e: PoolError, q: Pool)
    requires Insert(cfg, p, tx, Err(e), q)
    ensures q != p <==> !Refused(cfg, p, tx) && |p.pending| >= cfg.maxSize && Outbids(p, tx.maxFee)
  {
  }

  const FORGED := PooledTx(Hash(3), Address(2), 0, 2_000, 0, "", false)

  /** A full pool loses its transaction to one with a higher fee whose signature then turns out wrong. */
  lemma FailedInsertEvicts(cfg: PoolConfig)
    requires cfg.maxSize == 1 && cfg.minFee <= 1_000 && cfg.chainId == "" && cfg.verifySignature
    ensures var p := Add(EMPTY, FIRST);
            && Insert(cfg, EMPTY, FIRST, Ok(()), p)
            && Insert(cfg, p, FORGED, Err(InvalidSignature), Forget(p, {Hash(1)}))
            && Forget(p, {Hash(1)}).pending == map[]
  {
    var p, q := Add(EMPTY, FIRST), Forget(Add(EMPTY, FIRST), {Hash(1)});
    assert p.pending.Keys == {Hash(1)};
    assert |p.pending| == |p.pending.Keys| == 1;
    assert Freed(p, {Hash(1)}, Address(1), 0);
    assert Address(2) !in q.bySender;
    assert Cheapest(p, Hash(1), FORGED.maxFee);
    assert Admit(cfg, q, FORGED, Err(InvalidSignature), q);
  }

  /** Pruning keeps everything of other senders and from the threshold on; it is complete exactly if all was indexed. */
  lemma PruneExactly(p: Pool, a: Address, minNonce: u64)
    requires Linked(p)
    ensures var q := Forget(p, Stale(p, a, minNonce));
            && (forall h :: h in p.pending && !(p.pending[h].sender == a && p.pending[h].nonce < minNonce) ==>
                  h in q.pending)
            && ((forall h :: h in q.pending ==> !(q.pending[h].sender == a && q.pending[h].nonce < minNonce))
                <==> (forall h :: h in p.pending && p.pending[h].sender == a && p.pending[h].nonce < minNonce ==>
                        Indexed(p, h)))
  {
    var stale := Stale(p, a, minNonce);
    forall h | h in p.pending
      ensures h in stale <==> p.pending[h].sender == a && p.pending[h].nonce < minNonce && Indexed(p, h)
    {
      StaleExactly(p, a, minNonce, h);
    }
    var q := Forget(p, stale);
    forall h ensures h in q.pending <==> h in p.pending && h !in stale {
    }
  }

  lemma StaleExactly(p: Pool, a: Address, minNonce: u64, h: Hash)
    requires Linked(p) && h in p.pending
    ensures h in Stale(p, a, minNonce) <==> p.pending[h].sender == a && p.pending[h].nonce < minNonce && Indexed(p, h)
  {
    if h in Stale(p, a, minNonce) {
      var n :| n in Queue(p, a) && n < minNonce && Queue(p, a)[n] == h;
      assert IndexAt(p, a, n) == Some(h);
      assert AtSlot(p, IndexAt(p, a, n).value, a, n);
    }
    if p.pending[h].sender == a && p.pending[h].nonce < minNonce && Indexed(p, h) {
      assert p.pending[h].nonce in Queue(p, a);
    }
  }

  // ---------------------------------------------------------------------
  // Replay protection
  // ---------------------------------------------------------------------

  predicate Clears(op: Op) {
    op.ClearOp? || op.ClearSeenOp?
  }

  /** An insert leaves the seen hashes alone and adds nothing but its own transaction. */
  lemma InsertAddsOnlyItself(cfg: PoolConfig, p: Pool, tx: PooledTx, r: Result<(), PoolError>, q: Pool)
    requires Insert(cfg, p, tx, r, q)
    ensures q.seen == p.seen
    ensures q.pending.Keys <= p.pending.Keys + (if Refused(cfg, p, tx) then {} else {tx.hash})
  {
    hide Admit, Kept;
    if !Refused(cfg, p, tx) {
      if |p.pending| < cfg.maxSize {
        AdmitAddsOnlyItself(cfg, p, tx, r, q);
      } else if Outbids(p, tx.maxFee) {
        var h :| Cheapest(p, h, tx.maxFee) && Admit(cfg, Forget(p, {h}), tx, r, q);
        AdmitAddsOnlyItself(cfg, Forget(p, {h}), tx, r, q);
      }
    }
  }

  lemma AdmitAddsOnlyItself(cfg: PoolConfig, p: Pool, tx: PooledTx, r: Result<(), PoolError>, q: Pool)
    requires Admit(cfg, p, tx, r, q)
    ensures q.seen == p.seen && q.pending.Keys <= p.pending.Keys + {tx.hash}
  {
  }

  lemma SeenStep(cfg: PoolConfig, p: Pool, op: Op, q: Pool, h: Hash)
    requires Next(cfg, p, op, q) && h in p.seen && h !in p.pending && !Clears(op)
    ensures h in q.seen && h !in q.pending
  {
    hide Insert, Kept;
    if op.InsertOp? {
      var r :| Insert(cfg, p, op.tx, r, q);
      InsertAddsOnlyItself(cfg, p, op.tx, r, q);
    }
  }

  /** A hash marked as seen and no longer pending cannot come back before the next clearing. */
  lemma {:induction false} SeenStaysOut(cfg: PoolConfig, ops: seq<Op>, pools: seq<Pool>, i: nat, j: nat, h: Hash)
    requires Run(cfg, ops, pools) && i <= j <= |ops|
    requires h in pools[i].seen && h !in pools[i].pending
    requires forall k :: i <= k < j ==> !Clears(ops[k])
    ensures h in pools[j].seen && h !in pools[j].pending
    decreases j - i
  {
    hide Next;
    if i < j {
      SeenStaysOut(cfg, ops, pools, i, j - 1, h);
      assert Next(cfg, pools[j - 1], ops[j - 1], pools[j]);
      SeenStep(cfg, pools[j - 1], ops[j - 1], pools[j], h);
    }
  }

  // ---------------------------------------------------------------------
  // Facts for the object
  // ---------------------------------------------------------------------

  lemma ForgetAbsent(p: Pool, h: Hash)
    requires NoEmptyQueue(p) && h !in p.pending
    ensures Forget(p, {h}) == p
  {
    assert forall a, n: int :: !Freed(p, {h}, a, n);
    ForgetMeans(p, {h}, p);
  }

  /** What removing one transaction comes down to. */
  lemma ForgetOne(p: Pool, h: Hash, q: Pool)
    requires Linked(p) && h in p.pending && q.pending == p.pending - {h} && q.seen == p.seen
    requires var a, n := p.pending[h].sender, p.pending[h].nonce;
             q.bySender == if a !in p.bySender then p.bySender
                           else if p.bySender[a] - {n} == map[] then p.bySender - {a}
                           else p.bySender[a := p.bySender[a] - {n}]
    ensures q == Forget(p, {h})
  {
    var a, n := p.pending[h].sender, p.pending[h].nonce;
    assert Freed(p, {h}, a, n);
    forall b, m: u64 ensures IndexAt(q, b, m) == if Freed(p, {h}, b, m) then None else IndexAt(p, b, m) {
      assert Freed(p, {h}, b, m) <==> b == a && m == n;
      if a in p.bySender && b == a {
        assert m in p.bySender[a] - {n} <==> m in p.bySender[a] && m != n;
      }
    }
    ForgetMeans(p, {h}, q);
  }

  /** What pruning comes down to. */
  lemma PrunedIs(p: Pool, a: Address, minNonce: u64, queue: map<u64, Hash>, q: Pool)
    requires Linked(p) && a in p.bySender && q.pending == p.pending - Stale(p, a, minNonce) && q.seen == p.seen
    requires TailOf(p.bySender[a], minNonce, queue)
    requires q.bySender == if queue == map[] then p.bySender - {a} else p.bySender[a := queue]
    ensures q == Forget(p, Stale(p, a, minNonce))
  {
    hide Stale;
    var stale := Stale(p, a, minNonce);
    forall b, n: u64 ensures IndexAt(q, b, n) == if Freed(p, stale, b, n) then None else IndexAt(p, b, n) {
      StaleSlots(p, a, minNonce, b, n);
      assert n in queue <==> n in p.bySender[a] && n >= minNonce;
    }
    ForgetMeans(p, stale, q);
  }

  lemma StaleSlots(p: Pool, a: Address, minNonce: u64, b: Address, n: u64)
    requires Linked(p)
    ensures Freed(p, Stale(p, a, minNonce), b, n) <==> b == a && n < minNonce && IndexAt(p, a, n).Some?
  {
    var stale := Stale(p, a, minNonce);
    if Freed(p, stale, b, n) {
      var h :| h in stale && h in p.pending && p.pending[h].sender == b && p.pending[h].nonce == n;
      StaleExactly(p, a, minNonce, h);
    }
    if b == a && n < minNonce && IndexAt(p, a, n).Some? {
      var h := IndexAt(p, a, n).value;
      assert n in Queue(p, a) && Queue(p, a)[n] == h;
      assert h in stale && AtSlot(p, h, a, n);
    }
  }

  predicate Reported(p: Pool, a: Address, n: u64, txs: seq<PooledTx>) {
    IndexAt(p, a, n).Some? && IndexAt(p, a, n).value in p.pending && p.pending[IndexAt(p, a, n).value] in txs
  }

  /** Indexed transactions of one sender, in the order of their nonces. */
  ghost predicate InNonceOrder(p: Pool, a: Address, txs: seq<PooledTx>) {
    && (forall i :: 0 <= i < |txs| ==>
          Indexed(p, txs[i].hash) && txs[i].sender == a && p.pending[txs[i].hash] == txs[i])
    && (forall i, j :: 0 <= i < j < |txs| ==> txs[i].nonce < txs[j].nonce)
  }

  /** All of a queue is listed, but for a rest of higher nonces. */
  ghost predicate ListedUpTo(p: Pool, a: Address, rest: map<u64, Hash>, txs: seq<PooledTx>) {
    && InNonceOrder(p, a, txs)
    && |txs| + |rest| == |Queue(p, a)|
    && (forall n :: n in rest ==> IndexAt(p, a, n) == Some(rest[n]))
    && (forall i, n :: 0 <= i < |txs| && n in rest ==> txs[i].nonce < n)
    && (forall n :: n in Queue(p, a) && n !in rest ==> Reported(p, a, n, txs))
  }

  lemma ListNone(p: Pool, a: Address)
    ensures ListedUpTo(p, a, Queue(p, a), [])
  {
  }

  lemma Shrinks(m: map<u64, Hash>, n: u64)
    requires n in m
    ensures |m - {n}| < |m|
  {
  }

  lemma AppendInOrder(p: Pool, a: Address, txs: seq<PooledTx>, tx: PooledTx)
    requires InNonceOrder(p, a, txs) && Indexed(p, tx.hash) && tx.sender == a && p.pending[tx.hash] == tx
    requires forall i :: 0 <= i < |txs| ==> txs[i].nonce < tx.nonce
    ensures InNonceOrder(p, a, txs + [tx])
  {
  }

  lemma ListNext(p: Pool, a: Address, rest: map<u64, Hash>, n: u64, txs: seq<PooledTx>)
    requires Linked(p) && ListedUpTo(p, a, rest, txs) && Lowest(rest.Keys, n)
    ensures rest[n] in p.pending && ListedUpTo(p, a, rest - {n}, txs + [p.pending[rest[n]]])
  {
    hide InNonceOrder;
    var h, left := rest[n], rest - {n};
    assert IndexAt(p, a, n) == Some(h) && AtSlot(p, h, a, n);
    var tx := p.pending[h];
    var more := txs + [tx];
    assert tx.hash == h && Indexed(p, h);
    hide Linked, IndexAt, Indexed;
    assert left.Keys == rest.Keys - {n} && |left| == |left.Keys| && |rest| == |rest.Keys|;
    AppendInOrder(p, a, txs, tx);
    forall m | m in Queue(p, a) && m !in left ensures Reported(p, a, m, more) {
      assert m == n ==> tx == more[|txs|];
      assert m != n ==> Reported(p, a, m, txs);
    }
  }

  lemma AllReported(p: Pool, a: Address, txs: seq<PooledTx>)
    requires ListedUpTo(p, a, map[], txs)
    ensures InNonceOrder(p, a, txs) && |txs| == |Queue(p, a)|
    ensures Bijective(p) ==> forall h :: h in p.pending && p.pending[h].sender == a ==> p.pending[h] in txs
  {
  }

  /** Distinct pending transactions, highest fee first. */
  ghost predicate Ranked(p: Pool, txs: seq<PooledTx>) {
    && (forall i :: 0 <= i < |txs| ==> txs[i].hash in p.pending && p.pending[txs[i].hash] == txs[i])
    && (forall i, j :: 0 <= i < j < |txs| ==> txs[i].hash != txs[j].hash && txs[i].maxFee >= txs[j].maxFee)
  }

  predicate InsertedAt(txs: seq<PooledTx>, tx: PooledTx, k: int, r: seq<PooledTx>) {
    && 0 <= k <= |txs| && r == txs[..k] + [tx] + txs[k..]
    && (forall i :: 0 <= i < k ==> txs[i].maxFee >= tx.maxFee)
    && (k < |txs| ==> txs[k].maxFee < tx.maxFee)
  }

  lemma InsertedElements(txs: seq<PooledTx>, tx: PooledTx, k: int, r: seq<PooledTx>)
    requires InsertedAt(txs, tx, k, r)
    ensures |r| == |txs| + 1
    ensures forall i :: 0 <= i < |r| ==> r[i] == if i < k then txs[i] else if i == k then tx else txs[i - 1]
    ensures forall t :: t in r <==> t == tx || t in txs
  {
  }

  lemma InsertedRanks(p: Pool, txs: seq<PooledTx>, tx: PooledTx, r: seq<PooledTx>)
    requires Ranked(p, txs) && tx.hash in p.pending && p.pending[tx.hash] == tx && tx !in txs
    requires exists k :: 0 <= k <= |txs| && InsertedAt(txs, tx, k, r)
    ensures Ranked(p, r) && |r| == |txs| + 1
    ensures forall t :: t in r <==> t == tx || t in txs
  {
    var k :| 0 <= k <= |txs| && InsertedAt(txs, tx, k, r);
    InsertedElements(txs, tx, k, r);
    forall i, j | 0 <= i < j < |r| ensures r[i].hash != r[j].hash && r[i].maxFee >= r[j].maxFee {
      InsertedPair(p, txs, tx, k, r, i, j);
    }
  }

  lemma InsertedPair(p: Pool, txs: seq<PooledTx>, tx: PooledTx, k: int, r: seq<PooledTx>, i: int, j: int)
    requires Ranked(p, txs) && p.pending[tx.hash := tx] == p.pending && tx !in txs && InsertedAt(txs, tx, k, r)
    requires 0 <= i < j < |r|
    ensures r[i].hash != r[j].hash && r[i].maxFee >= r[j].maxFee
  {
  }

  /** All pending transactions are ranked, but for a rest. */
  ghost predicate RankedBut(p: Pool, rest: set<Hash>, txs: seq<PooledTx>) {
    && Ranked(p, txs)
    && rest <= p.pending.Keys && |txs| + |rest| == |p.pending|
    && forall h :: h in p.pending ==> (h in rest <==> p.pending[h] !in txs)
  }

  lemma RankNone(p: Pool)
    ensures RankedBut(p, p.pending.Keys, [])
  {
    assert |p.pending.Keys| == |p.pending|;
  }

  lemma RankedFees(p: Pool, rest: set<Hash>, txs: seq<PooledTx>)
    requires RankedBut(p, rest, txs)
    ensures rest <= p.pending.Keys
    ensures forall i, j :: 0 <= i < j < |txs| ==> txs[i].maxFee >= txs[j].maxFee
  {
  }

  lemma RankNext(p: Pool, rest: set<Hash>, h: Hash, txs: seq<PooledTx>, r: seq<PooledTx>)
    requires Linked(p) && RankedBut(p, rest, txs) && h in rest
    requires exists k :: 0 <= k <= |txs| && InsertedAt(txs, p.pending[h], k, r)
    ensures RankedBut(p, rest - {h}, r)
  {
    hide Ranked, InsertedAt;
    InsertedRanks(p, txs, p.pending[h], r);
    assert p.pending[h].hash == h;
  }

  /** Cutting a full ranking leaves out only what pays no more. */
  lemma TopRanked(p: Pool, txs: seq<PooledTx>, n: nat)
    requires RankedBut(p, {}, txs) && n <= |txs|
    ensures Ranked(p, txs[..n]) && |txs| == |p.pending|
    ensures forall h, i :: h in p.pending && p.pending[h] !in txs[..n] && 0 <= i < n ==>
              p.pending[h].maxFee <= txs[i].maxFee
  {
  }

  /** Removing the hashes of a batch one after another. */
  lemma ForgetPrefix(p: Pool, hashes: seq<Hash>, k: nat)
    requires Linked(p) && k < |hashes|
    ensures Linked(Forget(p, Elements(hashes[..k])))
    ensures Forget(Forget(p, Elements(hashes[..k])), {hashes[k]}) == Forget(p, Elements(hashes[..k + 1]))
  {
    hide Forget, Linked;
    ForgetKeeps(p, Elements(hashes[..k]));
    ForgetTwice(p, Elements(hashes[..k]), {hashes[k]});
    assert Elements(hashes[..k + 1]) == Elements(hashes[..k]) + {hashes[k]};
  }
}

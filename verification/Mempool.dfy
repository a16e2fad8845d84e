/** The mempool object of `pool.rs`, used by one caller at a time, proved against the relations of `Pools`. */
module Mempool {
  import opened Basics
  import P = Pools

  class Mempool {
    const config: P.PoolConfig
    var pending: map<Hash, P.PooledTx>
    var bySender: map<Address, map<u64, Hash>>
    var recentlySeen: set<Hash>

    function View(): P.Pool
      reads this
    {
      P.Pool(pending, bySender, recentlySeen)
    }

    ghost predicate Valid()
      reads this
    {
      P.Sound(config, View())
    }

    constructor (config: P.PoolConfig)
      ensures this.config == config && View() == P.EMPTY && Valid()
    {
      this.config := config;
      pending, bySender, recentlySeen := map[], map[], {};
      new;
      P.EmptySound(config);
    }

    // -- Removal ----------------------------------------------------------

    method Remove(h: Hash) returns (r: Option<P.PooledTx>)
      requires P.Linked(View())
      modifies this
      ensures View() == P.Forget(old(View()), {h})
      ensures r == if h in old(pending) then Some(old(pending)[h]) else None
    {
      ghost var before := View();
      if h !in pending {
        P.ForgetAbsent(before, h);
        return None;
      }
      var tx := pending[h];
      pending := pending - {h};
      if tx.sender in bySender {
        var queue := bySender[tx.sender] - {tx.nonce};
        if queue == map[] {
          bySender := bySender - {tx.sender};
        } else {
          bySender := bySender[tx.sender := queue];
        }
      }
      P.ForgetOne(before, h, View());
      return Some(tx);
    }

    method RemoveBatch(hashes: seq<Hash>)
      requires Valid()
      modifies this
      ensures P.Next(config, old(View()), P.RemoveOp(hashes), View()) && Valid()
    {
      hide P.Forget, P.Linked;
      ghost var before := View();
      P.ForgetNothing(before);
      assert P.Elements(hashes[..0]) == {};
      for k := 0 to |hashes|
        invariant View() == P.Forget(before, P.Elements(hashes[..k]))
      {
        P.ForgetPrefix(before, hashes, k);
        var _ := Remove(hashes[k]);
      }
      assert hashes[..|hashes|] == hashes;
      P.NextSound(config, before, P.RemoveOp(hashes), View());
    }

    // -- Insertion --------------------------------------------------------

    /** Evict the cheapest transaction if the new fee is higher. */
    method TryEvictLowestFee(fee: u64) returns (ok: bool)
      requires Valid()
      modifies this
      ensures ok == P.Outbids(old(View()), fee)
      ensures !ok ==> View() == old(View())
      ensures ok ==> exists h :: P.Cheapest(old(View()), h, fee) && View() == P.Forget(old(View()), {h})
    {
      var lowest, found: Option<Hash> := U64_MAX, None;
      var rest := pending.Keys;
      while rest != {}
        invariant rest <= pending.Keys && View() == old(View())
        invariant found.None? ==> lowest == U64_MAX
        invariant found.Some? ==> found.value in pending && pending[found.value].maxFee == lowest
        invariant forall k :: k in pending && k !in rest ==> lowest <= pending[k].maxFee
        decreases |rest|
      {
        var h :| h in rest;
        if pending[h].maxFee < lowest {
          lowest, found := pending[h].maxFee, Some(h);
        }
        rest := rest - {h};
      }
      if found.Some? && fee > lowest {
        assert P.Cheapest(View(), found.value, fee);
        var _ := Remove(found.value);
        return true;
      }
      return false;
    }

    method CheckNonceGap(tx: P.PooledTx) returns (r: Result<(), P.PoolError>)
      requires Valid()
      ensures if P.GapTooLarge(config, View(), tx) then r.Err? && P.GapError(config, View(), tx, r.error)
              else r == Ok(())
    {
      if tx.sender in bySender {
        var lowest := LowestNonce(bySender[tx.sender]);
        var gap := SatSub(tx.nonce, lowest);
        assert P.Lowest(P.Queue(View(), tx.sender).Keys, lowest);
        if gap > config.maxNonceGap {
          assert lowest in P.Queue(View(), tx.sender) && tx.nonce > lowest + config.maxNonceGap;
          return Err(P.NonceGapTooLarge(config.maxNonceGap, gap));
        }
      }
      return Ok(());
    }

    method Insert(tx: P.PooledTx) returns (r: Result<(), P.PoolError>)
      requires Valid()
      modifies this
      ensures P.Insert(config, old(View()), tx, r, View())
      ensures Valid()
    {
      ghost var before := View();
      if tx.hash in pending {
        return Err(P.TransactionAlreadyExists);
      }
      if tx.hash in recentlySeen {
        return Err(P.DuplicateTransaction);
      }
      if config.chainId != "" && tx.chainId != config.chainId {
        return Err(P.ChainIdMismatch);
      }
      if |pending| >= config.maxSize {
        var evicted := TryEvictLowestFee(tx.maxFee);
        if !evicted {
          return Err(P.MempoolFull);
        }
        ghost var h :| P.Cheapest(before, h, tx.maxFee) && View() == P.Forget(before, {h});
        P.ForgetSound(config, before, {h});
      }
      ghost var room := View();
      r := Admit(tx);
      assert P.Admit(config, room, tx, r, View());
      P.InsertSound(config, before, tx, r, View());
    }

    method Admit(tx: P.PooledTx) returns (r: Result<(), P.PoolError>)
      requires Valid() && tx.hash !in pending
      modifies this
      ensures P.Admit(config, old(View()), tx, r, View())
    {
      if tx.sender in bySender && |bySender[tx.sender]| >= config.maxPerAccount {
        return Err(P.MempoolFull);
      }
      if tx.maxFee < config.minFee {
        return Err(P.FeeTooLow);
      }
      var gap := CheckNonceGap(tx);
      if gap.Err? {
        return gap;
      }
      if config.verifySignature && !tx.signed {
        return Err(P.InvalidSignature);
      }
      pending := pending[tx.hash := tx];
      var queue := if tx.sender in bySender then bySender[tx.sender] else map[];
      bySender := bySender[tx.sender := queue[tx.nonce := tx.hash]];
      return Ok(());
    }

    // -- Maintenance ------------------------------------------------------

    method EvictExpired(now: u64) returns (count: nat)
      requires Valid()
      modifies this
      ensures P.Next(config, old(View()), P.ExpireOp(now), View()) && Valid()
      ensures count == |P.Expired(config, old(View()), now)|
    {
      if config.ttl == 0 {
        P.ForgetNothing(View());
        return 0;
      }
      var expired := CollectExpired(SatSub(now, config.ttl));
      assert P.Elements(expired) == P.Expired(config, View(), now);
      hide P.Sound, P.Forget, P.Elements;
      count := |expired|;
      RemoveBatch(expired);
    }

    method CollectExpired(cutoff: u64) returns (expired: seq<Hash>)
      ensures P.Elements(expired) == set h | h in pending && pending[h].timestamp < cutoff
      ensures |expired| == |P.Elements(expired)|
    {
      expired := [];
      var rest := pending.Keys;
      while rest != {}
        invariant rest <= pending.Keys
        invariant P.Elements(expired) == set h | h in pending && h !in rest && pending[h].timestamp < cutoff
        invariant |expired| == |P.Elements(expired)|
        decreases |rest|
      {
        var h :| h in rest;
        if pending[h].timestamp < cutoff {
          assert P.Elements(expired + [h]) == P.Elements(expired) + {h};
          expired := expired + [h];
        }
        rest := rest - {h};
      }
    }

    method PruneBelowNonce(sender: Address, minNonce: u64)
      requires Valid()
      modifies this
      ensures P.Next(config, old(View()), P.PruneOp(sender, minNonce), View()) && Valid()
    {
      hide P.Forget, P.Linked;
      ghost var before := View();
      P.ForgetSound(config, before, P.Stale(before, sender, minNonce));
      if sender in bySender {
        PruneQueue(sender, minNonce);
      } else {
        assert P.Stale(before, sender, minNonce) == {};
        P.ForgetNothing(before);
      }
    }

    method PruneQueue(sender: Address, minNonce: u64)
      requires P.Linked(View()) && sender in bySender
      modifies this
      ensures View() == P.Forget(old(View()), P.Stale(old(View()), sender, minNonce))
    {
      hide P.Forget, P.Linked, P.HashesBelow, P.TailOf;
      ghost var before := View();
      var queue, hashes := TakeBelow(bySender[sender], minNonce);
      bySender := bySender[sender := queue];
      DropPending(hashes);
      if bySender[sender] == map[] {
        bySender := bySender - {sender};
        assert bySender == before.bySender - {sender};
      }
      P.PrunedIs(before, sender, minNonce, queue, View());
    }

    method DropPending(hashes: set<Hash>)
      modifies this`pending
      ensures pending == old(pending) - hashes
    {
      var rest := hashes;
      while rest != {}
        invariant rest <= hashes && pending == old(pending) - (hashes - rest)
        decreases |rest|
      {
        var h :| h in rest;
        pending := pending - {h};
        rest := rest - {h};
      }
    }

    method MarkSeenBatch(hashes: seq<Hash>)
      requires Valid()
      modifies this
      ensures P.Next(config, old(View()), P.MarkSeenOp(hashes), View()) && Valid()
    {
      ghost var before := View();
      for k := 0 to |hashes|
        invariant View() == before.(seen := before.seen + P.Elements(hashes[..k]))
      {
        recentlySeen := recentlySeen + {hashes[k]};
        assert P.Elements(hashes[..k + 1]) == P.Elements(hashes[..k]) + {hashes[k]};
      }
      assert hashes[..|hashes|] == hashes;
      P.NextSound(config, before, P.MarkSeenOp(hashes), View());
    }

    method ClearRecentlySeen()
      requires Valid()
      modifies this
      ensures P.Next(config, old(View()), P.ClearSeenOp, View()) && Valid()
    {
      P.SeenIrrelevant(config, View(), {});
      recentlySeen := {};
    }

    method Clear()
      modifies this
      ensures P.Next(config, old(View()), P.ClearOp, View()) && Valid()
    {
      pending, bySender, recentlySeen := map[], map[], {};
      P.EmptySound(config);
    }

    // -- Queries ----------------------------------------------------------

    /** All indexed transactions of a sender in the order of their nonces; none is dropped. */
    method GetAccountTxs(sender: Address) returns (txs: seq<P.PooledTx>)
      requires Valid()
      ensures |txs| == |P.Queue(View(), sender)| && P.InNonceOrder(View(), sender, txs)
      ensures P.Bijective(View()) ==> forall h :: h in pending && pending[h].sender == sender ==> pending[h] in txs
    {
      hide P.ListedUpTo, P.InNonceOrder, P.Bijective;
      txs := [];
      var rest := if sender in bySender then bySender[sender] else map[];
      assert P.ListedUpTo(View(), sender, rest, txs) by { P.ListNone(View(), sender); }
      while rest != map[]
        invariant P.ListedUpTo(View(), sender, rest, txs)
        decreases |rest|
      {
        var n := LowestNonce(rest);
        P.ListNext(View(), sender, rest, n, txs);
        if rest[n] in pending {
          txs := txs + [pending[rest[n]]];
        }
        P.Shrinks(rest, n);
        rest := rest - {n};
      }
      P.AllReported(View(), sender, txs);
    }

    /** The highest fees first, and nothing left out pays more than anything taken. */
    method GetPendingForBlock(maxTxs: nat) returns (txs: seq<P.PooledTx>)
      requires Valid()
      ensures |txs| == if maxTxs <= |pending| then maxTxs else |pending|
      ensures P.Ranked(View(), txs)
      ensures forall h, i :: h in pending && pending[h] !in txs && 0 <= i < |txs| ==> pending[h].maxFee <= txs[i].maxFee
    {
      hide P.RankedBut, P.Linked;
      txs := [];
      var rest := pending.Keys;
      P.RankNone(View());
      while rest != {}
        invariant P.RankedBut(View(), rest, txs)
        decreases |rest|
      {
        var h :| h in rest;
        P.RankedFees(View(), rest, txs);
        var more := InsertByFee(txs, pending[h]);
        P.RankNext(View(), rest, h, txs, more);
        txs, rest := more, rest - {h};
      }
      P.TopRanked(View(), txs, if maxTxs < |txs| then maxTxs else |txs|);
      if maxTxs < |txs| {
        txs := txs[..maxTxs];
      } else {
        assert txs[..|txs|] == txs;
      }
    }
  }

  // ---------------------------------------------------------------------
  // Helpers on ordered maps and sorted lists
  // ---------------------------------------------------------------------

  /** First key of an ordered map. */
  method LowestNonce(queue: map<u64, Hash>) returns (lowest: u64)
    requires queue != map[]
    ensures P.Lowest(queue.Keys, lowest)
  {
    lowest :| lowest in queue;
    var rest := queue.Keys;
    while rest != {}
      invariant lowest in queue && rest <= queue.Keys
      invariant forall m :: m in queue && m !in rest ==> lowest <= m
      decreases |rest|
    {
      var n :| n in rest;
      if n < lowest {
        lowest := n;
      }
      rest := rest - {n};
    }
  }

  /** Take all entries below a nonce out of a queue. */
  method TakeBelow(all: map<u64, Hash>, minNonce: u64) returns (queue: map<u64, Hash>, hashes: set<Hash>)
    ensures P.TailOf(all, minNonce, queue) && hashes == P.HashesBelow(all, minNonce)
  {
    queue, hashes := all, {};
    var stale: set<u64> := set n | n in all && n < minNonce;
    while stale != {}
      invariant forall n :: n in stale ==> n in all && n < minNonce
      invariant forall n :: n in queue <==> n in all && (n >= minNonce || n in stale)
      invariant forall n :: n in queue ==> queue[n] == all[n]
      invariant hashes == set n | n in all && n < minNonce && n !in stale :: all[n]
      decreases |stale|
    {
      var n :| n in stale;
      hashes := hashes + {queue[n]};
      queue := queue - {n};
      stale := stale - {n};
    }
  }

  /** Put a transaction behind all that pay at least as much. */
  method InsertByFee(txs: seq<P.PooledTx>, tx: P.PooledTx) returns (r: seq<P.PooledTx>)
    requires forall i, j :: 0 <= i < j < |txs| ==> txs[i].maxFee >= txs[j].maxFee
    ensures exists k :: 0 <= k <= |txs| && P.InsertedAt(txs, tx, k, r)
  {
    var k := 0;
    while k < |txs| && txs[k].maxFee >= tx.maxFee
      invariant 0 <= k <= |txs|
      invariant forall i :: 0 <= i < k ==> txs[i].maxFee >= tx.maxFee
    {
      k := k + 1;
    }
    r := txs[..k] + [tx] + txs[k..];
    assert P.InsertedAt(txs, tx, k, r);
  }
}

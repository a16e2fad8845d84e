/** Executing transactions and blocks (`executor.rs`), with action handlers as abstract functions. */
module Execution {
  import opened Basics
  import opened State
  import opened Actions
  import opened Ledger
  import opened Overlay
  import opened Unbondings

  /** A handler may fail half way and keep what it wrote, and it may panic. */
  datatype HandlerOutcome = Returned(ok: bool, store: Store) | Panicked(store: Store)

  type Handler = (Transaction, Store, u64) -> HandlerOutcome

  datatype TxResult = Executed(receipt: Receipt) | Rejected(error: ExecutionError)

  function GetSession(s: Store, granter: Address, session: Address): Option<SessionGrant> {
    var k := SessionKey(granter, session);
    if k in s && s[k].SessionValue? then Some(s[k].grant) else None
  }

  /** After a successful action signed by a session key, its spending counter grows by the fee. */
  function SpendSession(s: Store, tx: Transaction, fee: u64): Store {
    if tx.session.None? || GetSession(s, tx.signer, tx.session.value).None? then s
    else
      var grant := GetSession(s, tx.signer, tx.session.value).value;
      s[SessionKey(tx.signer, tx.session.value) := SessionValue(grant.(amountSpent := Wrap(grant.amountSpent + fee)))]
  }

  /** `execute_transaction_safe`. */
  function ExecuteTransaction(cfg: ChainConfig, handler: Handler, s: Store, tx: Transaction, height: u64,
                              proposer: Address): (Store, TxResult)
  {
    var charged := FeePhase(cfg, s, tx, proposer);
    if charged.Err? then (s, Rejected(charged.error))
    else
      var fee, gas := Fee(cfg, tx), TotalGas(cfg, tx);
      match handler(tx, charged.value, height)
      case Returned(ok, s1) =>
        (if ok then SpendSession(s1, tx, fee) else s1, Executed(Receipt(ok, fee, gas, FeePayer(tx))))
      case Panicked(s1) => (s1, Rejected(HandlerPanicked))
  }

  function FailureReceipt(tx: Transaction): Receipt {
    Receipt(false, 0, 0, FeePayer(tx))
  }

  /** Whether a transaction of a block gets as far as its handler. */
  predicate Dispatched(cfg: ChainConfig, s: Store, tx: Transaction, proposer: Address, used: u64) {
    SatAdd(used, TotalGas(cfg, tx)) <= cfg.maxBlockGas && FeePhase(cfg, s, tx, proposer).Ok?
  }

  /** One turn of the block loop, after `used` gas: the store, the gas used so far and the receipt. */
  function Turn(cfg: ChainConfig, handler: Handler, s: Store, tx: Transaction, height: u64, proposer: Address,
                used: u64): (Store, u64, Receipt)
  {
    if SatAdd(used, TotalGas(cfg, tx)) > cfg.maxBlockGas then (s, used, FailureReceipt(tx))
    else
      var (s1, r) := ExecuteTransaction(cfg, handler, s, tx, height, proposer);
      match r
      case Executed(receipt) => (s1, SatAdd(used, receipt.gasUsed), receipt)
      case Rejected(_) => (s1, used, FailureReceipt(tx))
  }

  /** The rest of a block, after `used` gas. */
  function BlockFrom(cfg: ChainConfig, handler: Handler, s: Store, txs: seq<Transaction>, height: u64,
                     proposer: Address, used: u64): (Store, seq<Receipt>)
    decreases |txs|
  {
    if txs == [] then (s, [])
    else
      var (s1, used1, receipt) := Turn(cfg, handler, s, txs[0], height, proposer, used);
      var (s', rest) := BlockFrom(cfg, handler, s1, txs[1..], height, proposer, used1);
      (s', [receipt] + rest)
  }

  // ---------------------------------------------------------------------
  // The code, updating a store in place
  // ---------------------------------------------------------------------

  method ChargeFee(store: StateStore, tx: Transaction, fee: u64) returns (r: Result<(), ExecutionError>)
    modifies store
    ensures var spec := Charge(old(store.data), tx, fee);
            if spec.Err? then r == Err(spec.error) && store.data == old(store.data)
            else r == Ok(()) && store.data == spec.value
  {
    var payer := FeePayer(tx);
    var signer := GetAccount(store.data, tx.signer);
    if signer.None? {
      return Err(AccountNotFound(tx.signer));
    }
    var account := signer.value;
    if payer == tx.signer {
      if account.balance < fee {
        return Err(InsufficientBalance(fee, account.balance));
      }
      account := account.(balance := account.balance - fee);
    } else {
      var sponsor := GetAccount(store.data, payer);
      if sponsor.None? {
        return Err(AccountNotFound(payer));
      }
      if sponsor.value.balance < fee {
        return Err(InsufficientBalance(fee, sponsor.value.balance));
      }
      store.Put(AccountKey(payer), AccountValue(sponsor.value.(balance := sponsor.value.balance - fee)));
    }
    store.Put(AccountKey(tx.signer), AccountValue(account.(nonce := Wrap(account.nonce + 1))));
    return Ok(());
  }

  method CreditAccount(store: StateStore, a: Address, amount: nat)
    modifies store
    ensures store.data == Credit(old(store.data), a, amount)
  {
    if amount > 0 {
      var found := GetAccount(store.data, a);
      var account := if found.Some? then found.value else AccountState(0, 0);
      store.Put(AccountKey(a), AccountValue(account.(balance := SatAdd(account.balance, amount))));
    }
  }

  method DistributeFee(cfg: ChainConfig, store: StateStore, fee: u64, proposer: Address)
    modifies store
    ensures store.data == Distribute(cfg, old(store.data), fee, proposer)
  {
    hide Credit;
    if fee > 0 {
      CreditAccount(store, cfg.treasury, TreasuryShare(cfg, fee));
      CreditAccount(store, proposer, ProposerShare(cfg, fee));
      var supply := GetSupply(store.data);
      supply := supply.(totalFeesCollected := SatAdd(supply.totalFeesCollected, fee));
      supply := supply.(totalBurned := SatAdd(supply.totalBurned, BurnShare(cfg, fee)));
      supply := supply.(totalSupply := SatSub(supply.totalSupply, BurnShare(cfg, fee)));
      supply := supply.(treasuryBalance := SatAdd(supply.treasuryBalance, TreasuryShare(cfg, fee)));
      store.Put(SupplyKey, SupplyValue(Recomputed(supply)));
    }
  }

  /** `apply_block_reward`. */
  method CreditBlockReward(cfg: ChainConfig, store: StateStore, proposer: Address)
    modifies store
    ensures store.data == ApplyBlockReward(cfg, old(store.data), proposer)
  {
    hide Credit;
    if cfg.blockReward == 0 || proposer == ZERO_ADDRESS {
      return;
    }
    CreditAccount(store, proposer, cfg.blockReward);
    if SupplyKey in store.data && store.data[SupplyKey].SupplyValue? {
      var supply := store.data[SupplyKey].supply;
      supply := supply.(totalSupply := SatAdd(supply.totalSupply, cfg.blockReward));
      supply := supply.(totalMinted := SatAdd(supply.totalMinted, cfg.blockReward));
      store.Put(SupplyKey, SupplyValue(Recomputed(supply)));
    }
    var key := ValidatorKey(proposer);
    if key in store.data && store.data[key].ValidatorValue? {
      var record := store.data[key];
      store.Put(key, record.(blocksProduced := SatAdd(record.blocksProduced, 1)));
    }
  }

  method Execute(cfg: ChainConfig, handler: Handler, store: StateStore, tx: Transaction, height: u64, proposer: Address)
    returns (r: TxResult)
    modifies store
    ensures (store.data, r) == ExecuteTransaction(cfg, handler, old(store.data), tx, height, proposer)
  {
    hide Charge, Distribute;
    var gas := TotalGas(cfg, tx);
    var fee := SatMul(gas, cfg.minGasPrice);
    if tx.maxFee < fee {
      return Rejected(FeeTooLow);
    }
    var charged := ChargeFee(store, tx, fee);
    if charged.Err? {
      return Rejected(charged.error);
    }
    DistributeFee(cfg, store, fee, proposer);
    var outcome := handler(tx, store.data, height);
    store.data := outcome.store;
    if outcome.Panicked? {
      return Rejected(HandlerPanicked);
    }
    if outcome.ok && tx.session.Some? {
      var grant := GetSession(store.data, tx.signer, tx.session.value);
      if grant.Some? {
        store.Put(SessionKey(tx.signer, tx.session.value),
                  SessionValue(grant.value.(amountSpent := Wrap(grant.value.amountSpent + fee))));
      }
    }
    return Executed(Receipt(outcome.ok, fee, gas, FeePayer(tx)));
  }

  lemma BlockUnrolls(cfg: ChainConfig, handler: Handler, s: Store, txs: seq<Transaction>, k: nat, height: u64,
                     proposer: Address, used: u64)
    requires k < |txs|
    ensures var (s1, used1, receipt) := Turn(cfg, handler, s, txs[k], height, proposer, used);
            var rest := BlockFrom(cfg, handler, s1, txs[k + 1..], height, proposer, used1);
            BlockFrom(cfg, handler, s, txs[k..], height, proposer, used) == (rest.0, [receipt] + rest.1)
  {
  }

  /** `execute_block`. */
  method ExecuteBlock(cfg: ChainConfig, handler: Handler, store: StateStore, txs: seq<Transaction>, height: u64,
                      proposer: Address) returns (receipts: seq<Receipt>)
    modifies store
    ensures (store.data, receipts)
            == BlockFrom(cfg, handler, ReleaseMature(old(store.data), height), txs, height, proposer, 0)
  {
    hide BlockFrom, ExecuteTransaction, ReleaseMature;
    receipts := [];
    var used: u64 := 0;
    ProcessMatureUnbondings(store, height);
    ghost var all := BlockFrom(cfg, handler, store.data, txs, height, proposer, 0);
    assert txs[0..] == txs;
    for k := 0 to |txs|
      invariant var rest := BlockFrom(cfg, handler, store.data, txs[k..], height, proposer, used);
                all.0 == rest.0 && all.1 == receipts + rest.1
    {
      var tx := txs[k];
      BlockUnrolls(cfg, handler, store.data, txs, k, height, proposer, used);
      if SatAdd(used, TotalGas(cfg, tx)) > cfg.maxBlockGas {
        receipts := receipts + [FailureReceipt(tx)];
      } else {
        var r := Execute(cfg, handler, store, tx, height, proposer);
        match r {
          case Executed(receipt) =>
            used := SatAdd(used, receipt.gasUsed);
            receipts := receipts + [receipt];
          case Rejected(_) =>
            receipts := receipts + [FailureReceipt(tx)];
        }
      }
    }
    EmptyBlock(cfg, handler, store.data, txs, height, proposer, used);
    assert receipts + [] == receipts;
  }

  lemma EmptyBlock(cfg: ChainConfig, handler: Handler, s: Store, txs: seq<Transaction>, height: u64, proposer: Address,
                   used: u64)
    ensures BlockFrom(cfg, handler, s, txs[|txs|..], height, proposer, used) == (s, [])
  {
  }

  // ---------------------------------------------------------------------
  // Block gas
  // ---------------------------------------------------------------------

  function GasSum(rs: seq<Receipt>): nat {
    if rs == [] then 0 else rs[0].gasUsed + GasSum(rs[1..])
  }

  function FeeSum(rs: seq<Receipt>): nat {
    if rs == [] then 0 else rs[0].feeUsed + FeeSum(rs[1..])
  }

  function BurnSum(cfg: ChainConfig, rs: seq<Receipt>): nat {
    if rs == [] then 0 else BurnShare(cfg, rs[0].feeUsed) + BurnSum(cfg, rs[1..])
  }

  lemma ConsSums(cfg: ChainConfig, r: Receipt, rest: seq<Receipt>)
    ensures GasSum([r] + rest) == r.gasUsed + GasSum(rest)
    ensures FeeSum([r] + rest) == r.feeUsed + FeeSum(rest)
    ensures BurnSum(cfg, [r] + rest) == BurnShare(cfg, r.feeUsed) + BurnSum(cfg, rest)
  {
  }

  /** One receipt per transaction, in order, each naming the transaction's own fee payer. */
  lemma {:induction false} OneReceiptEach(cfg: ChainConfig, handler: Handler, s: Store, txs: seq<Transaction>,
                                          height: u64,
                                          proposer: Address, used: u64)
    ensures var rs := BlockFrom(cfg, handler, s, txs, height, proposer, used).1;
            && |rs| == |txs|
            && forall i :: 0 <= i < |txs| ==>
                 && rs[i].feePayer == FeePayer(txs[i])
                 && (rs[i] == FailureReceipt(txs[i])
                     || (rs[i].gasUsed == TotalGas(cfg, txs[i]) && rs[i].feeUsed == Fee(cfg, txs[i])))
    decreases |txs|
  {
    if txs == [] {
    } else {
      var (s1, used1, _) := Turn(cfg, handler, s, txs[0], height, proposer, used);
      OneReceiptEach(cfg, handler, s1, txs[1..], height, proposer, used1);
    }
  }

  /** The gas of all receipts stays within the block limit, provided the limit is below `u64::MAX`. */
  lemma {:induction false} GasWithinLimit(cfg: ChainConfig, handler: Handler, s: Store, txs: seq<Transaction>,
                                          height: u64,
                                          proposer: Address, used: u64)
    requires cfg.maxBlockGas < U64_MAX && used <= cfg.maxBlockGas
    ensures used + GasSum(BlockFrom(cfg, handler, s, txs, height, proposer, used).1) <= cfg.maxBlockGas
    decreases |txs|
  {
    if txs == [] {
    } else {
      var (s1, used1, receipt) := Turn(cfg, handler, s, txs[0], height, proposer, used);
      GasWithinLimit(cfg, handler, s1, txs[1..], height, proposer, used1);
      ConsSums(cfg, receipt, BlockFrom(cfg, handler, s1, txs[1..], height, proposer, used1).1);
    }
  }

  // ---------------------------------------------------------------------
  // Block ledger
  // ---------------------------------------------------------------------

  function FeesCollected(s: Store): nat {
    GetSupply(s).totalFeesCollected
  }

  function Burned(s: Store): nat {
    GetSupply(s).totalBurned
  }

  function TreasuryBooked(s: Store): nat {
    GetSupply(s).treasuryBalance
  }

  /** Handlers leave the fee counters alone. */
  ghost predicate KeepsCounters(handler: Handler) {
    forall tx, s, h: u64 ::
      && FeesCollected(handler(tx, s, h).store) == FeesCollected(s)
      && Burned(handler(tx, s, h).store) == Burned(s)
      && TreasuryBooked(handler(tx, s, h).store) == TreasuryBooked(s)
  }

  ghost predicate NeverPanics(handler: Handler) {
    forall tx, s, h: u64 :: handler(tx, s, h).Returned?
  }

  function FeesOf(cfg: ChainConfig, txs: seq<Transaction>): nat {
    if txs == [] then 0 else Fee(cfg, txs[0]) + FeesOf(cfg, txs[1..])
  }

  /** Room in the three counters for a given amount of further fees. */
  predicate RoomFor(s: Store, amount: nat) {
    && FeesCollected(s) + amount <= U64_MAX
    && Burned(s) + amount <= U64_MAX
    && TreasuryBooked(s) + amount <= U64_MAX
  }

  /** A charged fee that no receipt will show: the handler panics after the fee phase. */
  predicate LosesFee(cfg: ChainConfig, handler: Handler, s: Store, tx: Transaction, height: u64, proposer: Address,
                     used: u64)
  {
    && SatAdd(used, TotalGas(cfg, tx)) <= cfg.maxBlockGas
    && Fee(cfg, tx) > 0
    && FeePhase(cfg, s, tx, proposer).Ok?
    && handler(tx, FeePhase(cfg, s, tx, proposer).value, height).Panicked?
  }

  /** The fees of a block that no receipt shows. */
  function LostFees(cfg: ChainConfig, handler: Handler, s: Store, txs: seq<Transaction>, height: u64,
                    proposer: Address, used: u64): nat
    decreases |txs|
  {
    if txs == [] then 0
    else
      var (s1, used1, _) := Turn(cfg, handler, s, txs[0], height, proposer, used);
      (if LosesFee(cfg, handler, s, txs[0], height, proposer, used) then Fee(cfg, txs[0]) else 0)
      + LostFees(cfg, handler, s1, txs[1..], height, proposer, used1)
  }

  /** The burned shares of those fees. */
  function LostBurns(cfg: ChainConfig, handler: Handler, s: Store, txs: seq<Transaction>, height: u64,
                     proposer: Address, used: u64): nat
    decreases |txs|
  {
    if txs == [] then 0
    else
      var (s1, used1, _) := Turn(cfg, handler, s, txs[0], height, proposer, used);
      (if LosesFee(cfg, handler, s, txs[0], height, proposer, used) then BurnShare(cfg, Fee(cfg, txs[0])) else 0)
      + LostBurns(cfg, handler, s1, txs[1..], height, proposer, used1)
  }

  predicate BlockLosesFee(cfg: ChainConfig, handler: Handler, s: Store, txs: seq<Transaction>, height: u64,
                          proposer: Address, used: u64)
    decreases |txs|
  {
    txs != [] &&
    (|| LosesFee(cfg, handler, s, txs[0], height, proposer, used)
     || var (s1, used1, _) := Turn(cfg, handler, s, txs[0], height, proposer, used);
        BlockLosesFee(cfg, handler, s1, txs[1..], height, proposer, used1))
  }

  /** What one turn does to the counters. */
  lemma TurnCounters(cfg: ChainConfig, handler: Handler, s: Store, tx: Transaction, height: u64, proposer: Address,
                     used: u64, amount: nat)
    requires ValidSplit(cfg) && KeepsCounters(handler)
    requires RoomFor(s, Fee(cfg, tx) + amount)
    ensures var (s', _, receipt) := Turn(cfg, handler, s, tx, height, proposer, used);
            var fee := if LosesFee(cfg, handler, s, tx, height, proposer, used) then Fee(cfg, tx) else receipt.feeUsed;
            && FeesCollected(s') == FeesCollected(s) + fee
            && Burned(s') == Burned(s) + BurnShare(cfg, fee)
            && TreasuryBooked(s') == TreasuryBooked(s) + TreasuryShare(cfg, fee)
            && (LosesFee(cfg, handler, s, tx, height, proposer, used) ==> receipt.feeUsed == 0 < fee)
            && RoomFor(s', amount)
  {
    hide FeePhase;
    var fee := Fee(cfg, tx);
    var charged := FeePhase(cfg, s, tx, proposer);
    SharesAddUp(cfg, fee);
    if charged.Ok? {
      FeeCounters(cfg, s, tx, proposer);
      TreasuryCounter(cfg, s, tx, proposer);
      var o := handler(tx, charged.value, height);
      assert FeesCollected(o.store) == FeesCollected(charged.value) && Burned(o.store) == Burned(charged.value);
      assert TreasuryBooked(o.store) == TreasuryBooked(charged.value);
    }
  }

  lemma TreasuryCounter(cfg: ChainConfig, s: Store, tx: Transaction, proposer: Address)
    requires FeePhase(cfg, s, tx, proposer).Ok?
    requires TreasuryBooked(s) + TreasuryShare(cfg, Fee(cfg, tx)) <= U64_MAX
    ensures TreasuryBooked(FeePhase(cfg, s, tx, proposer).value)
            == TreasuryBooked(s) + TreasuryShare(cfg, Fee(cfg, tx))
  {
  }

  /**
   * The block ledger: over a whole block the fee counter grows by the fees on the receipts and those
   * lost to panics, the burn counter by the burned shares of both.
   */
  lemma {:induction false} BlockLedger(cfg: ChainConfig, handler: Handler, s: Store, txs: seq<Transaction>, height: u64,
                                       proposer: Address, used: u64)
    requires ValidSplit(cfg) && KeepsCounters(handler)
    requires RoomFor(s, FeesOf(cfg, txs))
    ensures var (s', rs) := BlockFrom(cfg, handler, s, txs, height, proposer, used);
            && FeesCollected(s')
               == FeesCollected(s) + FeeSum(rs) + LostFees(cfg, handler, s, txs, height, proposer, used)
            && Burned(s') == Burned(s) + BurnSum(cfg, rs) + LostBurns(cfg, handler, s, txs, height, proposer, used)
    decreases |txs|
  {
    hide Turn, LosesFee, RoomFor, FeesCollected, Burned, TreasuryBooked;
    if txs == [] {
    } else {
      TurnCounters(cfg, handler, s, txs[0], height, proposer, used, FeesOf(cfg, txs[1..]));
      var (s1, used1, receipt) := Turn(cfg, handler, s, txs[0], height, proposer, used);
      BlockLedger(cfg, handler, s1, txs[1..], height, proposer, used1);
      ConsSums(cfg, receipt, BlockFrom(cfg, handler, s1, txs[1..], height, proposer, used1).1);
    }
  }

  /** Nothing is lost if and only if no handler panics after a fee was taken. */
  lemma {:induction false} NothingLostExactly(cfg: ChainConfig, handler: Handler, s: Store, txs: seq<Transaction>,
                                              height: u64, proposer: Address, used: u64)
    ensures LostFees(cfg, handler, s, txs, height, proposer, used) == 0
            <==> !BlockLosesFee(cfg, handler, s, txs, height, proposer, used)
    decreases |txs|
  {
    hide Turn;
    if txs == [] {
    } else {
      var (s1, used1, _) := Turn(cfg, handler, s, txs[0], height, proposer, used);
      NothingLostExactly(cfg, handler, s1, txs[1..], height, proposer, used1);
    }
  }

  // ---------------------------------------------------------------------
  // Rejection
  // ---------------------------------------------------------------------

  function NonceOf(s: Store, a: Address): Option<u64> {
    if GetAccount(s, a).Some? then Some(GetAccount(s, a).value.nonce) else None
  }

  /** Handlers never remove an account or touch its nonce, and give a new one nonce 0. */
  ghost predicate KeepsNonces(handler: Handler) {
    forall tx, s, h: u64, a ::
      && (GetAccount(s, a).Some? ==> NonceOf(handler(tx, s, h).store, a) == NonceOf(s, a))
      && (GetAccount(s, a).None? ==> NonceOf(handler(tx, s, h).store, a) in {None, Some(0)})
  }

  lemma DistributeSpares(cfg: ChainConfig, s: Store, fee: u64, proposer: Address, b: Address)
    requires GetAccount(s, b).Some?
    ensures GetAccount(Distribute(cfg, s, fee, proposer), b).Some?
    ensures NonceOf(Distribute(cfg, s, fee, proposer), b) == NonceOf(s, b)
    ensures BalanceOf(s, b) <= BalanceOf(Distribute(cfg, s, fee, proposer), b)
  {
  }

  /** What an account gets back of a fee. */
  function Gain(cfg: ChainConfig, fee: u64, proposer: Address, a: Address): nat {
    (if a == cfg.treasury then TreasuryShare(cfg, fee) else 0) + (if a == proposer then ProposerShare(cfg, fee) else 0)
  }

  lemma DistributeBalance(cfg: ChainConfig, s: Store, fee: u64, proposer: Address, a: Address)
    ensures BalanceOf(Distribute(cfg, s, fee, proposer), a) == SatAdd(BalanceOf(s, a), Gain(cfg, fee, proposer, a))
  {
  }

  /** The fee phase raises the signer's nonce and no other, and only the payer can lose balance. */
  lemma FeePhaseNonces(cfg: ChainConfig, s: Store, tx: Transaction, proposer: Address, a: Address)
    requires FeePhase(cfg, s, tx, proposer).Ok? && GetAccount(s, a).Some?
    ensures var s' := FeePhase(cfg, s, tx, proposer).value;
            && GetAccount(s', a).Some?
            && NonceOf(s', a) == Some(if a == tx.signer then Wrap(NonceOf(s, a).value + 1) else NonceOf(s, a).value)
            && (a != FeePayer(tx) ==> BalanceOf(s, a) <= BalanceOf(s', a))
  {
    hide Distribute;
    var charged := Charge(s, tx, Fee(cfg, tx)).value;
    DistributeSpares(cfg, charged, Fee(cfg, tx), proposer, a);
  }

  /**
   * The store stays as it was if and only if the fee phase turns the transaction away. A transaction
   * is also rejected, and reported with a zero fee, when its handler panics; its fee has been taken.
   */
  lemma RejectionLeavesStore(cfg: ChainConfig, handler: Handler, s: Store, tx: Transaction, height: u64,
                             proposer: Address)
    requires KeepsNonces(handler)
    ensures var (s', r) := ExecuteTransaction(cfg, handler, s, tx, height, proposer);
            && (s' == s <==> FeePhase(cfg, s, tx, proposer).Err?)
            && (r.Rejected? <==> (FeePhase(cfg, s, tx, proposer).Ok? ==>
                                    handler(tx, FeePhase(cfg, s, tx, proposer).value, height).Panicked?))
  {
    hide FeePhase;
    var charged := FeePhase(cfg, s, tx, proposer);
    if charged.Ok? {
      assert GetAccount(s, tx.signer).Some? by { ChargedSignerExists(cfg, s, tx, proposer); }
      FeePhaseNonces(cfg, s, tx, proposer, tx.signer);
      var o := handler(tx, charged.value, height);
      assert NonceOf(o.store, tx.signer) == NonceOf(charged.value, tx.signer) != NonceOf(s, tx.signer);
      assert NonceOf(SpendSession(o.store, tx, Fee(cfg, tx)), tx.signer) == NonceOf(o.store, tx.signer);
    }
  }

  lemma ChargedSignerExists(cfg: ChainConfig, s: Store, tx: Transaction, proposer: Address)
    requires FeePhase(cfg, s, tx, proposer).Ok?
    ensures GetAccount(s, tx.signer).Some?
  {
  }
}

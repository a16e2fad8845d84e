/**
 * What the predicted access sets (`access_set.rs`) amount to: exactly when two transactions conflict,
 * and that they are enough for transfers that pay no fee.
 */
module Predictions {
  import opened Basics
  import opened State
  import opened AccessSets
  import opened Serial
  import opened Schedule
  import opened Parallel
  import opened Ledger
  import opened Execution
  import opened Transfer
  import opened FeeFrames

  // ---------------------------------------------------------------------
  // Conflicts
  // ---------------------------------------------------------------------

  /** Whose balance is predicted to change. */
  function Touched(tx: Transaction): set<Address> {
    {tx.signer} + (if tx.sponsor.Some? then {tx.sponsor.value} else {})
    + match tx.action
      case Transfer(to, _) => {to}
      case DistributeReward(rewards) => set i | 0 <= i < |rewards| :: rewards[i].0
      case _ => {}
  }

  function Delegates(tx: Transaction): set<Address> {
    if tx.action.DelegateStake? then {tx.action.validator} else {}
  }

  lemma PredictedBalances(tx: Transaction, a: Address)
    ensures BalanceKey(a) in Predict(tx).writeSet <==> a in Touched(tx)
    ensures AccountKey(a) in Predict(tx).writeSet ==> a in Touched(tx)
    ensures BalanceKey(a) in Predict(tx).readSet <==> a in Touched(tx)
  {
  }

  lemma PredictedOthers(tx: Transaction, k: Key)
    requires k in Predict(tx).writeSet && !k.AccountKey? && !k.BalanceKey?
    ensures tx.action.DelegateStake?
    ensures k == ValidatorKey(tx.action.validator) || k == DelegationKey(tx.signer, tx.action.validator)
  {
  }

  /** Actions whose predicted keys are all modelled. */
  predicate Covered(tx: Transaction) {
    tx.action.Transfer? || tx.action.DelegateStake?
  }

  /**
   * Two transactions conflict when they touch the balance of one account, as signer, sponsor,
   * receiver or rewarded, or delegate to one validator. Transfers and delegations conflict only then.
   */
  lemma ConflictsExactly(a: Transaction, b: Transaction)
    ensures !(Touched(a) !! Touched(b)) || !(Delegates(a) !! Delegates(b)) ==> ConflictsWith(Predict(a), Predict(b))
    ensures Covered(a) && Covered(b) && ConflictsWith(Predict(a), Predict(b)) ==>
              !(Touched(a) !! Touched(b)) || !(Delegates(a) !! Delegates(b))
  {
    var accA, accB := Predict(a), Predict(b);
    IndependentExactly(accA, accB);
    assert accA.Keys() == accA.writeSet && accB.Keys() == accB.writeSet;
    hide Predict, ConflictsWith, Touched;
    if x :| x in Touched(a) && x in Touched(b) {
      PredictedBalances(a, x);
      PredictedBalances(b, x);
      assert BalanceKey(x) in accA.writeSet && BalanceKey(x) in accB.writeSet;
    }
    if v :| v in Delegates(a) && v in Delegates(b) {
      DelegationPredicted(a);
      DelegationPredicted(b);
      assert ValidatorKey(v) in accA.writeSet && ValidatorKey(v) in accB.writeSet;
    }
    if k :| k in accA.writeSet && k in accB.writeSet {
      if k.AccountKey? || k.BalanceKey? {
        PredictedBalances(a, k.owner);
        PredictedBalances(b, k.owner);
      } else {
        PredictedOthers(a, k);
        PredictedOthers(b, k);
      }
    }
  }

  lemma DelegationPredicted(tx: Transaction)
    requires tx.action.DelegateStake?
    ensures ValidatorKey(tx.action.validator) in Predict(tx).writeSet
  {
  }

  // ---------------------------------------------------------------------
  // Transfers that pay no fee
  // ---------------------------------------------------------------------

  /** Nothing to pay, and no session whose counter would be written. */
  predicate Free(cfg: ChainConfig, tx: Transaction) {
    tx.action.Transfer? && Fee(cfg, tx) == 0 && tx.session.None?
  }

  function TransferKeys(tx: Transaction): set<Key> {
    {AccountKey(tx.signer), AccountKey(FeePayer(tx))} + (if tx.action.Transfer? then {AccountKey(tx.action.to)} else {})
  }

  /** A whole transaction as a step of the parallel executor. */
  function TransferOutcome(cfg: ChainConfig, tx: Transaction, height: u64, proposer: Address, s: Store): Outcome {
    var (s', r) := ExecuteTransaction(cfg, TransferHandler, s, tx, height, proposer);
    if r.Rejected? then Outcome(FailureReceipt(tx), map[])
    else Outcome(r.receipt, map k | k in TransferKeys(tx) && k in s' :: Some(s'[k]))
  }

  function TransferStep(cfg: ChainConfig, txs: seq<Transaction>, height: u64, proposer: Address): Step {
    (i: nat, s: Store) => if i < |txs| then TransferOutcome(cfg, txs[i], height, proposer, s)
                          else Outcome(Receipt(false, 0, 0, ZERO_ADDRESS), map[])
  }

  lemma FreeTransferTouches(cfg: ChainConfig, tx: Transaction, height: u64, proposer: Address, s: Store, k: Key)
    requires Free(cfg, tx)
    ensures var (s', r) := ExecuteTransaction(cfg, TransferHandler, s, tx, height, proposer);
            && (r.Rejected? ==> s' == s)
            && (k !in TransferKeys(tx) ==> Lookup(s', k) == Lookup(s, k))
            && (k in s ==> k in s')
  {
    FreeDistribute(cfg, s, proposer);
  }

  /** The recorded writes give the store that the transaction leaves. */
  lemma FreeTransferFaithful(cfg: ChainConfig, tx: Transaction, height: u64, proposer: Address, s: Store)
    requires Free(cfg, tx)
    ensures ApplyWrites(s, TransferOutcome(cfg, tx, height, proposer, s).writes) ==
            ExecuteTransaction(cfg, TransferHandler, s, tx, height, proposer).0
  {
    hide ExecuteTransaction, TransferKeys, Free;
    var w := TransferOutcome(cfg, tx, height, proposer, s).writes;
    var s' := ExecuteTransaction(cfg, TransferHandler, s, tx, height, proposer).0;
    forall k ensures Lookup(ApplyWrites(s, w), k) == Lookup(s', k) {
      FreeTransferTouches(cfg, tx, height, proposer, s, k);
      LookupAfterApply(s, w, k);
    }
    StoreExtensional(ApplyWrites(s, w), s');
  }

  predicate SameParties(tx: Transaction, s: Store, t: Store) {
    && Lookup(s, AccountKey(tx.signer)) == Lookup(t, AccountKey(tx.signer))
    && Lookup(s, AccountKey(FeePayer(tx))) == Lookup(t, AccountKey(FeePayer(tx)))
    && (tx.action.Transfer? ==> Lookup(s, AccountKey(tx.action.to)) == Lookup(t, AccountKey(tx.action.to)))
  }

  lemma FreeTransferReads(cfg: ChainConfig, tx: Transaction, height: u64, proposer: Address, s: Store, t: Store)
    requires Free(cfg, tx) && SameParties(tx, s, t)
    ensures TransferOutcome(cfg, tx, height, proposer, s) == TransferOutcome(cfg, tx, height, proposer, t)
  {
    var (s', r) := ExecuteTransaction(cfg, TransferHandler, s, tx, height, proposer);
    var (t', q) := ExecuteTransaction(cfg, TransferHandler, t, tx, height, proposer);
    FreeTransferSame(cfg, tx, height, proposer, s, t);
    hide ExecuteTransaction;
    forall k | k in TransferKeys(tx) ensures Lookup(s', k) == Lookup(t', k) {
    }
    assert TransferOutcome(cfg, tx, height, proposer, s).writes == TransferOutcome(cfg, tx, height, proposer, t).writes;
  }

  lemma FreeTransferSame(cfg: ChainConfig, tx: Transaction, height: u64, proposer: Address, s: Store, t: Store)
    requires Free(cfg, tx) && SameParties(tx, s, t)
    ensures var (s', r) := ExecuteTransaction(cfg, TransferHandler, s, tx, height, proposer);
            var (t', q) := ExecuteTransaction(cfg, TransferHandler, t, tx, height, proposer);
            && (r.Rejected? <==> q.Rejected?) && (r.Executed? ==> r == q)
            && SameParties(tx, s', t')
  {
    hide Distribute, Fee, MoveFunds;
    var s1, t1 := Charge(s, tx, 0), Charge(t, tx, 0);
    if s1.Ok? {
      FreeDistribute(cfg, s1.value, proposer);
      FreeDistribute(cfg, t1.value, proposer);
      assert SameParties(tx, s1.value, t1.value);
      hide Charge;
      MoveReads(tx, s1.value, t1.value);
    }
  }

  lemma MoveReads(tx: Transaction, s: Store, t: Store)
    requires tx.action.Transfer? && SameParties(tx, s, t)
    ensures var r, q := MoveFunds(s, tx.signer, tx.action.to, tx.action.amount),
                        MoveFunds(t, tx.signer, tx.action.to, tx.action.amount);
            (r.Ok? <==> q.Ok?) && (r.Ok? ==> SameParties(tx, r.value, q.value))
  {
  }

  /** The predicted access set frames the whole execution of such a transfer. */
  lemma FreeTransferFramed(cfg: ChainConfig, txs: seq<Transaction>, height: u64, proposer: Address, i: nat)
    requires i < |txs| && Free(cfg, txs[i])
    ensures FramedStep(TransferStep(cfg, txs, height, proposer), i, Predict(txs[i]))
  {
    var step, tx := TransferStep(cfg, txs, height, proposer), txs[i];
    var acc := Predict(tx);
    assert TransferKeys(tx) <= acc.writeSet;
    hide Predict, ExecuteTransaction, Free;
    forall s ensures step(i, s).writes.Keys <= acc.writeSet {
    }
    forall s, t | AgreeOn(s, t, acc.Keys()) ensures step(i, s) == step(i, t) {
      PartiesAgree(tx, acc, s, t);
      FreeTransferReads(cfg, tx, height, proposer, s, t);
    }
  }

  lemma PartiesAgree(tx: Transaction, acc: AccessSet, s: Store, t: Store)
    requires TransferKeys(tx) <= acc.writeSet && AgreeOn(s, t, acc.Keys())
    ensures SameParties(tx, s, t)
  {
  }

  /**
   * A block of transfers that pay no fee, executed in parallel in batches that keep the order of
   * conflicting transactions, ends as the same block executed one by one.
   */
  lemma FreeTransfersInParallel(cfg: ChainConfig, txs: seq<Transaction>, height: u64, proposer: Address,
                                access: seq<AccessSet>, batches: Batches, s: Store)
    requires |access| == |txs| && forall i :: 0 <= i < |txs| ==> Free(cfg, txs[i]) && access[i] == Predict(txs[i])
    requires FirstFit(batches, access, |access|) && KeepsConflictOrder(batches, access)
    ensures var step := TransferStep(cfg, txs, height, proposer);
            RunBatches(step, batches, s) == RunSeq(step, BlockOrder(|txs|), s)
  {
    hide FirstFit, KeepsConflictOrder, Predict, Free;
    var step := TransferStep(cfg, txs, height, proposer);
    forall i | 0 <= i < |access| ensures FramedStep(step, i, access[i]) {
      FreeTransferFramed(cfg, txs, height, proposer, i);
    }
    OrderedScheduleIsBlockOrder(step, access, batches, s);
  }
}

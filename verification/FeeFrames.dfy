/**
 * The fee phase against the predicted access sets (`access_set.rs`): which transactions the parallel
 * executor may treat as framed, and what happens to the fee counters of a batch otherwise.
 */
module FeeFrames {
  import opened Basics
  import opened State
  import opened AccessSets
  import opened Serial
  import opened Schedule
  import opened Parallel
  import opened Ledger
  import opened Execution

  function Purse(a: Address): set<Key> {
    {AccountKey(a), BalanceKey(a)}
  }

  function ActionKeys(tx: Transaction): set<Key> {
    match tx.action
    case Transfer(to, _) => Purse(to)
    case DelegateStake(validator, _) => {ValidatorKey(validator), DelegationKey(tx.signer, validator)}
    case DistributeReward(rewards) => set i | 0 <= i < |rewards| :: BalanceKey(rewards[i].0)
    case _ => {}
  }

  /** `predict_access_set` for the actions whose fields are modelled: every key is read and written. */
  function Predict(tx: Transaction): AccessSet {
    var keys := Purse(tx.signer) + (if tx.sponsor.Some? then Purse(tx.sponsor.value) else {}) + ActionKeys(tx);
    AccessSet(keys, keys)
  }

  /** What holds of the predicted access set of every action: signer and payer are in it, the supply record is not. */
  predicate Predicts(acc: AccessSet, tx: Transaction) {
    && AccountKey(tx.signer) in acc.writeSet && AccountKey(FeePayer(tx)) in acc.writeSet
    && SupplyKey !in acc.Keys()
  }

  lemma PredictPredicts(tx: Transaction)
    ensures Predicts(Predict(tx), tx)
  {
  }

  ghost predicate AllPredicted(access: seq<AccessSet>, txs: seq<Transaction>) {
    |access| == |txs| && forall i :: 0 <= i < |txs| ==> Predicts(access[i], txs[i])
  }

  /** The keys that the fee phase puts into the overlay. */
  function FeeKeys(cfg: ChainConfig, tx: Transaction, proposer: Address): set<Key> {
    var fee := Fee(cfg, tx);
    {AccountKey(tx.signer), AccountKey(FeePayer(tx))}
    + (if TreasuryShare(cfg, fee) > 0 then {AccountKey(cfg.treasury)} else {})
    + (if ProposerShare(cfg, fee) > 0 then {AccountKey(proposer)} else {})
    + (if fee > 0 then {SupplyKey} else {})
  }

  function FeeOutcome(cfg: ChainConfig, tx: Transaction, proposer: Address, s: Store): Outcome {
    var r := FeePhase(cfg, s, tx, proposer);
    if r.Err? then Outcome(FailureReceipt(tx), map[])
    else Outcome(Receipt(true, Fee(cfg, tx), TotalGas(cfg, tx), FeePayer(tx)),
                 map k | k in FeeKeys(cfg, tx, proposer) && k in r.value :: Some(r.value[k]))
  }

  /** The fee phases of a block as a step of the parallel executor. */
  function FeeStep(cfg: ChainConfig, txs: seq<Transaction>, proposer: Address): Step {
    (i: nat, s: Store) => if i < |txs| then FeeOutcome(cfg, txs[i], proposer, s)
                          else Outcome(Receipt(false, 0, 0, ZERO_ADDRESS), map[])
  }

  // ---------------------------------------------------------------------
  // The writes are those of the fee phase
  // ---------------------------------------------------------------------

  lemma FeePhaseTouches(cfg: ChainConfig, s: Store, tx: Transaction, proposer: Address, k: Key)
    requires FeePhase(cfg, s, tx, proposer).Ok?
    ensures var s' := FeePhase(cfg, s, tx, proposer).value;
            if k in FeeKeys(cfg, tx, proposer) then k in s' else Lookup(s', k) == Lookup(s, k)
  {
  }

  /** Applying the recorded writes gives the store the fee phase leaves. */
  lemma WritesFaithful(cfg: ChainConfig, s: Store, tx: Transaction, proposer: Address)
    requires FeePhase(cfg, s, tx, proposer).Ok?
    ensures ApplyWrites(s, FeeOutcome(cfg, tx, proposer, s).writes) == FeePhase(cfg, s, tx, proposer).value
  {
    hide FeePhase, FeeKeys;
    var w, s' := FeeOutcome(cfg, tx, proposer, s).writes, FeePhase(cfg, s, tx, proposer).value;
    forall k ensures Lookup(ApplyWrites(s, w), k) == Lookup(s', k) {
      FeePhaseTouches(cfg, s, tx, proposer, k);
      LookupAfterApply(s, w, k);
    }
    StoreExtensional(ApplyWrites(s, w), s');
  }

  // ---------------------------------------------------------------------
  // When the prediction frames the fee phase
  // ---------------------------------------------------------------------

  /** With no fee to take, the fee phase only looks at the accounts of signer and payer. */
  lemma FreeIsFramed(cfg: ChainConfig, txs: seq<Transaction>, proposer: Address, i: nat, acc: AccessSet)
    requires i < |txs| && Predicts(acc, txs[i]) && (Fee(cfg, txs[i]) == 0 || txs[i].maxFee < Fee(cfg, txs[i]))
    ensures FramedStep(FeeStep(cfg, txs, proposer), i, acc)
  {
    var step, tx := FeeStep(cfg, txs, proposer), txs[i];
    forall s ensures step(i, s).writes.Keys <= acc.writeSet {
    }
    forall s, t | AgreeOn(s, t, acc.Keys()) ensures step(i, s) == step(i, t) {
      FreeReadsAccounts(cfg, tx, proposer, s, t, acc);
    }
  }

  lemma FreeReadsAccounts(cfg: ChainConfig, tx: Transaction, proposer: Address, s: Store, t: Store, acc: AccessSet)
    requires Fee(cfg, tx) == 0 || tx.maxFee < Fee(cfg, tx)
    requires Predicts(acc, tx) && AgreeOn(s, t, acc.Keys())
    ensures FeeOutcome(cfg, tx, proposer, s) == FeeOutcome(cfg, tx, proposer, t)
  {
    assert Lookup(s, AccountKey(tx.signer)) == Lookup(t, AccountKey(tx.signer));
    assert Lookup(s, AccountKey(FeePayer(tx))) == Lookup(t, AccountKey(FeePayer(tx)));
    assert GetAccount(s, tx.signer) == GetAccount(t, tx.signer);
    assert GetAccount(s, FeePayer(tx)) == GetAccount(t, FeePayer(tx));
    assert FeeOutcome(cfg, tx, proposer, s).writes == FeeOutcome(cfg, tx, proposer, t).writes;
  }

  /** A store in which signer and payer can pay anything. */
  function Rich(tx: Transaction): Store {
    map[AccountKey(tx.signer) := AccountValue(AccountState(0, U64_MAX)),
        AccountKey(FeePayer(tx)) := AccountValue(AccountState(0, U64_MAX))]
  }

  /**
   * A prediction frames the fee phase of a transaction exactly when no fee is ever taken: the supply
   * record, which every paid fee rewrites, is in no predicted set.
   */
  lemma FramedExactly(cfg: ChainConfig, txs: seq<Transaction>, proposer: Address, i: nat, acc: AccessSet)
    requires i < |txs| && Predicts(acc, txs[i])
    ensures FramedStep(FeeStep(cfg, txs, proposer), i, acc)
            <==> (Fee(cfg, txs[i]) == 0 || txs[i].maxFee < Fee(cfg, txs[i]))
  {
    var step, tx := FeeStep(cfg, txs, proposer), txs[i];
    if Fee(cfg, tx) == 0 || tx.maxFee < Fee(cfg, tx) {
      FreeIsFramed(cfg, txs, proposer, i, acc);
    } else {
      hide Distribute;
      var s := Rich(tx);
      assert FeePhase(cfg, s, tx, proposer).Ok?;
      FeePhaseTouches(cfg, s, tx, proposer, SupplyKey);
      assert SupplyKey in step(i, s).writes.Keys && SupplyKey !in acc.writeSet;
    }
  }

  // ---------------------------------------------------------------------
  // First-fit on transfers
  // ---------------------------------------------------------------------

  predicate SendsTo(tx: Transaction, a: Address, b: Address) {
    tx.signer == a && tx.sponsor.None? && tx.action.Transfer? && tx.action.to == b
  }

  /**
   * First-fit does invert: of three transfers A to C, A to B and B to D the third slips in front of
   * the second, although both touch the account of B.
   */
  lemma FirstFitCanInvert(txs: seq<Transaction>, a: Address, b: Address, c: Address, d: Address)
    requires |txs| == 3 && a != b && a != d && c != b && c != d
    requires SendsTo(txs[0], a, c) && SendsTo(txs[1], a, b) && SendsTo(txs[2], b, d)
    ensures var access := [Predict(txs[0]), Predict(txs[1]), Predict(txs[2])];
            FirstFit([[0, 2], [1]], access, 3) && !KeepsConflictOrder([[0, 2], [1]], access)
  {
    var access, batches: Batches := [Predict(txs[0]), Predict(txs[1]), Predict(txs[2])], [[0, 2], [1]];
    assert AccountKey(a) in access[0].writeSet && AccountKey(a) in access[1].writeSet;
    assert AccountKey(b) in access[1].writeSet && AccountKey(b) in access[2].writeSet;
    assert access[0].Keys() == Purse(a) + Purse(c) && access[2].Keys() == Purse(b) + Purse(d);
    IndependentExactly(access[0], access[2]);
    ConflictSymmetric(access[0], access[2]);
    hide Predict, ConflictsWith;
    assert Conflict(access, 0, 1) && Conflict(access, 1, 2) && !Conflict(access, 0, 2) && !Conflict(access, 2, 0) by {
      TouchingConflicts(access[0], access[1], AccountKey(a));
      TouchingConflicts(access[1], access[2], AccountKey(b));
    }
    assert InBatch(batches, 0, 0) && InBatch(batches, 0, 2) && InBatch(batches, 1, 1);
    hide Conflict;
    assert forall i :: 0 <= i < 3 ==> Placed(batches, i);
    assert Blocked(batches, access, 0, 1);
    assert Inverted(batches, access, 1, 2);
  }

  lemma TouchingConflicts(a: AccessSet, b: AccessSet, k: Key)
    requires k in a.writeSet && k in b.writeSet
    ensures ConflictsWith(a, b)
  {
  }

  // ---------------------------------------------------------------------
  // Sums over a batch
  // ---------------------------------------------------------------------

  function SumBy(f: nat -> nat, order: seq<nat>): nat {
    if order == [] then 0 else f(order[0]) + SumBy(f, order[1..])
  }

  /** The last value above zero, or zero. */
  function LastBy(f: nat -> nat, order: seq<nat>): nat {
    if order == [] then 0 else if LastBy(f, order[1..]) > 0 then LastBy(f, order[1..]) else f(order[0])
  }

  function CountBy(f: nat -> nat, order: seq<nat>): nat {
    if order == [] then 0 else (if f(order[0]) > 0 then 1 else 0) + CountBy(f, order[1..])
  }

  /** The last value is the sum exactly when at most one is above zero. */
  lemma {:induction false} LastIsSumExactly(f: nat -> nat, order: seq<nat>)
    ensures LastBy(f, order) <= SumBy(f, order)
    ensures LastBy(f, order) == SumBy(f, order) <==> CountBy(f, order) <= 1
    ensures CountBy(f, order) == 0 <==> LastBy(f, order) == 0
    ensures CountBy(f, order) == 0 <==> SumBy(f, order) == 0
  {
    if order == [] {
    } else {
      LastIsSumExactly(f, order[1..]);
    }
  }

  // ---------------------------------------------------------------------
  // The fee counter of one batch
  // ---------------------------------------------------------------------

  function FeeAt(cfg: ChainConfig, txs: seq<Transaction>, i: nat): nat {
    if i < |txs| then Fee(cfg, txs[i]) else 0
  }

  /** The fee a transaction pays against a store, zero if it is turned away. */
  function PaidAt(cfg: ChainConfig, txs: seq<Transaction>, proposer: Address, s: Store, i: nat): nat {
    if i < |txs| && FeePhase(cfg, s, txs[i], proposer).Ok? then Fee(cfg, txs[i]) else 0
  }

  function FeesIn(cfg: ChainConfig, txs: seq<Transaction>, order: seq<nat>): nat {
    SumBy(i => FeeAt(cfg, txs, i), order)
  }

  /** The last fee above zero that a batch pays against its base. */
  function LastPaid(cfg: ChainConfig, txs: seq<Transaction>, proposer: Address, order: seq<nat>, base: Store): nat {
    LastBy(i => PaidAt(cfg, txs, proposer, base, i), order)
  }

  /** The fees paid one after another, each against the store the one before left. */
  function PaidInTurn(cfg: ChainConfig, txs: seq<Transaction>, proposer: Address, order: seq<nat>, s: Store): seq<nat>
    decreases |order|
  {
    if order == [] then []
    else
      var s1 := ApplyWrites(s, FeeStep(cfg, txs, proposer)(order[0], s).writes);
      [PaidAt(cfg, txs, proposer, s, order[0])] + PaidInTurn(cfg, txs, proposer, order[1..], s1)
  }

  function Sum(xs: seq<nat>): nat {
    if xs == [] then 0 else xs[0] + Sum(xs[1..])
  }

  function Positive(xs: seq<nat>): nat {
    if xs == [] then 0 else (if xs[0] > 0 then 1 else 0) + Positive(xs[1..])
  }

  lemma {:induction false} SumPositive(xs: seq<nat>)
    ensures Sum(xs) == 0 <==> Positive(xs) == 0
  {
    if xs == [] {
    } else {
      SumPositive(xs[1..]);
    }
  }

  lemma SumCons(x: nat, xs: seq<nat>)
    ensures Sum([x] + xs) == x + Sum(xs) && Positive([x] + xs) == (if x > 0 then 1 else 0) + Positive(xs)
  {
  }

  /** What one fee phase does to the counters, in its own store or flushed over another. */
  lemma PaidFee(cfg: ChainConfig, txs: seq<Transaction>, proposer: Address, i: nat, base: Store, s: Store, amount: nat)
    requires ValidSplit(cfg) && i < |txs| && RoomFor(base, FeeAt(cfg, txs, i) + amount)
    ensures var s' := ApplyWrites(s, FeeStep(cfg, txs, proposer)(i, base).writes);
            FeesCollected(s') == if PaidAt(cfg, txs, proposer, base, i) == 0 then FeesCollected(s)
                                 else FeesCollected(base) + PaidAt(cfg, txs, proposer, base, i)
    ensures s == base ==> RoomFor(ApplyWrites(s, FeeStep(cfg, txs, proposer)(i, base).writes), amount)
  {
    hide FeePhase;
    var tx, w := txs[i], FeeStep(cfg, txs, proposer)(i, base).writes;
    LookupAfterApply(s, w, SupplyKey);
    if FeePhase(cfg, base, tx, proposer).Ok? {
      SharesAddUp(cfg, Fee(cfg, tx));
      FeeCounters(cfg, base, tx, proposer);
      TreasuryCounter(cfg, base, tx, proposer);
      FeePhaseTouches(cfg, base, tx, proposer, SupplyKey);
    }
  }

  /** A flushed batch counts one fee: the last one above zero that is paid against the base. */
  lemma {:induction false} FlushCountsLast(cfg: ChainConfig, txs: seq<Transaction>, order: seq<nat>, proposer: Address,
                                           base: Store, s: Store)
    requires ValidSplit(cfg) && Indices(order, |txs|) && RoomFor(base, FeesIn(cfg, txs, order))
    ensures var s' := FlushBatch(FeeStep(cfg, txs, proposer), order, base, s).store;
            var last := LastPaid(cfg, txs, proposer, order, base);
            FeesCollected(s') == if last == 0 then FeesCollected(s) else FeesCollected(base) + last
    decreases |order|
  {
    hide FeePhase, FeeOutcome, FeesCollected, PaidAt, FeeAt;
    if order == [] {
    } else {
      var s1 := ApplyWrites(s, FeeStep(cfg, txs, proposer)(order[0], base).writes);
      PaidFee(cfg, txs, proposer, order[0], base, s, FeesIn(cfg, txs, order[1..]));
      FlushCountsLast(cfg, txs, order[1..], proposer, base, s1);
    }
  }

  /** Run one after another, the same transactions count every fee paid in turn. */
  lemma {:induction false} RunCountsAll(cfg: ChainConfig, txs: seq<Transaction>, order: seq<nat>, proposer: Address,
                                        s: Store)
    requires ValidSplit(cfg) && Indices(order, |txs|) && RoomFor(s, FeesIn(cfg, txs, order))
    ensures FeesCollected(RunSeq(FeeStep(cfg, txs, proposer), order, s).store)
            == FeesCollected(s) + Sum(PaidInTurn(cfg, txs, proposer, order, s))
    decreases |order|
  {
    hide FeePhase, FeeOutcome, FeesCollected, PaidAt, FeeAt, RoomFor;
    if order == [] {
    } else {
      var s1 := ApplyWrites(s, FeeStep(cfg, txs, proposer)(order[0], s).writes);
      PaidFee(cfg, txs, proposer, order[0], s, s, FeesIn(cfg, txs, order[1..]));
      RunCountsAll(cfg, txs, order[1..], proposer, s1);
      SumCons(PaidAt(cfg, txs, proposer, s, order[0]), PaidInTurn(cfg, txs, proposer, order[1..], s1));
    }
  }

  // ---------------------------------------------------------------------
  // Base against turn
  // ---------------------------------------------------------------------

  predicate Involved(tx: Transaction, a: Address) {
    a == tx.signer || a == FeePayer(tx)
  }

  /** Accounts of the transaction exist in the second store if in the first, with no less in them. */
  ghost predicate NotPoorer(s: Store, t: Store, tx: Transaction) {
    forall a :: Involved(tx, a) && GetAccount(s, a).Some? ==>
      GetAccount(t, a).Some? && BalanceOf(s, a) <= BalanceOf(t, a)
  }

  ghost predicate SameAccounts(s: Store, t: Store, tx: Transaction) {
    forall a :: Involved(tx, a) ==> GetAccount(s, a) == GetAccount(t, a)
  }

  lemma PaysIfNotPoorer(cfg: ChainConfig, s: Store, t: Store, tx: Transaction, proposer: Address)
    ensures NotPoorer(s, t, tx) && FeePhase(cfg, s, tx, proposer).Ok? ==> FeePhase(cfg, t, tx, proposer).Ok?
    ensures SameAccounts(s, t, tx) ==> (FeePhase(cfg, s, tx, proposer).Ok? <==> FeePhase(cfg, t, tx, proposer).Ok?)
  {
    hide Distribute;
    assert Involved(tx, tx.signer) && Involved(tx, FeePayer(tx));
  }

  /** Nobody is involved in both. */
  ghost predicate Apart(tx: Transaction, other: Transaction) {
    forall a :: !(Involved(tx, a) && Involved(other, a))
  }

  lemma NoConflictApart(a: Transaction, b: Transaction, accA: AccessSet, accB: AccessSet)
    requires Predicts(accA, a) && Predicts(accB, b) && !ConflictsWith(accA, accB)
    ensures Apart(a, b)
  {
    IndependentExactly(accA, accB);
    forall x ensures !(Involved(a, x) && Involved(b, x)) {
      assert Involved(a, x) ==> AccountKey(x) in accA.writeSet;
      assert Involved(b, x) ==> AccountKey(x) in accB.writeSet;
    }
  }

  /** A step leaves transactions apart from it no poorer, and their accounts as they were if it pays nothing. */
  lemma StepSpares(cfg: ChainConfig, txs: seq<Transaction>, proposer: Address, i: nat, base: Store, t: Store,
                   tx: Transaction)
    requires i < |txs| && Apart(txs[i], tx)
    ensures var t1 := ApplyWrites(t, FeeStep(cfg, txs, proposer)(i, t).writes);
            && (NotPoorer(base, t, tx) ==> NotPoorer(base, t1, tx))
            && (SameAccounts(base, t, tx) && PaidAt(cfg, txs, proposer, t, i) == 0 ==> SameAccounts(base, t1, tx))
  {
    var t1 := ApplyWrites(t, FeeStep(cfg, txs, proposer)(i, t).writes);
    if FeePhase(cfg, t, txs[i], proposer).Ok? {
      WritesFaithful(cfg, t, txs[i], proposer);
      forall a | Involved(tx, a)
        ensures GetAccount(t, a).Some? ==> GetAccount(t1, a).Some? && BalanceOf(t, a) <= BalanceOf(t1, a)
        ensures Fee(cfg, txs[i]) == 0 ==> GetAccount(t1, a) == GetAccount(t, a)
      {
        UninvolvedSpared(cfg, t, txs[i], proposer, a);
      }
    } else {
      assert t1 == t by { NoWrites(t); }
    }
  }

  lemma NoWrites(t: Store)
    ensures ApplyWrites(t, map[]) == t
  {
  }

  lemma UninvolvedSpared(cfg: ChainConfig, s: Store, tx: Transaction, proposer: Address, a: Address)
    requires FeePhase(cfg, s, tx, proposer).Ok? && !Involved(tx, a)
    ensures var s' := FeePhase(cfg, s, tx, proposer).value;
            && (GetAccount(s, a).Some? ==> GetAccount(s', a).Some? && BalanceOf(s, a) <= BalanceOf(s', a))
            && (Fee(cfg, tx) == 0 ==> GetAccount(s', a) == GetAccount(s, a))
  {
    hide Distribute;
    if GetAccount(s, a).Some? {
      FeePhaseNonces(cfg, s, tx, proposer, a);
    }
    FreeDistribute(cfg, Charge(s, tx, Fee(cfg, tx)).value, proposer);
  }

  lemma FreeDistribute(cfg: ChainConfig, s: Store, proposer: Address)
    ensures Distribute(cfg, s, 0, proposer) == s
  {
  }

  /** The members of a batch are pairwise apart. */
  ghost predicate PairwiseApart(txs: seq<Transaction>, order: seq<nat>) {
    Indices(order, |txs|) && forall k, l :: 0 <= k < l < |order| ==> Apart(txs[order[k]], txs[order[l]])
  }

  lemma IndependentApart(txs: seq<Transaction>, access: seq<AccessSet>, order: seq<nat>)
    requires AllPredicted(access, txs) && Indices(order, |txs|) && Independent(order, access)
    ensures PairwiseApart(txs, order)
  {
    hide Predicts, Apart;
    forall k, l | 0 <= k < l < |order| ensures Apart(txs[order[k]], txs[order[l]]) {
      assert !Conflict(access, order[k], order[l]);
      NoConflictApart(txs[order[k]], txs[order[l]], access[order[k]], access[order[l]]);
    }
  }

  lemma TailApart(txs: seq<Transaction>, order: seq<nat>)
    requires order != [] && PairwiseApart(txs, order)
    ensures PairwiseApart(txs, order[1..])
    ensures forall k :: 0 <= k < |order[1..]| ==> Apart(txs[order[0]], txs[order[1..][k]])
  {
    hide Apart;
  }

  ghost predicate NonePoorer(base: Store, t: Store, txs: seq<Transaction>, order: seq<nat>)
    requires Indices(order, |txs|)
  {
    forall k :: 0 <= k < |order| ==> NotPoorer(base, t, txs[order[k]])
  }

  ghost predicate AllSame(base: Store, t: Store, txs: seq<Transaction>, order: seq<nat>)
    requires Indices(order, |txs|)
  {
    forall k :: 0 <= k < |order| ==> SameAccounts(base, t, txs[order[k]])
  }

  lemma HeadStep(cfg: ChainConfig, txs: seq<Transaction>, proposer: Address, order: seq<nat>, base: Store, t: Store)
    requires order != [] && PairwiseApart(txs, order)
    ensures var t1 := ApplyWrites(t, FeeStep(cfg, txs, proposer)(order[0], t).writes);
            && PairwiseApart(txs, order[1..])
            && (NonePoorer(base, t, txs, order) ==> NonePoorer(base, t1, txs, order[1..]))
            && (AllSame(base, t, txs, order) && PaidAt(cfg, txs, proposer, t, order[0]) == 0 ==>
                  AllSame(base, t1, txs, order[1..]))
  {
    hide NotPoorer, SameAccounts, Apart, FeeOutcome;
    TailApart(txs, order);
    var rest := order[1..];
    forall k | 0 <= k < |rest|
      ensures var t1 := ApplyWrites(t, FeeStep(cfg, txs, proposer)(order[0], t).writes);
              && (NotPoorer(base, t, txs[rest[k]]) ==> NotPoorer(base, t1, txs[rest[k]]))
              && (SameAccounts(base, t, txs[rest[k]]) && PaidAt(cfg, txs, proposer, t, order[0]) == 0 ==>
                    SameAccounts(base, t1, txs[rest[k]]))
    {
      StepSpares(cfg, txs, proposer, order[0], base, t, txs[rest[k]]);
    }
    assert forall k :: 0 <= k < |rest| ==> rest[k] == order[k + 1];
  }

  /** Who pays against the base pays in turn. */
  lemma {:induction false} TurnPaysMore(cfg: ChainConfig, txs: seq<Transaction>, proposer: Address, order: seq<nat>,
                                        base: Store, t: Store)
    requires PairwiseApart(txs, order) && NonePoorer(base, t, txs, order)
    ensures LastPaid(cfg, txs, proposer, order, base) <= Sum(PaidInTurn(cfg, txs, proposer, order, t))
    decreases |order|
  {
    hide FeePhase, FeeOutcome, NotPoorer, Apart;
    if order == [] {
    } else {
      var t1 := ApplyWrites(t, FeeStep(cfg, txs, proposer)(order[0], t).writes);
      HeadStep(cfg, txs, proposer, order, base, t);
      PaysIfNotPoorer(cfg, base, t, txs[order[0]], proposer);
      TurnPaysMore(cfg, txs, proposer, order[1..], base, t1);
      SumCons(PaidAt(cfg, txs, proposer, t, order[0]), PaidInTurn(cfg, txs, proposer, order[1..], t1));
    }
  }

  lemma {:induction false} LastIsTurnExactly(cfg: ChainConfig, txs: seq<Transaction>, proposer: Address,
                                             order: seq<nat>,
                                             base: Store, t: Store)
    requires PairwiseApart(txs, order) && AllSame(base, t, txs, order) && NonePoorer(base, t, txs, order)
    ensures LastPaid(cfg, txs, proposer, order, base) == Sum(PaidInTurn(cfg, txs, proposer, order, t))
            <==> Positive(PaidInTurn(cfg, txs, proposer, order, t)) <= 1
    decreases |order|
  {
    hide FeePhase, FeeOutcome, NotPoorer, SameAccounts, Apart;
    if order == [] {
    } else {
      var i, rest := order[0], order[1..];
      var t1 := ApplyWrites(t, FeeStep(cfg, txs, proposer)(i, t).writes);
      HeadStep(cfg, txs, proposer, order, base, t);
      PaysIfNotPoorer(cfg, base, t, txs[i], proposer);
      var later := PaidInTurn(cfg, txs, proposer, rest, t1);
      SumCons(PaidAt(cfg, txs, proposer, t, i), later);
      SumPositive(later);
      TurnPaysMore(cfg, txs, proposer, rest, base, t1);
      if PaidAt(cfg, txs, proposer, t, i) == 0 {
        LastIsTurnExactly(cfg, txs, proposer, rest, base, t1);
      }
    }
  }

  /**
   * One batch of transactions that the scheduler runs side by side: its flush never counts more fees
   * than running them one by one, and counts the same exactly when at most one of them then pays.
   */
  lemma BatchCountsFeesExactly(cfg: ChainConfig, txs: seq<Transaction>, access: seq<AccessSet>, order: seq<nat>,
                               proposer: Address, s: Store)
    requires ValidSplit(cfg) && AllPredicted(access, txs) && Indices(order, |txs|) && Independent(order, access)
    requires RoomFor(s, FeesIn(cfg, txs, order))
    ensures var flushed := FlushBatch(FeeStep(cfg, txs, proposer), order, s, s).store;
            var serial := RunSeq(FeeStep(cfg, txs, proposer), order, s).store;
            && FeesCollected(flushed) <= FeesCollected(serial)
            && (FeesCollected(flushed) == FeesCollected(serial)
                <==> Positive(PaidInTurn(cfg, txs, proposer, order, s)) <= 1)
  {
    hide FlushBatch, RunSeq, FeesCollected, RoomFor, LastPaid, PaidInTurn, FeesIn;
    IndependentApart(txs, access, order);
    FlushCountsLast(cfg, txs, order, proposer, s, s);
    RunCountsAll(cfg, txs, order, proposer, s);
    TurnPaysMore(cfg, txs, proposer, order, s, s);
    LastIsTurnExactly(cfg, txs, proposer, order, s, s);
  }
}

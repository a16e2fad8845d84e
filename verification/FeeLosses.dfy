/** What a batch of paying transactions does to balances and supply, flushed and run one by one. */
module FeeLosses {
  import opened Basics
  import opened State
  import opened AccessSets
  import opened Serial
  import opened Parallel
  import opened Actions
  import opened Ledger
  import opened Execution
  import opened Conservation
  import opened FeeFrames

  // ---------------------------------------------------------------------
  // One account
  // ---------------------------------------------------------------------

  /** What a fee phase adds to the balance of an account, below zero for the payer. */
  function Delta(cfg: ChainConfig, tx: Transaction, proposer: Address, a: Address): int {
    Gain(cfg, Fee(cfg, tx), proposer, a) - (if a == FeePayer(tx) then Fee(cfg, tx) else 0)
  }

  /** Whether a fee phase writes the account at all. */
  predicate Writes(cfg: ChainConfig, tx: Transaction, proposer: Address, a: Address) {
    Involved(tx, a) || Gain(cfg, Fee(cfg, tx), proposer, a) > 0
  }

  lemma WritesAreKeys(cfg: ChainConfig, tx: Transaction, proposer: Address, a: Address)
    ensures Writes(cfg, tx, proposer, a) <==> AccountKey(a) in FeeKeys(cfg, tx, proposer)
  {
  }

  lemma ChargeBalance(s: Store, tx: Transaction, fee: u64, a: Address)
    requires Charge(s, tx, fee).Ok?
    ensures var s' := Charge(s, tx, fee).value;
            && BalanceOf(s', a) == BalanceOf(s, a) - (if a == FeePayer(tx) then fee else 0)
            && (GetAccount(s', a).Some? <==> GetAccount(s, a).Some?)
            && (Involved(tx, a) ==> GetAccount(s, a).Some?)
  {
  }

  lemma DistributeAccounts(cfg: ChainConfig, s: Store, fee: u64, proposer: Address, a: Address)
    ensures GetAccount(Distribute(cfg, s, fee, proposer), a).Some?
            <==> GetAccount(s, a).Some? || Gain(cfg, fee, proposer, a) > 0
  {
  }

  /** While the supply covers the balances, nothing saturates and each account moves by its delta. */
  lemma FeePhaseAccount(cfg: ChainConfig, s: Store, tx: Transaction, proposer: Address, a: Address)
    requires ValidSplit(cfg) && Covered(s) && FeePhase(cfg, s, tx, proposer).Ok?
    ensures var s' := FeePhase(cfg, s, tx, proposer).value;
            && BalanceOf(s', a) == BalanceOf(s, a) + Delta(cfg, tx, proposer, a)
            && (GetAccount(s', a).Some? <==> GetAccount(s, a).Some? || Writes(cfg, tx, proposer, a))
  {
    hide Total, Distribute, Charge;
    var fee := Fee(cfg, tx);
    var charged := Charge(s, tx, fee).value;
    ChargeTakesFee(s, tx, fee);
    ChargeBalance(s, tx, fee, a);
    TotalAfterSet(charged, a, AccountState(0, 0));
    SharesAddUp(cfg, fee);
    DistributeBalance(cfg, charged, fee, proposer, a);
    DistributeAccounts(cfg, charged, fee, proposer, a);
  }

  // ---------------------------------------------------------------------
  // A batch
  // ---------------------------------------------------------------------

  /** Every fee phase of the batch succeeds against the store. */
  ghost predicate AllPay(cfg: ChainConfig, txs: seq<Transaction>, order: seq<nat>, proposer: Address, s: Store) {
    Indices(order, |txs|) && forall k :: 0 <= k < |order| ==> FeePhase(cfg, s, txs[order[k]], proposer).Ok?
  }

  /** The transactions of a batch whose fee phase succeeds against the base, in order. */
  function Paying(cfg: ChainConfig, txs: seq<Transaction>, order: seq<nat>, proposer: Address, base: Store): seq<nat>
    requires Indices(order, |txs|)
  {
    if order == [] then []
    else (if FeePhase(cfg, base, txs[order[0]], proposer).Ok? then [order[0]] else [])
         + Paying(cfg, txs, order[1..], proposer, base)
  }

  lemma {:induction false} PayingIn(cfg: ChainConfig, txs: seq<Transaction>, order: seq<nat>, proposer: Address,
                                    base: Store)
    requires Indices(order, |txs|)
    ensures var paying := Paying(cfg, txs, order, proposer, base);
            && AllPay(cfg, txs, paying, proposer, base)
            && forall k :: 0 <= k < |paying| ==> paying[k] in order
  {
    hide FeePhase;
    if order == [] {
    } else {
      PayingIn(cfg, txs, order[1..], proposer, base);
    }
  }

  lemma ConsApart(txs: seq<Transaction>, i: nat, rest: seq<nat>)
    requires i < |txs| && PairwiseApart(txs, rest) && forall k :: 0 <= k < |rest| ==> Apart(txs[i], txs[rest[k]])
    ensures PairwiseApart(txs, [i] + rest)
  {
    hide Apart;
  }

  lemma {:induction false} PayingPays(cfg: ChainConfig, txs: seq<Transaction>, order: seq<nat>, proposer: Address,
                                      base: Store)
    requires PairwiseApart(txs, order)
    ensures var paying := Paying(cfg, txs, order, proposer, base);
            AllPay(cfg, txs, paying, proposer, base) && PairwiseApart(txs, paying)
  {
    hide FeePhase, Apart, AllPay;
    PayingIn(cfg, txs, order, proposer, base);
    if order == [] {
    } else {
      var rest := Paying(cfg, txs, order[1..], proposer, base);
      TailApart(txs, order);
      PayingPays(cfg, txs, order[1..], proposer, base);
      PayingIn(cfg, txs, order[1..], proposer, base);
      forall k | 0 <= k < |rest| ensures Apart(txs[order[0]], txs[rest[k]]) {
        var l :| 0 <= l < |order[1..]| && order[1..][l] == rest[k];
      }
      hide PairwiseApart;
      ConsApart(txs, order[0], rest);
      assert [] + rest == rest;
    }
  }

  /** Transactions that are turned away write nothing, so a flush is that of those that pay. */
  lemma {:induction false} FlushSkips(cfg: ChainConfig, txs: seq<Transaction>, order: seq<nat>, proposer: Address,
                                      base: Store, s: Store)
    requires Indices(order, |txs|)
    ensures FlushBatch(FeeStep(cfg, txs, proposer), order, base, s).store
            == FlushBatch(FeeStep(cfg, txs, proposer), Paying(cfg, txs, order, proposer, base), base, s).store
    decreases |order|
  {
    hide FeePhase;
    var step := FeeStep(cfg, txs, proposer);
    if order == [] {
    } else {
      var s1 := ApplyWrites(s, step(order[0], base).writes);
      var rest := Paying(cfg, txs, order[1..], proposer, base);
      FlushSkips(cfg, txs, order[1..], proposer, base, s1);
      if FeePhase(cfg, base, txs[order[0]], proposer).Ok? {
        assert ([order[0]] + rest)[1..] == rest;
      } else {
        NoWrites(s);
        assert [] + rest == rest;
      }
    }
  }

  function SumDelta(cfg: ChainConfig, txs: seq<Transaction>, order: seq<nat>, proposer: Address, a: Address): int
    requires Indices(order, |txs|)
  {
    if order == [] then 0
    else Delta(cfg, txs[order[0]], proposer, a) + SumDelta(cfg, txs, order[1..], proposer, a)
  }

  predicate Written(cfg: ChainConfig, txs: seq<Transaction>, order: seq<nat>, proposer: Address, a: Address)
    requires Indices(order, |txs|)
  {
    order != [] && (Writes(cfg, txs[order[0]], proposer, a) || Written(cfg, txs, order[1..], proposer, a))
  }

  /** The delta of the last transaction that writes the account. */
  function LastDelta(cfg: ChainConfig, txs: seq<Transaction>, order: seq<nat>, proposer: Address, a: Address): int
    requires Indices(order, |txs|)
  {
    if order == [] then 0
    else if Written(cfg, txs, order[1..], proposer, a) then LastDelta(cfg, txs, order[1..], proposer, a)
    else if Writes(cfg, txs[order[0]], proposer, a) then Delta(cfg, txs[order[0]], proposer, a)
    else 0
  }

  /** Flushing one fee phase copies the keys it wrote and leaves the others. */
  lemma FlushedKey(cfg: ChainConfig, txs: seq<Transaction>, proposer: Address, i: nat, base: Store, s: Store, k: Key)
    requires i < |txs| && FeePhase(cfg, base, txs[i], proposer).Ok?
    ensures Lookup(ApplyWrites(s, FeeStep(cfg, txs, proposer)(i, base).writes), k)
            == if k in FeeKeys(cfg, txs[i], proposer) then Lookup(FeePhase(cfg, base, txs[i], proposer).value, k)
               else Lookup(s, k)
  {
    hide FeePhase, FeeKeys, ApplyWrites;
    FeePhaseTouches(cfg, base, txs[i], proposer, k);
    LookupAfterApply(s, FeeStep(cfg, txs, proposer)(i, base).writes, k);
  }

  lemma AccountByLookup(s: Store, t: Store, a: Address)
    requires Lookup(s, AccountKey(a)) == Lookup(t, AccountKey(a))
    ensures GetAccount(s, a) == GetAccount(t, a) && BalanceOf(s, a) == BalanceOf(t, a)
  {
  }

  lemma FlushOneAccount(cfg: ChainConfig, txs: seq<Transaction>, proposer: Address, i: nat, base: Store, s: Store,
                        a: Address)
    requires ValidSplit(cfg) && Covered(base) && i < |txs| && FeePhase(cfg, base, txs[i], proposer).Ok?
    ensures var s' := ApplyWrites(s, FeeStep(cfg, txs, proposer)(i, base).writes);
            if Writes(cfg, txs[i], proposer, a)
            then GetAccount(s', a).Some? && BalanceOf(s', a) == BalanceOf(base, a) + Delta(cfg, txs[i], proposer, a)
            else GetAccount(s', a) == GetAccount(s, a)
  {
    hide FeePhase, FeeKeys, ApplyWrites, Writes, Delta, GetAccount, Lookup;
    var s' := ApplyWrites(s, FeeStep(cfg, txs, proposer)(i, base).writes);
    FeePhaseAccount(cfg, base, txs[i], proposer, a);
    WritesAreKeys(cfg, txs[i], proposer, a);
    FlushedKey(cfg, txs, proposer, i, base, s, AccountKey(a));
    AccountByLookup(s', if Writes(cfg, txs[i], proposer, a) then FeePhase(cfg, base, txs[i], proposer).value else s, a);
  }

  /** In a flushed batch of paying transactions the last writer of an account wins. */
  lemma {:induction false} FlushPaying(cfg: ChainConfig, txs: seq<Transaction>, order: seq<nat>, proposer: Address,
                                        base: Store, s: Store, a: Address)
    requires ValidSplit(cfg) && Covered(base) && AllPay(cfg, txs, order, proposer, base)
    ensures var s' := FlushBatch(FeeStep(cfg, txs, proposer), order, base, s).store;
            if Written(cfg, txs, order, proposer, a)
            then && GetAccount(s', a).Some?
                 && BalanceOf(s', a) == BalanceOf(base, a) + LastDelta(cfg, txs, order, proposer, a)
            else GetAccount(s', a) == GetAccount(s, a)
    decreases |order|
  {
    hide FeePhase, FeeOutcome, Covered, Delta, Writes;
    if order == [] {
    } else {
      var s1 := ApplyWrites(s, FeeStep(cfg, txs, proposer)(order[0], base).writes);
      FlushOneAccount(cfg, txs, proposer, order[0], base, s, a);
      assert AllPay(cfg, txs, order[1..], proposer, base);
      FlushPaying(cfg, txs, order[1..], proposer, base, s1, a);
    }
  }

  /** In a flushed batch the last writer of an account among those that pay against the base wins. */
  lemma FlushAccount(cfg: ChainConfig, txs: seq<Transaction>, order: seq<nat>, proposer: Address, s: Store, a: Address)
    requires ValidSplit(cfg) && Covered(s) && PairwiseApart(txs, order)
    ensures var flushed := FlushBatch(FeeStep(cfg, txs, proposer), order, s, s).store;
            var paying := Paying(cfg, txs, order, proposer, s);
            && Indices(paying, |txs|)
            && BalanceOf(flushed, a) == BalanceOf(s, a) + LastDelta(cfg, txs, paying, proposer, a)
            && (GetAccount(flushed, a).Some? <==> GetAccount(s, a).Some? || Written(cfg, txs, paying, proposer, a))
  {
    hide FlushBatch, Covered, Paying, Written, LastDelta;
    PayingPays(cfg, txs, order, proposer, s);
    var paying := Paying(cfg, txs, order, proposer, s);
    FlushSkips(cfg, txs, order, proposer, s, s);
    FlushPaying(cfg, txs, paying, proposer, s, s, a);
    UnwrittenNoDelta(cfg, txs, paying, proposer, a);
  }

  lemma {:induction false} UnwrittenNoDelta(cfg: ChainConfig, txs: seq<Transaction>, order: seq<nat>, proposer: Address,
                                            a: Address)
    requires Indices(order, |txs|)
    ensures !Written(cfg, txs, order, proposer, a) ==> LastDelta(cfg, txs, order, proposer, a) == 0
  {
    hide Delta, Writes;
    if order == [] {
    } else {
      UnwrittenNoDelta(cfg, txs, order[1..], proposer, a);
    }
  }

  lemma AllPayAfter(cfg: ChainConfig, txs: seq<Transaction>, order: seq<nat>, proposer: Address, s: Store)
    requires order != [] && AllPay(cfg, txs, order, proposer, s) && PairwiseApart(txs, order)
    ensures var s1 := FeePhase(cfg, s, txs[order[0]], proposer).value;
            && ApplyWrites(s, FeeStep(cfg, txs, proposer)(order[0], s).writes) == s1
            && AllPay(cfg, txs, order[1..], proposer, s1) && PairwiseApart(txs, order[1..])
  {
    hide FeePhase, NotPoorer, Apart;
    var s1 := FeePhase(cfg, s, txs[order[0]], proposer).value;
    WritesFaithful(cfg, s, txs[order[0]], proposer);
    HeadStep(cfg, txs, proposer, order, s, s);
    assert NonePoorer(s, s, txs, order) by { Reflexive(s, txs, order); }
    forall k | 0 <= k < |order[1..]| ensures FeePhase(cfg, s1, txs[order[1..][k]], proposer).Ok? {
      assert order[1..][k] == order[k + 1];
      PaysIfNotPoorer(cfg, s, s1, txs[order[k + 1]], proposer);
    }
  }

  lemma Reflexive(s: Store, txs: seq<Transaction>, order: seq<nat>)
    requires Indices(order, |txs|)
    ensures NonePoorer(s, s, txs, order)
  {
  }

  lemma CoverAfter(cfg: ChainConfig, s: Store, tx: Transaction, proposer: Address)
    requires ValidSplit(cfg) && Covered(s) && FeePhase(cfg, s, tx, proposer).Ok?
    ensures var s1 := FeePhase(cfg, s, tx, proposer).value;
            Covered(s1) && GetSupply(s1).totalSupply == GetSupply(s).totalSupply - BurnShare(cfg, Fee(cfg, tx))
  {
    hide Total, FeePhase;
    SupplyCoversBalances(cfg, s, tx, proposer);
  }

  /** Paying transactions run one by one move an account by the sum of its deltas. */
  lemma {:induction false} RunPaying(cfg: ChainConfig, txs: seq<Transaction>, order: seq<nat>, proposer: Address,
                                     s: Store, a: Address)
    requires ValidSplit(cfg) && Covered(s) && AllPay(cfg, txs, order, proposer, s) && PairwiseApart(txs, order)
    ensures var s' := RunSeq(FeeStep(cfg, txs, proposer), order, s).store;
            && BalanceOf(s', a) == BalanceOf(s, a) + SumDelta(cfg, txs, order, proposer, a)
            && (GetAccount(s', a).Some? <==> GetAccount(s, a).Some? || Written(cfg, txs, order, proposer, a))
    decreases |order|
  {
    hide FeePhase, FeeOutcome, Covered, Delta, Writes;
    if order == [] {
    } else {
      var s1 := FeePhase(cfg, s, txs[order[0]], proposer).value;
      AllPayAfter(cfg, txs, order, proposer, s);
      FeePhaseAccount(cfg, s, txs[order[0]], proposer, a);
      CoverAfter(cfg, s, txs[order[0]], proposer);
      RunPaying(cfg, txs, order[1..], proposer, s1, a);
    }
  }

  function After(cfg: ChainConfig, txs: seq<Transaction>, proposer: Address, i: nat, s: Store): Store {
    ApplyWrites(s, FeeStep(cfg, txs, proposer)(i, s).writes)
  }

  /** What a batch does to an account when its transactions take turns, each paying if it can by then. */
  function TurnDelta(cfg: ChainConfig, txs: seq<Transaction>, order: seq<nat>, proposer: Address, s: Store,
                     a: Address): int
    requires Indices(order, |txs|)
    decreases |order|
  {
    if order == [] then 0
    else (if FeePhase(cfg, s, txs[order[0]], proposer).Ok? then Delta(cfg, txs[order[0]], proposer, a) else 0)
         + TurnDelta(cfg, txs, order[1..], proposer, After(cfg, txs, proposer, order[0], s), a)
  }

  /** What a batch burns in turn. */
  function TurnBurns(cfg: ChainConfig, txs: seq<Transaction>, order: seq<nat>, proposer: Address, s: Store): nat
    requires Indices(order, |txs|)
    decreases |order|
  {
    if order == [] then 0
    else (if FeePhase(cfg, s, txs[order[0]], proposer).Ok? then BurnShare(cfg, Fee(cfg, txs[order[0]])) else 0)
         + TurnBurns(cfg, txs, order[1..], proposer, After(cfg, txs, proposer, order[0], s))
  }

  /** One turn, whether it pays or not. */
  lemma TurnStep(cfg: ChainConfig, txs: seq<Transaction>, proposer: Address, i: nat, s: Store, a: Address)
    requires ValidSplit(cfg) && Covered(s) && i < |txs|
    ensures var s1, paid := After(cfg, txs, proposer, i, s), FeePhase(cfg, s, txs[i], proposer).Ok?;
            var burned := if paid then BurnShare(cfg, Fee(cfg, txs[i])) else 0;
            && (paid ==> s1 == FeePhase(cfg, s, txs[i], proposer).value) && (!paid ==> s1 == s)
            && BalanceOf(s1, a) == BalanceOf(s, a) + (if paid then Delta(cfg, txs[i], proposer, a) else 0)
            && Covered(s1) && Total(s1) == Total(s) - burned
            && GetSupply(s1).totalSupply == GetSupply(s).totalSupply - burned
  {
    hide FeePhase, Total, Delta;
    if FeePhase(cfg, s, txs[i], proposer).Ok? {
      WritesFaithful(cfg, s, txs[i], proposer);
      FeePhaseAccount(cfg, s, txs[i], proposer, a);
      SupplyCoversBalances(cfg, s, txs[i], proposer);
    } else {
      NoWrites(s);
    }
  }

  /** Run one by one, an account moves by what it pays and gains in turn. */
  lemma {:induction false} RunAccount(cfg: ChainConfig, txs: seq<Transaction>, order: seq<nat>, proposer: Address,
                                      s: Store, a: Address)
    requires ValidSplit(cfg) && Covered(s) && Indices(order, |txs|)
    ensures BalanceOf(RunSeq(FeeStep(cfg, txs, proposer), order, s).store, a)
            == BalanceOf(s, a) + TurnDelta(cfg, txs, order, proposer, s, a)
    decreases |order|
  {
    hide FeePhase, FeeOutcome, Covered, Delta, Total;
    if order == [] {
    } else {
      TurnStep(cfg, txs, proposer, order[0], s, a);
      RunAccount(cfg, txs, order[1..], proposer, After(cfg, txs, proposer, order[0], s), a);
    }
  }

  /** Run one by one, all balances together and the recorded supply drop by what is burned in turn. */
  lemma {:induction false} RunTotals(cfg: ChainConfig, txs: seq<Transaction>, order: seq<nat>, proposer: Address,
                                     s: Store)
    requires ValidSplit(cfg) && Covered(s) && Indices(order, |txs|)
    ensures var serial := RunSeq(FeeStep(cfg, txs, proposer), order, s).store;
            && Total(serial) == Total(s) - TurnBurns(cfg, txs, order, proposer, s)
            && GetSupply(serial).totalSupply == GetSupply(s).totalSupply - TurnBurns(cfg, txs, order, proposer, s)
    decreases |order|
  {
    hide FeePhase, FeeOutcome, Covered, Total;
    if order == [] {
    } else {
      TurnStep(cfg, txs, proposer, order[0], s, ZERO_ADDRESS);
      RunTotals(cfg, txs, order[1..], proposer, After(cfg, txs, proposer, order[0], s));
    }
  }

  /** Paying transactions burn in turn what they burn each by itself. */
  lemma {:induction false} PayingBurns(cfg: ChainConfig, txs: seq<Transaction>, order: seq<nat>, proposer: Address,
                                       s: Store)
    requires AllPay(cfg, txs, order, proposer, s) && PairwiseApart(txs, order)
    ensures TurnBurns(cfg, txs, order, proposer, s) == SumBurns(cfg, txs, order)
    decreases |order|
  {
    hide FeePhase, FeeOutcome, Apart;
    if order == [] {
    } else {
      AllPayAfter(cfg, txs, order, proposer, s);
      PayingBurns(cfg, txs, order[1..], proposer, After(cfg, txs, proposer, order[0], s));
    }
  }

  /** Who pays against the base pays in turn, so no less is burned. */
  lemma {:induction false} TurnBurnsMore(cfg: ChainConfig, txs: seq<Transaction>, order: seq<nat>, proposer: Address,
                                         base: Store, t: Store)
    requires PairwiseApart(txs, order) && NonePoorer(base, t, txs, order)
    ensures Indices(Paying(cfg, txs, order, proposer, base), |txs|)
    ensures SumBurns(cfg, txs, Paying(cfg, txs, order, proposer, base)) <= TurnBurns(cfg, txs, order, proposer, t)
    decreases |order|
  {
    hide FeePhase, FeeOutcome, NotPoorer, Apart, Fee;
    if order == [] {
    } else {
      var rest := Paying(cfg, txs, order[1..], proposer, base);
      HeadStep(cfg, txs, proposer, order, base, t);
      PaysIfNotPoorer(cfg, base, t, txs[order[0]], proposer);
      TurnBurnsMore(cfg, txs, order[1..], proposer, base, After(cfg, txs, proposer, order[0], t));
      assert ([order[0]] + rest)[1..] == rest && [] + rest == rest;
    }
  }

  // ---------------------------------------------------------------------
  // Who loses
  // ---------------------------------------------------------------------

  function GainAt(cfg: ChainConfig, txs: seq<Transaction>, proposer: Address, a: Address, i: nat): nat {
    if i < |txs| then Gain(cfg, Fee(cfg, txs[i]), proposer, a) else 0
  }

  function GainsOf(cfg: ChainConfig, txs: seq<Transaction>, proposer: Address, a: Address): nat -> nat {
    i => GainAt(cfg, txs, proposer, a, i)
  }

  /** Nobody in the batch is signed or paid for by the account. */
  ghost predicate Outside(txs: seq<Transaction>, order: seq<nat>, a: Address)
    requires Indices(order, |txs|)
  {
    forall k :: 0 <= k < |order| ==> !Involved(txs[order[k]], a)
  }

  /**
   * An account outside the batch, such as treasury and proposer, gains every share in turn but only
   * the last when flushed.
   */
  lemma {:induction false} OutsiderDeltas(cfg: ChainConfig, txs: seq<Transaction>, order: seq<nat>, proposer: Address,
                                          a: Address)
    requires Indices(order, |txs|) && Outside(txs, order, a)
    ensures SumDelta(cfg, txs, order, proposer, a) == SumBy(GainsOf(cfg, txs, proposer, a), order)
    ensures LastDelta(cfg, txs, order, proposer, a) == LastBy(GainsOf(cfg, txs, proposer, a), order)
    ensures Written(cfg, txs, order, proposer, a) <==> LastBy(GainsOf(cfg, txs, proposer, a), order) > 0
  {
    hide Gain, Fee;
    if order == [] {
    } else {
      assert !Involved(txs[order[0]], a);
      assert Outside(txs, order[1..], a);
      OutsiderDeltas(cfg, txs, order[1..], proposer, a);
    }
  }

  /** An account that gets no share ends alike either way: at most one transaction of the batch charges it. */
  lemma {:induction false} InsiderDeltas(cfg: ChainConfig, txs: seq<Transaction>, order: seq<nat>, proposer: Address,
                                         a: Address)
    requires PairwiseApart(txs, order) && a != cfg.treasury && a != proposer
    ensures SumDelta(cfg, txs, order, proposer, a) == LastDelta(cfg, txs, order, proposer, a)
    ensures !Written(cfg, txs, order, proposer, a) ==> LastDelta(cfg, txs, order, proposer, a) == 0
    ensures Outside(txs, order, a) ==> !Written(cfg, txs, order, proposer, a)
  {
    hide Fee;
    if order == [] {
    } else {
      var rest := order[1..];
      TailApart(txs, order);
      InsiderDeltas(cfg, txs, rest, proposer, a);
      if Involved(txs[order[0]], a) {
        forall k | 0 <= k < |rest| ensures !Involved(txs[rest[k]], a) {
          assert Apart(txs[order[0]], txs[rest[k]]);
        }
        assert Outside(txs, rest, a);
      } else if Outside(txs, order, a) {
        assert forall k :: 0 <= k < |rest| ==> rest[k] == order[k + 1];
        assert Outside(txs, rest, a);
      }
    }
  }

  // ---------------------------------------------------------------------
  // Totals
  // ---------------------------------------------------------------------

  /** Stores with the same accounts that differ in at most two balances. */
  lemma TotalsDifferBy(s: Store, t: Store, a: Address, b: Address)
    requires forall c :: GetAccount(s, c).Some? <==> GetAccount(t, c).Some?
    requires forall c :: c != a && c != b ==> BalanceOf(s, c) == BalanceOf(t, c)
    ensures Total(s) - Total(t) == BalanceOf(s, a) - BalanceOf(t, a)
                                   + (if a == b then 0 else BalanceOf(s, b) - BalanceOf(t, b))
  {
    hide Total;
    var s1 := WithBalanceOf(s, t, a);
    var s2 := WithBalanceOf(s1, t, b);
    forall c ensures (GetAccount(s2, c).Some? <==> GetAccount(t, c).Some?) && BalanceOf(s2, c) == BalanceOf(t, c) {
    }
    SameBalances(s2, t);
    WithBalanceTotal(s, t, a);
    WithBalanceTotal(s1, t, b);
  }

  function WithBalanceOf(s: Store, t: Store, a: Address): Store {
    if GetAccount(s, a).Some? && GetAccount(t, a).Some? then
      SetAccount(s, a, GetAccount(s, a).value.(balance := GetAccount(t, a).value.balance))
    else s
  }

  lemma WithBalanceTotal(s: Store, t: Store, a: Address)
    requires GetAccount(s, a).Some? <==> GetAccount(t, a).Some?
    ensures Total(WithBalanceOf(s, t, a)) == Total(s) - BalanceOf(s, a) + BalanceOf(t, a)
  {
    hide Total;
    if GetAccount(s, a).Some? {
      TotalAfterSet(s, a, GetAccount(s, a).value.(balance := GetAccount(t, a).value.balance));
    }
  }

  lemma SameBalances(s: Store, t: Store)
    requires forall c :: (GetAccount(s, c).Some? <==> GetAccount(t, c).Some?) && BalanceOf(s, c) == BalanceOf(t, c)
    ensures Total(s) == Total(t)
  {
    forall c ensures c in Balances(s) <==> c in Balances(t) {
      BalancesLookup(s, c);
      BalancesLookup(t, c);
    }
    forall c | c in Balances(s) ensures Balances(s)[c] == Balances(t)[c] {
      BalancesLookup(s, c);
      BalancesLookup(t, c);
    }
    assert Balances(s) == Balances(t);
  }

  /** The shares of the batch that a flush drops for one account: all but the last. */
  function Dropped(cfg: ChainConfig, txs: seq<Transaction>, order: seq<nat>, proposer: Address, a: Address): int {
    SumBy(GainsOf(cfg, txs, proposer, a), order) - LastBy(GainsOf(cfg, txs, proposer, a), order)
  }

  /** Nothing is dropped for an account exactly when at most one transaction of the batch gives it a share. */
  lemma DroppedExactly(cfg: ChainConfig, txs: seq<Transaction>, order: seq<nat>, proposer: Address, a: Address)
    ensures Dropped(cfg, txs, order, proposer, a) >= 0
    ensures Dropped(cfg, txs, order, proposer, a) == 0 <==> CountBy(GainsOf(cfg, txs, proposer, a), order) <= 1
  {
    LastIsSumExactly(GainsOf(cfg, txs, proposer, a), order);
  }

  /** What a flush loses for one account: all its deltas but the last. */
  function Lost(cfg: ChainConfig, txs: seq<Transaction>, order: seq<nat>, proposer: Address, a: Address): int
    requires Indices(order, |txs|)
  {
    SumDelta(cfg, txs, order, proposer, a) - LastDelta(cfg, txs, order, proposer, a)
  }

  /** Only treasury and proposer can lose anything. */
  lemma PayingBalance(cfg: ChainConfig, txs: seq<Transaction>, order: seq<nat>, proposer: Address, s: Store, a: Address)
    requires ValidSplit(cfg) && Covered(s) && AllPay(cfg, txs, order, proposer, s) && PairwiseApart(txs, order)
    ensures var flushed := FlushBatch(FeeStep(cfg, txs, proposer), order, s, s).store;
            var serial := RunSeq(FeeStep(cfg, txs, proposer), order, s).store;
            && (GetAccount(serial, a).Some? <==> GetAccount(flushed, a).Some?)
            && BalanceOf(serial, a) - BalanceOf(flushed, a) == Lost(cfg, txs, order, proposer, a)
            && (a != cfg.treasury && a != proposer ==> Lost(cfg, txs, order, proposer, a) == 0)
  {
    hide FlushBatch, RunSeq, Covered;
    hide SumDelta, LastDelta, Written;
    FlushPaying(cfg, txs, order, proposer, s, s, a);
    RunPaying(cfg, txs, order, proposer, s, a);
    UnwrittenNoDelta(cfg, txs, order, proposer, a);
    if a != cfg.treasury && a != proposer {
      InsiderDeltas(cfg, txs, order, proposer, a);
    } else {
      SumUnwritten(cfg, txs, order, proposer, a);
    }
  }

  lemma {:induction false} SumUnwritten(cfg: ChainConfig, txs: seq<Transaction>, order: seq<nat>, proposer: Address,
                                        a: Address)
    requires Indices(order, |txs|)
    ensures !Written(cfg, txs, order, proposer, a) ==> SumDelta(cfg, txs, order, proposer, a) == 0
  {
    hide Fee, Gain;
    if order == [] {
    } else {
      SumUnwritten(cfg, txs, order[1..], proposer, a);
    }
  }

  lemma PayingShortfall(cfg: ChainConfig, txs: seq<Transaction>, order: seq<nat>, proposer: Address, s: Store)
    requires ValidSplit(cfg) && Covered(s) && AllPay(cfg, txs, order, proposer, s) && PairwiseApart(txs, order)
    ensures var flushed := FlushBatch(FeeStep(cfg, txs, proposer), order, s, s).store;
            var serial := RunSeq(FeeStep(cfg, txs, proposer), order, s).store;
            Total(serial) - Total(flushed)
            == Lost(cfg, txs, order, proposer, cfg.treasury)
               + (if proposer == cfg.treasury then 0 else Lost(cfg, txs, order, proposer, proposer))
  {
    hide FlushBatch, RunSeq, Total, PairwiseApart, AllPay, Covered, GetAccount, BalanceOf, Lost;
    PayingInRange(cfg, txs, order, proposer, s);
    var flushed := FlushBatch(FeeStep(cfg, txs, proposer), order, s, s).store;
    var serial := RunSeq(FeeStep(cfg, txs, proposer), order, s).store;
    forall a
      ensures GetAccount(serial, a).Some? <==> GetAccount(flushed, a).Some?
      ensures BalanceOf(serial, a) - BalanceOf(flushed, a) == Lost(cfg, txs, order, proposer, a)
      ensures a != cfg.treasury && a != proposer ==> Lost(cfg, txs, order, proposer, a) == 0
    {
      PayingBalance(cfg, txs, order, proposer, s, a);
    }
    TotalsDifferBy(serial, flushed, cfg.treasury, proposer);
  }

  lemma PayingInRange(cfg: ChainConfig, txs: seq<Transaction>, order: seq<nat>, proposer: Address, s: Store)
    requires AllPay(cfg, txs, order, proposer, s)
    ensures Indices(order, |txs|)
  {
  }

  /** What all accounts together lose: deltas of treasury and proposer that were overwritten. */
  function LostTotal(cfg: ChainConfig, txs: seq<Transaction>, order: seq<nat>, proposer: Address): int
    requires Indices(order, |txs|)
  {
    Lost(cfg, txs, order, proposer, cfg.treasury)
    + (if proposer == cfg.treasury then 0 else Lost(cfg, txs, order, proposer, proposer))
  }

  /**
   * The balances of any batch that the scheduler runs side by side. Run one by one, they drop by
   * what is burned in turn. Flushed, they drop by what the transactions that pay against the base
   * burn, and by everything that treasury and proposer gain or pay in all but the last of them.
   */
  lemma BatchTotals(cfg: ChainConfig, txs: seq<Transaction>, access: seq<AccessSet>, order: seq<nat>, proposer: Address,
                    s: Store)
    requires ValidSplit(cfg) && Covered(s)
    requires AllPredicted(access, txs) && Indices(order, |txs|) && Independent(order, access)
    ensures var flushed := FlushBatch(FeeStep(cfg, txs, proposer), order, s, s).store;
            var serial := RunSeq(FeeStep(cfg, txs, proposer), order, s).store;
            var paying := Paying(cfg, txs, order, proposer, s);
            && Indices(paying, |txs|)
            && Total(serial) == Total(s) - TurnBurns(cfg, txs, order, proposer, s)
            && Total(flushed) == Total(s) - SumBurns(cfg, txs, paying) - LostTotal(cfg, txs, paying, proposer)
            && SumBurns(cfg, txs, paying) <= TurnBurns(cfg, txs, order, proposer, s)
  {
    hide FlushBatch, RunSeq, Total, Covered, Paying, SumBurns, TurnBurns, Lost, AllPay, AllPredicted, Independent;
    hide PairwiseApart, NonePoorer;
    IndependentApart(txs, access, order);
    var paying := Paying(cfg, txs, order, proposer, s);
    PayingPays(cfg, txs, order, proposer, s);
    PayingInRange(cfg, txs, paying, proposer, s);
    RunTotals(cfg, txs, order, proposer, s);
    RunTotals(cfg, txs, paying, proposer, s);
    PayingBurns(cfg, txs, paying, proposer, s);
    PayingShortfall(cfg, txs, paying, proposer, s);
    FlushSkips(cfg, txs, order, proposer, s, s);
    Reflexive(s, txs, order);
    TurnBurnsMore(cfg, txs, order, proposer, s, s);
  }

  /** For an account outside the batch the loss is every share but the last. */
  lemma OutsiderLoses(cfg: ChainConfig, txs: seq<Transaction>, order: seq<nat>, proposer: Address, a: Address)
    requires Indices(order, |txs|) && Outside(txs, order, a)
    ensures Lost(cfg, txs, order, proposer, a) == Dropped(cfg, txs, order, proposer, a) >= 0
    ensures Lost(cfg, txs, order, proposer, a) == 0 <==> CountBy(GainsOf(cfg, txs, proposer, a), order) <= 1
  {
    OutsiderDeltas(cfg, txs, order, proposer, a);
    DroppedExactly(cfg, txs, order, proposer, a);
  }

  /** An involved account can even win: a flush may drop its charge behind a later share. */
  lemma InsiderMayWin()
    ensures var cfg := ChainConfig(0, 0, 1, U64_MAX, 0, 5_000, Address(8), 0);
            var txs := [Paid(Address(8)), Paid(Address(1))];
            Lost(cfg, txs, [0, 1], Address(9), Address(8)) == -2_500
  {
    var cfg := ChainConfig(0, 0, 1, U64_MAX, 0, 5_000, Address(8), 0);
    var txs, order: seq<nat> := [Paid(Address(8)), Paid(Address(1))], [0, 1];
    assert Fee(cfg, txs[0]) == 5_000 && Fee(cfg, txs[1]) == 5_000;
    assert Delta(cfg, txs[0], Address(9), Address(8)) == -2_500 && Delta(cfg, txs[1], Address(9), Address(8)) == 2_500;
    assert order[1..] == [1] && order[1..][1..] == [];
    hide Delta;
  }

  function Paid(a: Address): Transaction {
    Transaction(a, 0, 5_000, None, None, Action.Transfer(Address(3), 1), 200)
  }

  // ---------------------------------------------------------------------
  // Supply
  // ---------------------------------------------------------------------

  function SumBurns(cfg: ChainConfig, txs: seq<Transaction>, order: seq<nat>): nat
    requires Indices(order, |txs|)
  {
    if order == [] then 0 else BurnShare(cfg, Fee(cfg, txs[order[0]])) + SumBurns(cfg, txs, order[1..])
  }

  predicate AnyFee(cfg: ChainConfig, txs: seq<Transaction>, order: seq<nat>)
    requires Indices(order, |txs|)
  {
    order != [] && (Fee(cfg, txs[order[0]]) > 0 || AnyFee(cfg, txs, order[1..]))
  }

  /** The burned share of the last transaction with a fee. */
  function LastBurn(cfg: ChainConfig, txs: seq<Transaction>, order: seq<nat>): nat
    requires Indices(order, |txs|)
  {
    if order == [] then 0
    else if AnyFee(cfg, txs, order[1..]) then LastBurn(cfg, txs, order[1..])
    else BurnShare(cfg, Fee(cfg, txs[order[0]]))
  }

  lemma FlushOneSupply(cfg: ChainConfig, txs: seq<Transaction>, proposer: Address, i: nat, base: Store, s: Store)
    requires ValidSplit(cfg) && Covered(base) && i < |txs| && FeePhase(cfg, base, txs[i], proposer).Ok?
    ensures var s' := ApplyWrites(s, FeeStep(cfg, txs, proposer)(i, base).writes);
            GetSupply(s').totalSupply == if Fee(cfg, txs[i]) == 0 then GetSupply(s).totalSupply
                                         else GetSupply(base).totalSupply - BurnShare(cfg, Fee(cfg, txs[i]))
  {
    hide FeePhase, ApplyWrites, Covered;
    CoverAfter(cfg, base, txs[i], proposer);
    FlushedKey(cfg, txs, proposer, i, base, s, SupplyKey);
  }

  lemma {:induction false} FlushSupply(cfg: ChainConfig, txs: seq<Transaction>, order: seq<nat>, proposer: Address,
                                       base: Store, s: Store)
    requires ValidSplit(cfg) && Covered(base) && AllPay(cfg, txs, order, proposer, base)
    ensures var s' := FlushBatch(FeeStep(cfg, txs, proposer), order, base, s).store;
            GetSupply(s').totalSupply == if AnyFee(cfg, txs, order)
                                         then GetSupply(base).totalSupply - LastBurn(cfg, txs, order)
                                         else GetSupply(s).totalSupply
    decreases |order|
  {
    hide FeePhase, FeeOutcome, Covered, Fee;
    if order == [] {
    } else {
      var s1 := ApplyWrites(s, FeeStep(cfg, txs, proposer)(order[0], base).writes);
      FlushOneSupply(cfg, txs, proposer, order[0], base, s);
      assert AllPay(cfg, txs, order[1..], proposer, base);
      FlushSupply(cfg, txs, order[1..], proposer, base, s1);
    }
  }

  lemma {:induction false} NoFeeNoBurn(cfg: ChainConfig, txs: seq<Transaction>, order: seq<nat>)
    requires Indices(order, |txs|)
    ensures !AnyFee(cfg, txs, order) ==> SumBurns(cfg, txs, order) == 0
    ensures LastBurn(cfg, txs, order) <= SumBurns(cfg, txs, order)
  {
    if order == [] {
    } else {
      NoFeeNoBurn(cfg, txs, order[1..]);
    }
  }

  /** The recorded supply of the flushed store is too high by all that is burned in turn but the last share. */
  lemma BatchSupplyExcess(cfg: ChainConfig, txs: seq<Transaction>, access: seq<AccessSet>, order: seq<nat>,
                          proposer: Address, s: Store)
    requires ValidSplit(cfg) && Covered(s)
    requires AllPredicted(access, txs) && Indices(order, |txs|) && Independent(order, access)
    ensures var flushed := FlushBatch(FeeStep(cfg, txs, proposer), order, s, s).store;
            var serial := RunSeq(FeeStep(cfg, txs, proposer), order, s).store;
            var paying := Paying(cfg, txs, order, proposer, s);
            && Indices(paying, |txs|)
            && GetSupply(flushed).totalSupply - GetSupply(serial).totalSupply
               == TurnBurns(cfg, txs, order, proposer, s) - LastBurn(cfg, txs, paying) >= 0
  {
    hide FlushBatch, RunSeq, SumBurns, AnyFee, Total, Covered, Paying, TurnBurns, AllPay, AllPredicted, Independent;
    hide PairwiseApart, NonePoorer, LastBurn;
    IndependentApart(txs, access, order);
    var paying := Paying(cfg, txs, order, proposer, s);
    PayingPays(cfg, txs, order, proposer, s);
    PayingInRange(cfg, txs, paying, proposer, s);
    FlushSkips(cfg, txs, order, proposer, s, s);
    FlushSupply(cfg, txs, paying, proposer, s, s);
    RunTotals(cfg, txs, order, proposer, s);
    Reflexive(s, txs, order);
    TurnBurnsMore(cfg, txs, order, proposer, s, s);
    NoFeeNoBurn(cfg, txs, paying);
    LastBurnOfNone(cfg, txs, paying);
  }

  lemma {:induction false} LastBurnOfNone(cfg: ChainConfig, txs: seq<Transaction>, order: seq<nat>)
    requires Indices(order, |txs|)
    ensures !AnyFee(cfg, txs, order) ==> LastBurn(cfg, txs, order) == 0
  {
    if order == [] {
    } else {
      LastBurnOfNone(cfg, txs, order[1..]);
    }
  }
}

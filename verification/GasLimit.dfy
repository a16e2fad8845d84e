/** Exactly when the block gas limit binds. */
module GasLimit {
  import opened Basics
  import opened State
  import opened Actions
  import opened Ledger
  import opened Execution

  ghost predicate GasBounded(cfg: ChainConfig, handler: Handler) {
    forall s, txs, height: u64, proposer ::
      GasSum(BlockFrom(cfg, handler, s, txs, height, proposer, 0).1) <= cfg.maxBlockGas
  }

  /** Handlers take nothing from accounts other than the signer's. */
  ghost predicate SparesOthers(handler: Handler) {
    forall tx: Transaction, s, h: u64, b :: b != tx.signer && GetAccount(s, b).Some? ==>
      GetAccount(handler(tx, s, h).store, b).Some? && BalanceOf(s, b) <= BalanceOf(handler(tx, s, h).store, b)
  }

  // ---------------------------------------------------------------------
  // A block of transfers, one per signer
  // ---------------------------------------------------------------------

  predicate Rich(s: Store, a: Address) {
    GetAccount(s, a).Some? && BalanceOf(s, a) == U64_MAX
  }

  function Signer(i: nat): Address {
    Address(i + 1)
  }

  function Signed(i: nat, action: Action, size: u64): Transaction {
    Transaction(Signer(i), 0, U64_MAX, None, None, action, size)
  }

  function Rush(n: nat, action: Action, size: u64): (txs: seq<Transaction>)
    ensures |txs| == n && forall i :: 0 <= i < n ==> txs[i] == Signed(i, action, size)
  {
    seq(n, i requires 0 <= i => Signed(i, action, size))
  }

  /** With the limit `u64::MAX` a rich signer's transaction runs, and the others stay rich. */
  lemma RushTurn(cfg: ChainConfig, handler: Handler, s: Store, i: nat, action: Action, size: u64, height: u64,
                 proposer: Address, used: u64)
    requires cfg.maxBlockGas == U64_MAX && NeverPanics(handler) && SparesOthers(handler) && Rich(s, Signer(i))
    ensures var (s', _, r) := Turn(cfg, handler, s, Signed(i, action, size), height, proposer, used);
            && r.gasUsed == TotalGas(cfg, Signed(i, action, size))
            && forall b :: b != Signer(i) && Rich(s, b) ==> Rich(s', b)
  {
    hide Distribute, TotalGas;
    var tx := Signed(i, action, size);
    var charged := FeePhase(cfg, s, tx, proposer).value;
    var o := handler(tx, charged, height);
    assert o.Returned?;
    forall b | b != Signer(i) && Rich(s, b) ensures Rich(o.store, b) {
      FeePhaseNonces(cfg, s, tx, proposer, b);
    }
  }

  lemma {:induction false} RushGas(cfg: ChainConfig, handler: Handler, s: Store, n: nat, j: nat, action: Action,
                                   size: u64,
                                   height: u64, proposer: Address, used: u64)
    requires cfg.maxBlockGas == U64_MAX && NeverPanics(handler) && SparesOthers(handler)
    requires j <= n && forall i :: j <= i < n ==> Rich(s, Signer(i))
    ensures GasSum(BlockFrom(cfg, handler, s, Rush(n, action, size)[j..], height, proposer, used).1)
            == (n - j) * TotalGas(cfg, Signed(0, action, size))
    decreases n - j
  {
    hide Turn, BlockFrom;
    hide TotalGas;
    var txs := Rush(n, action, size);
    if j == n {
      EmptyBlock(cfg, handler, s, txs, height, proposer, used);
    } else {
      RushTurn(cfg, handler, s, j, action, size, height, proposer, used);
      var (s1, used1, r) := Turn(cfg, handler, s, txs[j], height, proposer, used);
      RushGas(cfg, handler, s1, n, j + 1, action, size, height, proposer, used1);
      BlockUnrolls(cfg, handler, s, txs, j, height, proposer, used);
      ConsSums(cfg, r, BlockFrom(cfg, handler, s1, txs[j + 1..], height, proposer, used1).1);
      SameGas(cfg, j, action, size);
      assert (n - j) * r.gasUsed == r.gasUsed + (n - (j + 1)) * r.gasUsed;
    }
  }

  lemma SameGas(cfg: ChainConfig, j: nat, action: Action, size: u64)
    ensures TotalGas(cfg, Signed(j, action, size)) == TotalGas(cfg, Signed(0, action, size))
  {
  }

  /** Not among the signers. */
  const RECEIVER := Signer(U64_MAX + 1)

  function RichStore(n: nat): Store {
    map i | 0 <= i < n :: AccountKey(Signer(i)) := AccountValue(AccountState(0, U64_MAX))
  }

  /** A transfer, or a delegation of the same size should the gas of the transfer wrap around to zero. */
  function CostlyAction(cfg: ChainConfig, size: u64): (action: Action)
    ensures TotalGas(cfg, Signed(0, action, size)) > 0
  {
    var transfer := Transfer(RECEIVER, 1);
    if TotalGas(cfg, Signed(0, transfer, size)) > 0 then transfer else DelegateStake(RECEIVER, 1)
  }

  /** Enough of them overrun the limit `u64::MAX`: the saturated sum lets every one of them in. */
  lemma RushOverruns(cfg: ChainConfig, handler: Handler, size: u64, height: u64, proposer: Address)
    requires cfg.maxBlockGas == U64_MAX && NeverPanics(handler) && SparesOthers(handler)
    ensures var action := CostlyAction(cfg, size);
            var n := U64_MAX / TotalGas(cfg, Signed(0, action, size)) + 1;
            GasSum(BlockFrom(cfg, handler, RichStore(n), Rush(n, action, size), height, proposer, 0).1)
            > cfg.maxBlockGas
  {
    hide BlockFrom, TotalGas;
    var action := CostlyAction(cfg, size);
    var gas := TotalGas(cfg, Signed(0, action, size));
    var n := U64_MAX / gas + 1;
    forall i | 0 <= i < n ensures Rich(RichStore(n), Signer(i)) {
      assert AccountKey(Signer(i)) in RichStore(n);
    }
    RushGas(cfg, handler, RichStore(n), n, 0, action, size, height, proposer, 0);
    assert Rush(n, action, size)[0..] == Rush(n, action, size);
    Exceeds(U64_MAX, gas);
  }

  lemma Exceeds(x: nat, d: nat)
    requires d > 0
    ensures (x / d + 1) * d > x
  {
  }

  /** The saturating sum enforces every limit except `u64::MAX` itself. */
  lemma GasBoundedExactly(cfg: ChainConfig, handler: Handler)
    requires NeverPanics(handler) && SparesOthers(handler)
    ensures GasBounded(cfg, handler) <==> cfg.maxBlockGas < U64_MAX
  {
    hide BlockFrom;
    if cfg.maxBlockGas < U64_MAX {
      forall s, txs, height: u64, proposer
        ensures GasSum(BlockFrom(cfg, handler, s, txs, height, proposer, 0).1) <= cfg.maxBlockGas
      {
        GasWithinLimit(cfg, handler, s, txs, height, proposer, 0);
      }
    } else {
      RushOverruns(cfg, handler, 200, 1, RECEIVER);
    }
  }
}

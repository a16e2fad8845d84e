/**
 * What the gas formula, the fee split and the block reward amount to, and what they add up to over
 * blocks and chains.
 */
module FeeLaws {
  import opened Basics
  import opened State
  import opened Actions
  import opened Ledger
  import opened Unbondings
  import opened Execution
  import opened Conservation

  // ---------------------------------------------------------------------
  // Gas
  // ---------------------------------------------------------------------

  function GasBeforeWrap(cfg: ChainConfig, tx: Transaction): nat {
    cfg.baseGas + ActionGas(tx.action) + tx.size * cfg.gasPerByte
  }

  /**
   * Gas grows by the base gas and by the rate for each byte, modulo the width of a `u64`, from the
   * gas of the action.
   */
  lemma GasGrows(cfg: ChainConfig, tx: Transaction, base: u64, bytes: u64)
    requires cfg.baseGas + base <= U64_MAX && tx.size + bytes <= U64_MAX
    ensures TotalGas(cfg.(baseGas := 0), tx.(size := 0)) == ActionGas(tx.action)
    ensures TotalGas(cfg.(baseGas := cfg.baseGas + base), tx) == Wrap(TotalGas(cfg, tx) + base)
    ensures TotalGas(cfg, tx.(size := tx.size + bytes)) == Wrap(TotalGas(cfg, tx) + bytes * cfg.gasPerByte)
  {
    hide Wrap, ActionGas;
    WrapExactly(ActionGas(tx.action), 0);
    WrapExactly(GasBeforeWrap(cfg, tx), base);
    WrapExactly(GasBeforeWrap(cfg, tx), bytes * cfg.gasPerByte);
    assert GasBeforeWrap(cfg.(baseGas := 0), tx.(size := 0)) == ActionGas(tx.action);
    assert GasBeforeWrap(cfg.(baseGas := cfg.baseGas + base), tx) == GasBeforeWrap(cfg, tx) + base;
    assert GasBeforeWrap(cfg, tx.(size := tx.size + bytes)) == GasBeforeWrap(cfg, tx) + bytes * cfg.gasPerByte by {
      assert (tx.size + bytes) * cfg.gasPerByte == tx.size * cfg.gasPerByte + bytes * cfg.gasPerByte;
    }
  }

  /** The fee is the price of the gas, capped at the largest `u64`. */
  lemma FeeIsPrice(cfg: ChainConfig, tx: Transaction)
    ensures Fee(cfg, tx) <= TotalGas(cfg, tx) * cfg.minGasPrice
    ensures Fee(cfg, tx) == TotalGas(cfg, tx) * cfg.minGasPrice || Fee(cfg, tx) == U64_MAX
  {
  }

  // ---------------------------------------------------------------------
  // One fee
  // ---------------------------------------------------------------------

  /** Each share is its part of the fee in basis points, rounded down. */
  lemma ShareBounds(cfg: ChainConfig, fee: u64)
    ensures 10_000 * BurnShare(cfg, fee) <= fee * cfg.burnBps < 10_000 * (BurnShare(cfg, fee) + 1)
    ensures 10_000 * TreasuryShare(cfg, fee) <= fee * cfg.treasuryBps < 10_000 * (TreasuryShare(cfg, fee) + 1)
  {
  }

  /** Why a fee cannot be charged; the fee phase fails for these reasons and for a fee above `maxFee`. */
  lemma FeeRefusedExactly(cfg: ChainConfig, s: Store, tx: Transaction, proposer: Address)
    ensures var r, fee, payer := FeePhase(cfg, s, tx, proposer), Fee(cfg, tx), FeePayer(tx);
            var signs, pays := GetAccount(s, tx.signer).Some?, GetAccount(s, payer).Some?;
            && (r == Err(FeeTooLow) <==> tx.maxFee < fee)
            && (r == Err(AccountNotFound(tx.signer)) <==> tx.maxFee >= fee && !signs)
            && (payer != tx.signer ==> (r == Err(AccountNotFound(payer)) <==> tx.maxFee >= fee && signs && !pays))
            && (r == Err(InsufficientBalance(fee, BalanceOf(s, payer))) <==>
                  tx.maxFee >= fee && signs && pays && BalanceOf(s, payer) < fee)
            && (r.Ok? <==> tx.maxFee >= fee && signs && pays && BalanceOf(s, payer) >= fee)
  {
    hide Distribute;
  }

  /** What circulates is what there is less what is staked and what the treasury has, and at least nothing. */
  predicate CirculationBooked(supply: SupplyInfo) {
    var rest := supply.totalSupply - supply.totalStaked - supply.treasuryBalance;
    supply.circulatingSupply == if rest < 0 then 0 else rest
  }

  /** Charging and distributing a fee books it completely; neither stakes nor minting are touched. */
  lemma FeeBooked(cfg: ChainConfig, s: Store, tx: Transaction, proposer: Address)
    requires FeePhase(cfg, s, tx, proposer).Ok? && CountersFit(cfg, GetSupply(s), Fee(cfg, tx))
    requires BurnShare(cfg, Fee(cfg, tx)) <= GetSupply(s).totalSupply
    ensures var fee, before := Fee(cfg, tx), GetSupply(s);
            var after := GetSupply(FeePhase(cfg, s, tx, proposer).value);
            && after.totalFeesCollected == before.totalFeesCollected + fee
            && after.totalBurned == before.totalBurned + BurnShare(cfg, fee)
            && after.totalSupply == before.totalSupply - BurnShare(cfg, fee)
            && after.treasuryBalance == before.treasuryBalance + TreasuryShare(cfg, fee)
            && after.totalStaked == before.totalStaked && after.totalMinted == before.totalMinted
            && (fee > 0 || CirculationBooked(before) ==> CirculationBooked(after))
  {
    hide Charge, Credit;
    var fee := Fee(cfg, tx);
    ChargeKeepsSupply(s, tx, fee);
    var charged := Charge(s, tx, fee).value;
    CreditAdds(charged, cfg.treasury, TreasuryShare(cfg, fee));
    CreditAdds(Credit(charged, cfg.treasury, TreasuryShare(cfg, fee)), proposer, ProposerShare(cfg, fee));
  }

  /** What a fee phase does to each balance: the payer pays, the treasury and the proposer get their shares. */
  lemma FeeBalances(cfg: ChainConfig, s: Store, tx: Transaction, proposer: Address, a: Address)
    requires FeePhase(cfg, s, tx, proposer).Ok?
    ensures var fee := Fee(cfg, tx);
            BalanceOf(FeePhase(cfg, s, tx, proposer).value, a) ==
            SatAdd(BalanceOf(s, a) - (if a == FeePayer(tx) then fee else 0), Gain(cfg, fee, proposer, a))
  {
    hide Distribute, Gain;
    DistributeBalance(cfg, Charge(s, tx, Fee(cfg, tx)).value, Fee(cfg, tx), proposer, a);
  }

  // ---------------------------------------------------------------------
  // The reward
  // ---------------------------------------------------------------------

  /** The reward goes to the proposer alone, nonces stay, and it is booked as minted. */
  lemma RewardPays(cfg: ChainConfig, s: Store, proposer: Address, a: Address)
    ensures var s' := ApplyBlockReward(cfg, s, proposer);
            && BalanceOf(s', a) == SatAdd(BalanceOf(s, a), if a == proposer then Minted(cfg, proposer) else 0)
            && SameNonce(GetAccount(s, a), GetAccount(s', a))
  {
    hide Recomputed;
  }

  lemma RewardBooked(cfg: ChainConfig, s: Store, proposer: Address)
    requires HasSupply(s) && GetSupply(s).totalMinted + cfg.blockReward <= U64_MAX
    requires GetSupply(s).totalSupply + cfg.blockReward <= U64_MAX
    ensures var before, after := GetSupply(s), GetSupply(ApplyBlockReward(cfg, s, proposer));
            && after.totalMinted == before.totalMinted + Minted(cfg, proposer)
            && after.totalSupply == before.totalSupply + Minted(cfg, proposer)
            && after.totalStaked == before.totalStaked && after.treasuryBalance == before.treasuryBalance
            && (Minted(cfg, proposer) > 0 || CirculationBooked(before) ==> CirculationBooked(after))
  {
    hide Credit;
    CreditAdds(s, proposer, cfg.blockReward);
    assert HasSupply(Credit(s, proposer, cfg.blockReward)) by { CreditKeepsRecord(s, proposer, cfg.blockReward); }
  }

  lemma CreditKeepsRecord(s: Store, a: Address, amount: nat)
    ensures HasSupply(Credit(s, a, amount)) <==> HasSupply(s)
  {
  }

  lemma RewardKeepsCounters(cfg: ChainConfig, s: Store, proposer: Address)
    ensures var s' := ApplyBlockReward(cfg, s, proposer);
            FeesCollected(s') == FeesCollected(s) && Burned(s') == Burned(s) && TreasuryBooked(s') == TreasuryBooked(s)
  {
  }

  // ---------------------------------------------------------------------
  // Blocks and chains
  // ---------------------------------------------------------------------

  /** `part` is `bps` basis points of `whole`, but for less than one unit in each of `n` roundings. */
  predicate IsShare(part: int, whole: int, bps: nat, n: nat) {
    10_000 * part <= bps * whole <= 10_000 * part + 9_999 * n
  }

  lemma SharesAdd(part: int, whole: int, part': int, whole': int, bps: nat, n: nat, n': nat)
    requires IsShare(part, whole, bps, n) && IsShare(part', whole', bps, n')
    ensures IsShare(part + part', whole + whole', bps, n + n')
  {
    assert bps * (whole + whole') == bps * whole + bps * whole';
  }

  /** The burn counter and the treasury counter grow by their shares of what the fee counter grows by. */
  predicate SplitKept(cfg: ChainConfig, s: Store, s': Store, n: nat) {
    var fees := FeesCollected(s') - FeesCollected(s);
    && IsShare(Burned(s') - Burned(s), fees, cfg.burnBps, n)
    && IsShare(TreasuryBooked(s') - TreasuryBooked(s), fees, cfg.treasuryBps, n)
  }

  lemma SplitsChain(cfg: ChainConfig, s: Store, s1: Store, s': Store, n: nat, n': nat)
    requires SplitKept(cfg, s, s1, n) && SplitKept(cfg, s1, s', n')
    ensures SplitKept(cfg, s, s', n + n')
  {
    hide IsShare;
    var fees, fees' := FeesCollected(s1) - FeesCollected(s), FeesCollected(s') - FeesCollected(s1);
    SharesAdd(Burned(s1) - Burned(s), fees, Burned(s') - Burned(s1), fees', cfg.burnBps, n, n');
    SharesAdd(TreasuryBooked(s1) - TreasuryBooked(s), fees, TreasuryBooked(s') - TreasuryBooked(s1), fees',
              cfg.treasuryBps, n, n');
  }

  lemma TurnSplits(cfg: ChainConfig, handler: Handler, s: Store, tx: Transaction, height: u64, proposer: Address,
                   used: u64, amount: nat)
    requires ValidSplit(cfg) && KeepsCounters(handler) && RoomFor(s, Fee(cfg, tx) + amount)
    ensures var s' := Turn(cfg, handler, s, tx, height, proposer, used).0;
            SplitKept(cfg, s, s', 1) && RoomFor(s', amount)
  {
    hide Turn, LosesFee, RoomFor, FeesCollected, Burned, TreasuryBooked, BurnShare, TreasuryShare, KeepsCounters;
    TurnCounters(cfg, handler, s, tx, height, proposer, used, amount);
    var (s', _, receipt) := Turn(cfg, handler, s, tx, height, proposer, used);
    var fee := if LosesFee(cfg, handler, s, tx, height, proposer, used) then Fee(cfg, tx) else receipt.feeUsed;
    ShareBounds(cfg, fee);
    assert cfg.burnBps * fee == fee * cfg.burnBps && cfg.treasuryBps * fee == fee * cfg.treasuryBps;
  }

  /** Over a block the split holds but for one rounding each per transaction. */
  lemma {:induction false} BlockSplit(cfg: ChainConfig, handler: Handler, s: Store, txs: seq<Transaction>, height: u64,
                                      proposer: Address, used: u64, amount: nat)
    requires ValidSplit(cfg) && KeepsCounters(handler) && RoomFor(s, FeesOf(cfg, txs) + amount)
    ensures var s' := BlockFrom(cfg, handler, s, txs, height, proposer, used).0;
            SplitKept(cfg, s, s', |txs|) && RoomFor(s', amount)
    decreases |txs|
  {
    hide Turn, RoomFor, SplitKept, KeepsCounters;
    if txs == [] {
      NothingSplits(cfg, s);
    } else {
      TurnSplits(cfg, handler, s, txs[0], height, proposer, used, FeesOf(cfg, txs[1..]) + amount);
      var (s1, used1, _) := Turn(cfg, handler, s, txs[0], height, proposer, used);
      BlockSplit(cfg, handler, s1, txs[1..], height, proposer, used1, amount);
      SplitsChain(cfg, s, s1, BlockFrom(cfg, handler, s, txs, height, proposer, used).0, 1, |txs| - 1);
    }
  }

  lemma NothingSplits(cfg: ChainConfig, s: Store)
    ensures SplitKept(cfg, s, s, 0)
  {
  }

  function FeesOver(cfg: ChainConfig, blocks: seq<BlockInput>): nat {
    if blocks == [] then 0 else FeesOf(cfg, blocks[0].txs) + FeesOver(cfg, blocks[1..])
  }

  function TransactionsIn(blocks: seq<BlockInput>): nat {
    if blocks == [] then 0 else |blocks[0].txs| + TransactionsIn(blocks[1..])
  }

  lemma ReleaseKeepsCounters(s: Store, height: u64)
    ensures GetSupply(ReleaseMature(s, height)) == GetSupply(s)
  {
    hide ReleaseAll;
    if Entries(s, Due(s, height)) {
      ReleaseAllWrites(s, Due(s, height), SupplyKey);
    }
  }

  lemma CommitSplits(cfg: ChainConfig, handler: Handler, s: Store, b: BlockInput, amount: nat)
    requires ValidSplit(cfg) && KeepsCounters(handler) && RoomFor(s, FeesOf(cfg, b.txs) + amount)
    ensures var s' := CommitBlock(cfg, handler, s, b); SplitKept(cfg, s, s', |b.txs|) && RoomFor(s', amount)
  {
    hide ReleaseMature, BlockFrom, ApplyBlockReward, KeepsCounters, FeesOf;
    var s0 := ReleaseMature(s, b.height);
    ReleaseKeepsCounters(s, b.height);
    BlockSplit(cfg, handler, s0, b.txs, b.height, b.proposer, 0, amount);
    RewardKeepsCounters(cfg, BlockFrom(cfg, handler, s0, b.txs, b.height, b.proposer, 0).0, b.proposer);
  }

  /** Over any chain of blocks the burned total and the treasury total are their shares of all fees collected. */
  lemma {:induction false} ChainSplit(cfg: ChainConfig, handler: Handler, s: Store, blocks: seq<BlockInput>)
    requires ValidSplit(cfg) && KeepsCounters(handler) && RoomFor(s, FeesOver(cfg, blocks))
    ensures SplitKept(cfg, s, CommitChain(cfg, handler, s, blocks), TransactionsIn(blocks))
    decreases |blocks|
  {
    hide CommitBlock, RoomFor, SplitKept, KeepsCounters;
    if blocks == [] {
      NothingSplits(cfg, s);
    } else {
      var s1 := CommitBlock(cfg, handler, s, blocks[0]);
      CommitSplits(cfg, handler, s, blocks[0], FeesOver(cfg, blocks[1..]));
      ChainSplit(cfg, handler, s1, blocks[1..]);
      SplitsChain(cfg, s, s1, CommitChain(cfg, handler, s, blocks), |blocks[0].txs|, TransactionsIn(blocks[1..]));
    }
  }
}

/** Accounts, fees and supply: `gas.rs` and the fee phase of `execute_transaction` in `executor.rs`. */
module Ledger {
  import opened Basics
  import opened State
  import opened Actions

  datatype Transaction = Transaction(
    signer: Address,
    nonce: u64,
    maxFee: u64,
    sponsor: Option<Address>,
    session: Option<Address>,
    action: Action,
    size: u64)

  datatype ChainConfig = ChainConfig(
    baseGas: u64,
    gasPerByte: u64,
    minGasPrice: u64,
    maxBlockGas: u64,
    burnBps: nat,
    treasuryBps: nat,
    treasury: Address,
    blockReward: u64)

  /** What `Executor::new` asserts. */
  predicate ValidSplit(cfg: ChainConfig) {
    cfg.burnBps + cfg.treasuryBps <= 10_000
  }

  datatype ExecutionError =
    | FeeTooLow
    | AccountNotFound(who: Address)
    | SponsorAccountNotFound(sponsor: Address)
    | InsufficientBalance(required: u64, available: u64)
    | InvalidNonce(expected: u64, got: u64)
    | SessionNotFound
    | SessionRevoked
    | SessionExpired
    | SessionActionNotPermitted
    | SessionSpendingLimitExceeded
    | HandlerPanicked
    | ZeroAddressSigner
    | ZeroAddressSponsor
    | SponsorIsSigner
    | InvalidInput

  // ---------------------------------------------------------------------
  // Gas
  // ---------------------------------------------------------------------

  function TotalGas(cfg: ChainConfig, tx: Transaction): u64 {
    Wrap(cfg.baseGas + ActionGas(tx.action) + tx.size * cfg.gasPerByte)
  }

  function Fee(cfg: ChainConfig, tx: Transaction): u64 {
    SatMul(TotalGas(cfg, tx), cfg.minGasPrice)
  }

  function FeePayer(tx: Transaction): Address {
    if tx.sponsor.Some? then tx.sponsor.value else tx.signer
  }

  // ---------------------------------------------------------------------
  // Records in the store
  // ---------------------------------------------------------------------

  function GetAccount(s: Store, a: Address): Option<AccountState> {
    if AccountKey(a) in s && s[AccountKey(a)].AccountValue? then Some(s[AccountKey(a)].account) else None
  }

  function SetAccount(s: Store, a: Address, acct: AccountState): Store {
    s[AccountKey(a) := AccountValue(acct)]
  }

  const NO_SUPPLY := SupplyInfo(0, 0, 0, 0, 0, 0, 0)

  function GetSupply(s: Store): SupplyInfo {
    if SupplyKey in s && s[SupplyKey].SupplyValue? then s[SupplyKey].supply else NO_SUPPLY
  }

  function SetSupply(s: Store, supply: SupplyInfo): Store {
    s[SupplyKey := SupplyValue(supply)]
  }

  function Recomputed(supply: SupplyInfo): SupplyInfo {
    supply.(circulatingSupply := SatSub(SatSub(supply.totalSupply, supply.totalStaked), supply.treasuryBalance))
  }

  // ---------------------------------------------------------------------
  // The fee phase
  // ---------------------------------------------------------------------

  /** Charge the payer and raise the signer's nonce. */
  function Charge(s: Store, tx: Transaction, fee: u64): Result<Store, ExecutionError> {
    var payer := FeePayer(tx);
    var signer := GetAccount(s, tx.signer);
    if signer.None? then Err(AccountNotFound(tx.signer))
    else if payer == tx.signer then
      if signer.value.balance < fee then Err(InsufficientBalance(fee, signer.value.balance))
      else Ok(SetAccount(s, tx.signer, AccountState(Wrap(signer.value.nonce + 1), signer.value.balance - fee)))
    else
      var sponsor := GetAccount(s, payer);
      if sponsor.None? then Err(AccountNotFound(payer))
      else if sponsor.value.balance < fee then Err(InsufficientBalance(fee, sponsor.value.balance))
      else
        var s1 := SetAccount(s, payer, sponsor.value.(balance := sponsor.value.balance - fee));
        Ok(SetAccount(s1, tx.signer, signer.value.(nonce := Wrap(signer.value.nonce + 1))))
  }

  function BurnShare(cfg: ChainConfig, fee: u64): nat {
    fee * cfg.burnBps / 10_000
  }

  function TreasuryShare(cfg: ChainConfig, fee: u64): nat {
    fee * cfg.treasuryBps / 10_000
  }

  function ProposerShare(cfg: ChainConfig, fee: u64): nat {
    if fee >= BurnShare(cfg, fee) + TreasuryShare(cfg, fee)
    then fee - BurnShare(cfg, fee) - TreasuryShare(cfg, fee) else 0
  }

  /** The three shares add up to the fee, whatever the rounding. */
  lemma SharesAddUp(cfg: ChainConfig, fee: u64)
    requires ValidSplit(cfg)
    ensures BurnShare(cfg, fee) + TreasuryShare(cfg, fee) + ProposerShare(cfg, fee) == fee
  {
  }

  /** Add to a balance, creating the account if needed; saturates. */
  function Credit(s: Store, a: Address, amount: nat): Store {
    if amount == 0 then s
    else
      var acct := if GetAccount(s, a).Some? then GetAccount(s, a).value else AccountState(0, 0);
      SetAccount(s, a, acct.(balance := SatAdd(acct.balance, amount)))
  }

  function CountFee(cfg: ChainConfig, supply: SupplyInfo, fee: u64): SupplyInfo {
    Recomputed(supply.(
      totalFeesCollected := SatAdd(supply.totalFeesCollected, fee),
      totalBurned := SatAdd(supply.totalBurned, BurnShare(cfg, fee)),
      totalSupply := SatSub(supply.totalSupply, BurnShare(cfg, fee)),
      treasuryBalance := SatAdd(supply.treasuryBalance, TreasuryShare(cfg, fee))))
  }

  /** Split a positive fee between treasury, proposer and the fire, and book it. */
  function Distribute(cfg: ChainConfig, s: Store, fee: u64, proposer: Address): Store {
    if fee == 0 then s
    else
      var s1 := Credit(s, cfg.treasury, TreasuryShare(cfg, fee));
      var s2 := Credit(s1, proposer, ProposerShare(cfg, fee));
      SetSupply(s2, CountFee(cfg, GetSupply(s2), fee))
  }

  function FeePhase(cfg: ChainConfig, s: Store, tx: Transaction, proposer: Address): Result<Store, ExecutionError> {
    var fee := Fee(cfg, tx);
    if tx.maxFee < fee then Err(FeeTooLow)
    else
      var charged := Charge(s, tx, fee);
      if charged.Err? then charged else Ok(Distribute(cfg, charged.value, fee, proposer))
  }

  // ---------------------------------------------------------------------
  // Total of all balances
  // ---------------------------------------------------------------------

  ghost function SumOf<K>(m: map<K, nat>): nat {
    if m == map[] then 0 else var a :| a in m; m[a] + SumOf(m - {a})
  }

  lemma {:induction false} SumRemove<K>(m: map<K, nat>, a: K)
    requires a in m
    ensures SumOf(m) == m[a] + SumOf(m - {a})
  {
    var b :| b in m && SumOf(m) == m[b] + SumOf(m - {b});
    if a != b {
      SumRemove(m - {b}, a);
      assert m - {b} - {a} == m - {a} - {b};
      SumRemove(m - {a}, b);
    }
  }

  lemma SumUpdate<K>(m: map<K, nat>, a: K, x: nat)
    ensures SumOf(m[a := x]) == SumOf(m) - (if a in m then m[a] else 0) + x
    ensures a in m ==> m[a] <= SumOf(m)
  {
    SumRemove(m[a := x], a);
    assert m[a := x] - {a} == m - {a};
    if a in m {
      SumRemove(m, a);
    } else {
      assert m - {a} == m;
    }
  }

  ghost function Balances(s: Store): map<Address, nat> {
    map k | k in s && k.AccountKey? && s[k].AccountValue? :: k.owner := s[k].account.balance
  }

  ghost function Total(s: Store): nat {
    SumOf(Balances(s))
  }

  function BalanceOf(s: Store, a: Address): nat {
    if GetAccount(s, a).Some? then GetAccount(s, a).value.balance else 0
  }

  lemma BalancesLookup(s: Store, a: Address)
    ensures a in Balances(s) <==> GetAccount(s, a).Some?
    ensures a in Balances(s) ==> Balances(s)[a] == BalanceOf(s, a)
  {
  }

  lemma TotalAfterSet(s: Store, a: Address, acct: AccountState)
    ensures Total(SetAccount(s, a, acct)) == Total(s) - BalanceOf(s, a) + acct.balance
    ensures BalanceOf(s, a) <= Total(s)
  {
    BalancesLookup(s, a);
    SumUpdate(Balances(s), a, acct.balance);
    var after := SetAccount(s, a, acct);
    forall b ensures b in Balances(after) <==> b in Balances(s)[a := acct.balance] {
      BalancesLookup(after, b);
      BalancesLookup(s, b);
    }
    forall b | b in Balances(after) ensures Balances(after)[b] == Balances(s)[a := acct.balance][b] {
      BalancesLookup(after, b);
      BalancesLookup(s, b);
    }
    assert Balances(after) == Balances(s)[a := acct.balance];
  }

  /** Stores in which every account looks the same have one total. */
  lemma SameBalancesSameTotal(s: Store, t: Store)
    requires forall b :: GetAccount(s, b) == GetAccount(t, b)
    ensures Total(s) == Total(t)
  {
    forall b ensures b in Balances(t) <==> b in Balances(s) {
      BalancesLookup(t, b);
      BalancesLookup(s, b);
    }
    forall b | b in Balances(t) ensures Balances(t)[b] == Balances(s)[b] {
      BalancesLookup(t, b);
      BalancesLookup(s, b);
    }
    assert Balances(t) == Balances(s);
  }

  // ---------------------------------------------------------------------
  // Conservation
  // ---------------------------------------------------------------------

  /** Charging removes exactly the fee, whoever pays. */
  lemma ChargeTakesFee(s: Store, tx: Transaction, fee: u64)
    requires Charge(s, tx, fee).Ok?
    ensures Total(Charge(s, tx, fee).value) == Total(s) - fee
    ensures fee <= Total(s)
  {
    hide Total;
    var payer, signer := FeePayer(tx), GetAccount(s, tx.signer).value;
    if payer == tx.signer {
      TotalAfterSet(s, tx.signer, AccountState(Wrap(signer.nonce + 1), signer.balance - fee));
    } else {
      var sponsor := GetAccount(s, payer).value;
      var debited := sponsor.(balance := sponsor.balance - fee);
      TotalAfterSet(s, payer, debited);
      TotalAfterSet(SetAccount(s, payer, debited), tx.signer, signer.(nonce := Wrap(signer.nonce + 1)));
    }
  }

  /** A credit that does not saturate. */
  predicate CreditFits(s: Store, a: Address, amount: nat) {
    BalanceOf(s, a) + amount <= U64_MAX
  }

  lemma CreditAdds(s: Store, a: Address, amount: nat)
    ensures Total(Credit(s, a, amount)) <= Total(s) + amount
    ensures Total(Credit(s, a, amount)) == Total(s) + amount <==> CreditFits(s, a, amount)
    ensures GetSupply(Credit(s, a, amount)) == GetSupply(s)
  {
    hide Total;
    if amount > 0 {
      var acct := if GetAccount(s, a).Some? then GetAccount(s, a).value else AccountState(0, 0);
      TotalAfterSet(s, a, acct.(balance := SatAdd(acct.balance, amount)));
    }
  }

  /** Neither credit of the fee split saturates; the second is judged after the first. */
  predicate SplitFits(cfg: ChainConfig, s: Store, fee: u64, proposer: Address) {
    && CreditFits(s, cfg.treasury, TreasuryShare(cfg, fee))
    && CreditFits(Credit(s, cfg.treasury, TreasuryShare(cfg, fee)), proposer, ProposerShare(cfg, fee))
  }

  /**
   * Conservation of the fee phase, for every coincidence of signer, sponsor, treasury and
   * proposer: all balances together drop by exactly the burned share if and only if no credit
   * saturates.
   */
  lemma FeeConservation(cfg: ChainConfig, s: Store, tx: Transaction, proposer: Address)
    requires ValidSplit(cfg) && FeePhase(cfg, s, tx, proposer).Ok?
    ensures var fee := Fee(cfg, tx);
            var charged := Charge(s, tx, fee).value;
            Total(FeePhase(cfg, s, tx, proposer).value) == Total(s) - BurnShare(cfg, fee)
            <==> SplitFits(cfg, charged, fee, proposer)
    ensures BurnShare(cfg, Fee(cfg, tx)) <= Fee(cfg, tx) <= Total(s)
  {
    hide Total;
    var fee := Fee(cfg, tx);
    SharesAddUp(cfg, fee);
    ChargeTakesFee(s, tx, fee);
    var charged := Charge(s, tx, fee).value;
    if fee > 0 {
      var s1 := Credit(charged, cfg.treasury, TreasuryShare(cfg, fee));
      var s2 := Credit(s1, proposer, ProposerShare(cfg, fee));
      CreditAdds(charged, cfg.treasury, TreasuryShare(cfg, fee));
      CreditAdds(s1, proposer, ProposerShare(cfg, fee));
      SameBalancesSameTotal(s2, SetSupply(s2, CountFee(cfg, GetSupply(s2), fee)));
    }
  }

  /** The counters that only the fee phase and rewards move. */
  predicate CountersFit(cfg: ChainConfig, supply: SupplyInfo, fee: u64) {
    && supply.totalFeesCollected + fee <= U64_MAX
    && supply.totalBurned + BurnShare(cfg, fee) <= U64_MAX
    && supply.treasuryBalance + TreasuryShare(cfg, fee) <= U64_MAX
  }

  lemma ChargeKeepsSupply(s: Store, tx: Transaction, fee: u64)
    requires Charge(s, tx, fee).Ok?
    ensures GetSupply(Charge(s, tx, fee).value) == GetSupply(s)
  {
  }

  /**
   * If all balances together fit in a `u64` and the recorded supply covers them, nothing in the fee
   * phase saturates: balances and recorded supply drop by the same burned amount, so the supply
   * still covers them by the same margin.
   */
  lemma SupplyCoversBalances(cfg: ChainConfig, s: Store, tx: Transaction, proposer: Address)
    requires ValidSplit(cfg) && FeePhase(cfg, s, tx, proposer).Ok?
    requires Total(s) <= GetSupply(s).totalSupply
    ensures var s' := FeePhase(cfg, s, tx, proposer).value;
            var burned := BurnShare(cfg, Fee(cfg, tx));
            && Total(s') == Total(s) - burned
            && GetSupply(s').totalSupply == GetSupply(s).totalSupply - burned
  {
    hide Total;
    var fee := Fee(cfg, tx);
    FeeConservation(cfg, s, tx, proposer);
    SharesAddUp(cfg, fee);
    ChargeTakesFee(s, tx, fee);
    ChargeKeepsSupply(s, tx, fee);
    var charged := Charge(s, tx, fee).value;
    var s1 := Credit(charged, cfg.treasury, TreasuryShare(cfg, fee));
    CreditAdds(charged, cfg.treasury, TreasuryShare(cfg, fee));
    CreditAdds(s1, proposer, ProposerShare(cfg, fee));
    TotalAfterSet(charged, cfg.treasury, AccountState(0, 0));
    TotalAfterSet(s1, proposer, AccountState(0, 0));
    assert SplitFits(cfg, charged, fee, proposer);
  }

  /** The fee counters move by exactly the fee and its burned share while they fit. */
  lemma FeeCounters(cfg: ChainConfig, s: Store, tx: Transaction, proposer: Address)
    requires FeePhase(cfg, s, tx, proposer).Ok? && CountersFit(cfg, GetSupply(s), Fee(cfg, tx))
    ensures var before, after := GetSupply(s), GetSupply(FeePhase(cfg, s, tx, proposer).value);
            && after.totalFeesCollected == before.totalFeesCollected + Fee(cfg, tx)
            && after.totalBurned == before.totalBurned + BurnShare(cfg, Fee(cfg, tx))
  {
    var fee := Fee(cfg, tx);
    ChargeKeepsSupply(s, tx, fee);
    var charged := Charge(s, tx, fee).value;
    CreditAdds(charged, cfg.treasury, TreasuryShare(cfg, fee));
    CreditAdds(Credit(charged, cfg.treasury, TreasuryShare(cfg, fee)), proposer, ProposerShare(cfg, fee));
  }

  // ---------------------------------------------------------------------
  // Block reward
  // ---------------------------------------------------------------------

  /** Book the reward where there is a supply record. */
  function BookReward(s: Store, reward: u64): Store {
    if HasSupply(s) then
      var supply := GetSupply(s);
      SetSupply(s, Recomputed(supply.(
        totalSupply := SatAdd(supply.totalSupply, reward),
        totalMinted := SatAdd(supply.totalMinted, reward))))
    else s
  }

  function BlocksProduced(s: Store, v: Address): Option<u64> {
    if ValidatorKey(v) in s && s[ValidatorKey(v)].ValidatorValue? then Some(s[ValidatorKey(v)].blocksProduced) else None
  }

  /** Count the block for a registered validator. */
  function CountBlock(s: Store, v: Address): Store {
    if BlocksProduced(s, v).None? then s
    else s[ValidatorKey(v) := s[ValidatorKey(v)].(blocksProduced := SatAdd(BlocksProduced(s, v).value, 1))]
  }

  /** `apply_block_reward`; nothing happens for a zero reward or the zero address. */
  function ApplyBlockReward(cfg: ChainConfig, s: Store, proposer: Address): Store {
    if cfg.blockReward == 0 || proposer == ZERO_ADDRESS then s
    else CountBlock(BookReward(Credit(s, proposer, cfg.blockReward), cfg.blockReward), proposer)
  }

  function Minted(cfg: ChainConfig, proposer: Address): u64 {
    if proposer == ZERO_ADDRESS then 0 else cfg.blockReward
  }

  predicate HasSupply(s: Store) {
    SupplyKey in s && s[SupplyKey].SupplyValue?
  }

  /** Minting raises balances and recorded supply alike as long as the supply counter fits. */
  lemma RewardMints(cfg: ChainConfig, s: Store, proposer: Address)
    requires HasSupply(s)
    requires Total(s) <= GetSupply(s).totalSupply && GetSupply(s).totalSupply + cfg.blockReward <= U64_MAX
    ensures var s' := ApplyBlockReward(cfg, s, proposer);
            && HasSupply(s')
            && Total(s') == Total(s) + Minted(cfg, proposer)
            && GetSupply(s').totalSupply == GetSupply(s).totalSupply + Minted(cfg, proposer)
  {
    hide Total;
    if cfg.blockReward != 0 && proposer != ZERO_ADDRESS {
      var s1 := Credit(s, proposer, cfg.blockReward);
      CreditAdds(s, proposer, cfg.blockReward);
      TotalAfterSet(s, proposer, AccountState(0, 0));
      SameBalancesSameTotal(s1, BookReward(s1, cfg.blockReward));
      SameBalancesSameTotal(BookReward(s1, cfg.blockReward), ApplyBlockReward(cfg, s, proposer));
    }
  }

  /** The block counter of the proposer, and of nobody else, grows by one, if it is registered and rewarded. */
  lemma RewardCountsBlock(cfg: ChainConfig, s: Store, proposer: Address, v: Address)
    ensures BlocksProduced(ApplyBlockReward(cfg, s, proposer), v)
            == if v == proposer && Minted(cfg, proposer) > 0 && BlocksProduced(s, v).Some?
               then Some(SatAdd(BlocksProduced(s, v).value, 1)) else BlocksProduced(s, v)
  {
  }
}

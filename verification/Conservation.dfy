/** The total of all balances and the recorded supply over blocks and chains of blocks. */
module Conservation {
  import opened Basics
  import opened State
  import opened Ledger
  import opened Unbondings
  import opened Execution

  /** The recorded supply covers all balances; the rest is staked, locked or lost. */
  ghost predicate Covered(s: Store) {
    Total(s) <= GetSupply(s).totalSupply
  }

  // ---------------------------------------------------------------------
  // Value outside the balances
  // ---------------------------------------------------------------------

  /** What is staked, in escrow or in a pot, as a function of the store. */
  type Stakes = Store -> nat

  function StakeOf(s: Store, v: Address): Option<u64> {
    if ValidatorKey(v) in s && s[ValidatorKey(v)].ValidatorValue? then Some(s[ValidatorKey(v)].stake) else None
  }

  predicate SameAt(s: Store, t: Store, k: Key) {
    match k
    case AccountKey(_) => true
    case SessionKey(_, _) => true
    case UnbondingKey(_, _, _) => true
    case SupplyKey => true
    case ValidatorKey(v) => StakeOf(s, v) == StakeOf(t, v)
    case _ => Lookup(s, k) == Lookup(t, k)
  }

  /** Stakes sit neither in accounts, sessions, the supply record and unbonding entries nor in block counters. */
  ghost predicate Aside(stakes: Stakes) {
    forall s, t :: (forall k :: SameAt(s, t, k)) ==> stakes(s) == stakes(t)
  }

  /** All value there is: balances, unbonding entries and stakes. */
  ghost function Held(stakes: Stakes, s: Store): nat {
    Total(s) + Unbonding(s) + stakes(s)
  }

  /** The recorded supply covers it. */
  ghost predicate Backed(stakes: Stakes, s: Store) {
    Held(stakes, s) <= GetSupply(s).totalSupply
  }

  /** A change that leaves the recorded supply alone and all value within it. */
  ghost predicate BackingKept(stakes: Stakes, s: Store, s': Store) {
    Backed(stakes, s) ==>
      && Backed(stakes, s') && GetSupply(s').totalSupply == GetSupply(s).totalSupply
      && (HasSupply(s) ==> HasSupply(s'))
  }

  /** Handlers may move value between balances, stakes and unbonding entries, but create none. */
  ghost predicate NeverMints(stakes: Stakes, handler: Handler) {
    forall tx, s, h: u64 :: BackingKept(stakes, s, handler(tx, s, h).store)
  }

  /** Handlers that keep all value in balances, such as the transfer handler. */
  ghost predicate Conserves(stakes: Stakes, handler: Handler) {
    && NeverMints(stakes, handler)
    && forall tx, s, h: u64 | Backed(stakes, s) :: Total(handler(tx, s, h).store) == Total(s)
  }

  lemma BackedCovers(stakes: Stakes, s: Store)
    requires Backed(stakes, s)
    ensures Covered(s) && Total(s) + Unbonding(s) <= U64_MAX
  {
    hide Total, Unbonding;
  }

  /** A change of accounts, sessions and supply moves neither stakes nor unbonding entries. */
  lemma OthersStay(stakes: Stakes, s: Store, t: Store)
    requires Aside(stakes)
    requires forall k: Key :: !k.AccountKey? && !k.SessionKey? && !k.SupplyKey? ==> Lookup(s, k) == Lookup(t, k)
    ensures stakes(s) == stakes(t) && Unbonding(s) == Unbonding(t)
  {
    hide Unbonding;
    forall k ensures SameAt(s, t, k) {
      if k.ValidatorKey? {
        assert Lookup(s, k) == Lookup(t, k);
      }
    }
    SameEntriesSameSum(s, t);
  }

  lemma FeePhaseWrites(cfg: ChainConfig, s: Store, tx: Transaction, proposer: Address, k: Key)
    requires FeePhase(cfg, s, tx, proposer).Ok? && !k.AccountKey? && !k.SupplyKey?
    ensures Lookup(FeePhase(cfg, s, tx, proposer).value, k) == Lookup(s, k)
  {
  }

  // ---------------------------------------------------------------------
  // One turn
  // ---------------------------------------------------------------------

  lemma SessionTotal(s: Store, tx: Transaction, fee: u64)
    ensures Total(SpendSession(s, tx, fee)) == Total(s)
    ensures GetSupply(SpendSession(s, tx, fee)) == GetSupply(s)
    ensures HasSupply(s) ==> HasSupply(SpendSession(s, tx, fee))
  {
    SameBalancesSameTotal(s, SpendSession(s, tx, fee));
  }

  lemma FeePhaseKeepsRecord(cfg: ChainConfig, s: Store, tx: Transaction, proposer: Address)
    ensures FeePhase(cfg, s, tx, proposer).Ok? && HasSupply(s) ==> HasSupply(FeePhase(cfg, s, tx, proposer).value)
  {
  }

  /** What its handler adds to all balances together, below zero for what it locks away. */
  ghost function Flow(cfg: ChainConfig, handler: Handler, s: Store, tx: Transaction, height: u64, proposer: Address,
                      used: u64): int
  {
    if Dispatched(cfg, s, tx, proposer, used) then
      var charged := FeePhase(cfg, s, tx, proposer).value;
      Total(handler(tx, charged, height).store) - Total(charged)
    else 0
  }

  function Burns(cfg: ChainConfig, s: Store, tx: Transaction, proposer: Address, used: u64): nat {
    if Dispatched(cfg, s, tx, proposer, used) then BurnShare(cfg, Fee(cfg, tx)) else 0
  }

  /** The fee phase burns from balances and supply alike and leaves everything else. */
  lemma FeePhaseBacked(stakes: Stakes, cfg: ChainConfig, s: Store, tx: Transaction, proposer: Address)
    requires Aside(stakes) && ValidSplit(cfg) && Backed(stakes, s) && FeePhase(cfg, s, tx, proposer).Ok?
    ensures var s', burned := FeePhase(cfg, s, tx, proposer).value, BurnShare(cfg, Fee(cfg, tx));
            && Total(s') == Total(s) - burned && GetSupply(s').totalSupply == GetSupply(s).totalSupply - burned
            && Backed(stakes, s') && (HasSupply(s) ==> HasSupply(s'))
  {
    hide Total, FeePhase, Unbonding;
    var s' := FeePhase(cfg, s, tx, proposer).value;
    BackedCovers(stakes, s);
    SupplyCoversBalances(cfg, s, tx, proposer);
    FeePhaseKeepsRecord(cfg, s, tx, proposer);
    forall k: Key | !k.AccountKey? && !k.SessionKey? && !k.SupplyKey? ensures Lookup(s, k) == Lookup(s', k) {
      FeePhaseWrites(cfg, s, tx, proposer, k);
    }
    OthersStay(stakes, s, s');
  }

  lemma SessionBacked(stakes: Stakes, s: Store, tx: Transaction, fee: u64)
    requires Aside(stakes)
    ensures Held(stakes, SpendSession(s, tx, fee)) == Held(stakes, s)
  {
    hide Total, Unbonding;
    SessionTotal(s, tx, fee);
    OthersStay(stakes, s, SpendSession(s, tx, fee));
  }

  lemma TurnConserves(stakes: Stakes, cfg: ChainConfig, handler: Handler, s: Store, tx: Transaction, height: u64,
                      proposer: Address, used: u64)
    requires Aside(stakes) && ValidSplit(cfg) && NeverMints(stakes, handler) && Backed(stakes, s)
    ensures var s' := Turn(cfg, handler, s, tx, height, proposer, used).0;
            && Total(s') == Total(s) - Burns(cfg, s, tx, proposer, used)
                            + Flow(cfg, handler, s, tx, height, proposer, used)
            && GetSupply(s').totalSupply == GetSupply(s).totalSupply - Burns(cfg, s, tx, proposer, used)
            && Backed(stakes, s') && (HasSupply(s) ==> HasSupply(s'))
  {
    hide Total, FeePhase, Unbonding;
    hide SpendSession, Aside;
    if Dispatched(cfg, s, tx, proposer, used) {
      FeePhaseBacked(stakes, cfg, s, tx, proposer);
      var charged := FeePhase(cfg, s, tx, proposer).value;
      var o := handler(tx, charged, height);
      assert BackingKept(stakes, charged, o.store);
      hide Held;
      SessionTotal(o.store, tx, Fee(cfg, tx));
      SessionBacked(stakes, o.store, tx, Fee(cfg, tx));
    }
  }

  /** What a turn burns is on its receipt, or lost to a panic. */
  lemma BurnsAreReported(cfg: ChainConfig, handler: Handler, s: Store, tx: Transaction, height: u64, proposer: Address,
                         used: u64)
    ensures Burns(cfg, s, tx, proposer, used)
            == BurnShare(cfg, Turn(cfg, handler, s, tx, height, proposer, used).2.feeUsed)
               + (if LosesFee(cfg, handler, s, tx, height, proposer, used) then BurnShare(cfg, Fee(cfg, tx)) else 0)
  {
    hide FeePhase;
  }

  // ---------------------------------------------------------------------
  // One block
  // ---------------------------------------------------------------------

  ghost function BlockFlow(cfg: ChainConfig, handler: Handler, s: Store, txs: seq<Transaction>, height: u64,
                           proposer: Address, used: u64): int
    decreases |txs|
  {
    if txs == [] then 0
    else
      var (s1, used1, _) := Turn(cfg, handler, s, txs[0], height, proposer, used);
      Flow(cfg, handler, s, txs[0], height, proposer, used)
      + BlockFlow(cfg, handler, s1, txs[1..], height, proposer, used1)
  }

  /** Everything a block burns: on its receipts and lost to panics. */
  function BlockBurns(cfg: ChainConfig, handler: Handler, s: Store, txs: seq<Transaction>, height: u64,
                      proposer: Address): nat
  {
    BurnSum(cfg, BlockFrom(cfg, handler, s, txs, height, proposer, 0).1)
    + LostBurns(cfg, handler, s, txs, height, proposer, 0)
  }

  /**
   * Conservation over a whole block: the recorded supply drops by exactly the burned shares of the
   * fees on the receipts and of those lost to panics, and all balances together by the same, but for
   * what handlers move in and out of them.
   */
  lemma {:induction false} BlockConservation(stakes: Stakes, cfg: ChainConfig, handler: Handler, s: Store,
                                             txs: seq<Transaction>, height: u64, proposer: Address, used: u64)
    requires Aside(stakes) && ValidSplit(cfg) && NeverMints(stakes, handler) && Backed(stakes, s)
    ensures var (s', rs) := BlockFrom(cfg, handler, s, txs, height, proposer, used);
            var burned := BurnSum(cfg, rs) + LostBurns(cfg, handler, s, txs, height, proposer, used);
            && Total(s') == Total(s) - burned + BlockFlow(cfg, handler, s, txs, height, proposer, used)
            && GetSupply(s').totalSupply == GetSupply(s).totalSupply - burned
            && Backed(stakes, s') && (HasSupply(s) ==> HasSupply(s'))
    decreases |txs|
  {
    hide Total, Turn, Backed, NeverMints, Aside;
    hide LosesFee, Burns, Flow;
    if txs == [] {
    } else {
      TurnConserves(stakes, cfg, handler, s, txs[0], height, proposer, used);
      BurnsAreReported(cfg, handler, s, txs[0], height, proposer, used);
      var (s1, used1, receipt) := Turn(cfg, handler, s, txs[0], height, proposer, used);
      BlockConservation(stakes, cfg, handler, s1, txs[1..], height, proposer, used1);
      ConsSums(cfg, receipt, BlockFrom(cfg, handler, s1, txs[1..], height, proposer, used1).1);
    }
  }

  /** Handlers that keep all value in balances contribute no flow. */
  lemma {:induction false} ConservedBlockHasNoFlow(stakes: Stakes, cfg: ChainConfig, handler: Handler, s: Store,
                                                   txs: seq<Transaction>, height: u64, proposer: Address, used: u64)
    requires Aside(stakes) && ValidSplit(cfg) && Conserves(stakes, handler) && Backed(stakes, s)
    ensures BlockFlow(cfg, handler, s, txs, height, proposer, used) == 0
    decreases |txs|
  {
    hide Total, FeePhase, Backed, NeverMints, Aside;
    hide Turn;
    if txs == [] {
    } else {
      TurnConserves(stakes, cfg, handler, s, txs[0], height, proposer, used);
      if Dispatched(cfg, s, txs[0], proposer, used) {
        FeePhaseBacked(stakes, cfg, s, txs[0], proposer);
      }
      var (s1, used1, _) := Turn(cfg, handler, s, txs[0], height, proposer, used);
      ConservedBlockHasNoFlow(stakes, cfg, handler, s1, txs[1..], height, proposer, used1);
    }
  }

  // ---------------------------------------------------------------------
  // A chain of blocks
  // ---------------------------------------------------------------------

  datatype BlockInput = BlockInput(txs: seq<Transaction>, height: u64, proposer: Address)

  /** One committed block: mature unbondings, transactions, reward. */
  ghost function CommitBlock(cfg: ChainConfig, handler: Handler, s: Store, b: BlockInput): Store {
    var s0 := ReleaseMature(s, b.height);
    ApplyBlockReward(cfg, BlockFrom(cfg, handler, s0, b.txs, b.height, b.proposer, 0).0, b.proposer)
  }

  ghost function CommitChain(cfg: ChainConfig, handler: Handler, s: Store, blocks: seq<BlockInput>): Store
    decreases |blocks|
  {
    if blocks == [] then s else CommitChain(cfg, handler, CommitBlock(cfg, handler, s, blocks[0]), blocks[1..])
  }

  function MintedOver(cfg: ChainConfig, blocks: seq<BlockInput>): nat {
    if blocks == [] then 0 else Minted(cfg, blocks[0].proposer) + MintedOver(cfg, blocks[1..])
  }

  ghost function BurnedOver(cfg: ChainConfig, handler: Handler, s: Store, blocks: seq<BlockInput>): nat
    decreases |blocks|
  {
    if blocks == [] then 0
    else
      var b := blocks[0];
      BlockBurns(cfg, handler, ReleaseMature(s, b.height), b.txs, b.height, b.proposer)
      + BurnedOver(cfg, handler, CommitBlock(cfg, handler, s, b), blocks[1..])
  }

  /** What matures at a height. */
  ghost function Matured(s: Store, height: u64): int {
    Unbonding(s) - Unbonding(ReleaseMature(s, height))
  }

  /** What flows into the balances: matured unbondings and the effects of handlers. */
  ghost function FlowOver(cfg: ChainConfig, handler: Handler, s: Store, blocks: seq<BlockInput>): int
    decreases |blocks|
  {
    if blocks == [] then 0
    else
      var b := blocks[0];
      Matured(s, b.height) + BlockFlow(cfg, handler, ReleaseMature(s, b.height), b.txs, b.height, b.proposer, 0)
      + FlowOver(cfg, handler, CommitBlock(cfg, handler, s, b), blocks[1..])
  }

  /** Mature unbondings stay within the recorded supply. */
  lemma ReleaseBacked(stakes: Stakes, s: Store, height: u64)
    requires Aside(stakes) && Backed(stakes, s)
    ensures var s0 := ReleaseMature(s, height);
            && Backed(stakes, s0) && Total(s0) == Total(s) + Matured(s, height) && Matured(s, height) >= 0
            && GetSupply(s0) == GetSupply(s) && (HasSupply(s) ==> HasSupply(s0))
  {
    hide Total, Unbonding, ReleaseMature;
    var s0 := ReleaseMature(s, height);
    BackedCovers(stakes, s);
    ReleaseConserves(s, height);
    forall k ensures SameAt(s, s0, k) {
      assert k.ValidatorKey? ==> Lookup(s, k) == Lookup(s0, k);
    }
    assert Lookup(s, SupplyKey) == Lookup(s0, SupplyKey);
  }

  lemma RewardBacked(stakes: Stakes, cfg: ChainConfig, s: Store, proposer: Address)
    requires Aside(stakes) && HasSupply(s) && Backed(stakes, s)
    requires GetSupply(s).totalSupply + cfg.blockReward <= U64_MAX
    ensures var s' := ApplyBlockReward(cfg, s, proposer);
            && HasSupply(s') && Backed(stakes, s') && Total(s') == Total(s) + Minted(cfg, proposer)
            && GetSupply(s').totalSupply == GetSupply(s).totalSupply + Minted(cfg, proposer)
  {
    hide Total, Unbonding, ApplyBlockReward;
    var s' := ApplyBlockReward(cfg, s, proposer);
    BackedCovers(stakes, s);
    RewardMints(cfg, s, proposer);
    forall k ensures SameAt(s, s', k) && (k.UnbondingKey? ==> Lookup(s, k) == Lookup(s', k)) {
      RewardWrites(cfg, s, proposer, k);
    }
    SameEntriesSameSum(s, s');
  }

  lemma RewardWrites(cfg: ChainConfig, s: Store, proposer: Address, k: Key)
    ensures var s' := ApplyBlockReward(cfg, s, proposer);
            SameAt(s, s', k) && (k.UnbondingKey? ==> Lookup(s, k) == Lookup(s', k))
  {
  }

  lemma BlockSupply(stakes: Stakes, cfg: ChainConfig, handler: Handler, s: Store, b: BlockInput)
    requires Aside(stakes) && ValidSplit(cfg) && NeverMints(stakes, handler) && HasSupply(s) && Backed(stakes, s)
    requires GetSupply(s).totalSupply + cfg.blockReward <= U64_MAX
    ensures var s0, s' := ReleaseMature(s, b.height), CommitBlock(cfg, handler, s, b);
            var burned := BlockBurns(cfg, handler, s0, b.txs, b.height, b.proposer);
            && HasSupply(s') && Backed(stakes, s')
            && Total(s') == Total(s) + Matured(s, b.height) + Minted(cfg, b.proposer) - burned
                            + BlockFlow(cfg, handler, s0, b.txs, b.height, b.proposer, 0)
            && GetSupply(s').totalSupply == GetSupply(s).totalSupply + Minted(cfg, b.proposer) - burned
  {
    hide Total, BlockFrom, Backed, NeverMints, Aside, ReleaseMature, Matured;
    hide ApplyBlockReward, BurnSum, BlockFlow, LostBurns;
    var s0 := ReleaseMature(s, b.height);
    ReleaseBacked(stakes, s, b.height);
    BlockConservation(stakes, cfg, handler, s0, b.txs, b.height, b.proposer, 0);
    RewardBacked(stakes, cfg, BlockFrom(cfg, handler, s0, b.txs, b.height, b.proposer, 0).0, b.proposer);
  }

  /**
   * Over any chain of blocks the recorded supply changes by exactly what was minted less what was
   * burned, all balances together by the same plus what matures and what handlers move in and out,
   * and the supply goes on covering all value there is.
   */
  lemma {:induction false} ChainSupply(stakes: Stakes, cfg: ChainConfig, handler: Handler, s: Store,
                                       blocks: seq<BlockInput>)
    requires Aside(stakes) && ValidSplit(cfg) && NeverMints(stakes, handler) && HasSupply(s) && Backed(stakes, s)
    requires GetSupply(s).totalSupply + |blocks| * cfg.blockReward <= U64_MAX
    ensures var s' := CommitChain(cfg, handler, s, blocks);
            var change := MintedOver(cfg, blocks) - BurnedOver(cfg, handler, s, blocks);
            && GetSupply(s').totalSupply == GetSupply(s).totalSupply + change
            && Total(s') == Total(s) + change + FlowOver(cfg, handler, s, blocks)
            && Backed(stakes, s')
    decreases |blocks|
  {
    hide Total, CommitBlock, Backed, NeverMints, Aside, ReleaseMature, Matured;
    hide BlockBurns, BlockFlow;
    if blocks == [] {
    } else {
      var s1 := CommitBlock(cfg, handler, s, blocks[0]);
      assert |blocks| * cfg.blockReward == cfg.blockReward + |blocks[1..]| * cfg.blockReward;
      BlockSupply(stakes, cfg, handler, s, blocks[0]);
      ChainSupply(stakes, cfg, handler, s1, blocks[1..]);
    }
  }
}

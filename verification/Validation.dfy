/** Validation (`validator.rs`) and runs of transactions that were validated where they ran. */
module Validation {
  import opened Basics
  import opened State
  import opened Actions
  import opened Ledger
  import opened Execution
  import opened Transfer

  predicate GrantValid(grant: SessionGrant, height: u64) {
    !grant.revoked && height <= grant.expiresAt
  }

  predicate Permits(grant: SessionGrant, name: string) {
    grant.anyAction || name in grant.actions
  }

  predicate CanSpend(grant: SessionGrant, amount: u64) {
    SatAdd(grant.amountSpent, amount) <= grant.spendingLimit
  }

  /** What the signer's own balance has to cover. */
  function SignerNeeds(tx: Transaction): u64 {
    match tx.action
    case Transfer(_, amount) => if tx.sponsor.Some? then amount else SatAdd(amount, tx.maxFee)
    case DelegateStake(_, amount) => if tx.sponsor.Some? then amount else SatAdd(amount, tx.maxFee)
    case _ => if tx.sponsor.Some? then 0 else tx.maxFee
  }

  function CheckBalances(s: Store, tx: Transaction, account: AccountState): Result<(), ExecutionError> {
    var sponsor := if tx.sponsor.Some? then GetAccount(s, tx.sponsor.value) else None;
    if tx.sponsor.Some? && sponsor.None? then Err(SponsorAccountNotFound(tx.sponsor.value))
    else if tx.sponsor.Some? && sponsor.value.balance < tx.maxFee then
      Err(InsufficientBalance(tx.maxFee, sponsor.value.balance))
    else if tx.sponsor.None? && account.balance < tx.maxFee then
      Err(InsufficientBalance(tx.maxFee, account.balance))
    else if account.balance < SignerNeeds(tx) then Err(InsufficientBalance(SignerNeeds(tx), account.balance))
    else Ok(())
  }

  function CheckSession(s: Store, tx: Transaction, height: u64): Result<(), ExecutionError> {
    if tx.session.None? then Ok(())
    else
      var found := GetSession(s, tx.signer, tx.session.value);
      if found.None? then Err(SessionNotFound)
      else if found.value.revoked then Err(SessionRevoked)
      else if !GrantValid(found.value, height) then Err(SessionExpired)
      else if !Permits(found.value, Label(tx.action)) then Err(SessionActionNotPermitted)
      else if !CanSpend(found.value, tx.maxFee) then Err(SessionSpendingLimitExceeded)
      else Ok(())
  }

  /** `validate_stateful_at_height`; a zero height stands for the height recorded in the state. */
  function ValidateStateful(s: Store, tx: Transaction, currentHeight: u64, chainHeight: u64): Result<(),
                            ExecutionError> {
    var found := GetAccount(s, tx.signer);
    if found.None? then Err(AccountNotFound(tx.signer))
    else if found.value.nonce != tx.nonce then Err(InvalidNonce(found.value.nonce, tx.nonce))
    else if CheckBalances(s, tx, found.value).Err? then CheckBalances(s, tx, found.value)
    else CheckSession(s, tx, if currentHeight > 0 then currentHeight else chainHeight)
  }

  /** `validate_transaction_input` for the actions whose fields are modelled. */
  function ValidateInput(tx: Transaction): Result<(), ExecutionError> {
    var refused := match tx.action
      case Transfer(to, amount) => amount == 0 || to == tx.signer || to == ZERO_ADDRESS
      case DelegateStake(_, amount) => amount == 0
      case DistributeReward(rewards) => rewards == [] || exists i :: 0 <= i < |rewards| && rewards[i].1 == 0
      case _ => false;
    if refused then Err(InvalidInput) else Ok(())
  }

  /**
   * `validate_stateless_with_config` but for chain, size, hash and signature; inputs are checked
   * with a configuration only.
   */
  function ValidateStateless(tx: Transaction, configured: bool): Result<(), ExecutionError> {
    if tx.signer == ZERO_ADDRESS then Err(ZeroAddressSigner)
    else if tx.maxFee == 0 then Err(FeeTooLow)
    else if tx.sponsor == Some(ZERO_ADDRESS) then Err(ZeroAddressSponsor)
    else if tx.sponsor == Some(tx.signer) then Err(SponsorIsSigner)
    else if configured then ValidateInput(tx)
    else Ok(())
  }

  /** The two stages of validation before execution. */
  function Validate(s: Store, tx: Transaction, configured: bool, currentHeight: u64, chainHeight: u64)
    : Result<(), ExecutionError>
  {
    if ValidateStateless(tx, configured).Err? then ValidateStateless(tx, configured)
    else ValidateStateful(s, tx, currentHeight, chainHeight)
  }

  // ---------------------------------------------------------------------
  // One transaction
  // ---------------------------------------------------------------------

  /** The fee phase takes a validated transaction exactly when its maximum fee covers the actual one. */
  lemma ValidatedIsCharged(cfg: ChainConfig, s: Store, tx: Transaction, height: u64, chainHeight: u64,
                           proposer: Address)
    requires ValidateStateful(s, tx, height, chainHeight).Ok?
    ensures FeePhase(cfg, s, tx, proposer).Ok? <==> Fee(cfg, tx) <= tx.maxFee
  {
  }

  /** What the signer still owns once the fee is taken, before any share comes back to it. */
  function LeftAfterFee(cfg: ChainConfig, s: Store, tx: Transaction): int {
    BalanceOf(s, tx.signer) - (if FeePayer(tx) == tx.signer then Fee(cfg, tx) else 0)
  }

  /**
   * A transfer that passes stateful validation goes through exactly when the signer owns the amount
   * after the fee phase.
   */
  lemma TransferSucceedsExactly(cfg: ChainConfig, s: Store, tx: Transaction, height: u64, chainHeight: u64,
                                proposer: Address)
    requires ValidateStateful(s, tx, height, chainHeight).Ok? && Fee(cfg, tx) <= tx.maxFee && tx.action.Transfer?
    ensures var r := ExecuteTransaction(cfg, TransferHandler, s, tx, height, proposer).1;
            && r.Executed?
            && (r.receipt.success <==>
                  tx.action.amount <= LeftAfterFee(cfg, s, tx) + Gain(cfg, Fee(cfg, tx), proposer, tx.signer))
  {
    hide Distribute, MoveFunds;
    ValidatedIsCharged(cfg, s, tx, height, chainHeight, proposer);
    var charged := Charge(s, tx, Fee(cfg, tx)).value;
    assert BalanceOf(charged, tx.signer) == LeftAfterFee(cfg, s, tx);
    DistributeSpares(cfg, charged, Fee(cfg, tx), proposer, tx.signer);
    DistributeBalance(cfg, charged, Fee(cfg, tx), proposer, tx.signer);
    TransferMoves(Distribute(cfg, charged, Fee(cfg, tx), proposer), tx.signer, tx.action.to, tx.action.amount,
                  tx.signer);
  }

  /**
   * A validated transfer succeeds, whatever the state, unless it has no sponsor and amount and fee
   * together pass `u64::MAX` by more than the signer gets back of the fee.
   */
  lemma ValidatedTransferSucceeds(cfg: ChainConfig, s: Store, tx: Transaction, configured: bool, height: u64,
                                  chainHeight: u64, proposer: Address)
    requires Validate(s, tx, configured, height, chainHeight).Ok? && Fee(cfg, tx) <= tx.maxFee && tx.action.Transfer?
    ensures var r := ExecuteTransaction(cfg, TransferHandler, s, tx, height, proposer).1;
            && r.Executed?
            && (r.receipt.success <==>
                  || tx.sponsor.Some?
                  || tx.action.amount + Fee(cfg, tx) <= U64_MAX + Gain(cfg, Fee(cfg, tx), proposer, tx.signer))
  {
    hide ExecuteTransaction, Gain;
    TransferSucceedsExactly(cfg, s, tx, height, chainHeight, proposer);
    assert CheckBalances(s, tx, GetAccount(s, tx.signer).value).Ok?;
  }

  /**
   * The edge: the saturated sum of amount and maximum fee is covered, the amount alone is not once
   * the fee is taken.
   */
  lemma EdgeTransferFails()
    ensures var cfg := ChainConfig(0, 0, 1, 1_000_000, 0, 0, Address(8), 0);
            var s: Store := map[AccountKey(Address(1)) := AccountValue(AccountState(0, U64_MAX))];
            var tx := Transaction(Address(1), 0, 5_000, None, None, Action.Transfer(Address(2), U64_MAX), 200);
            var r := ExecuteTransaction(cfg, TransferHandler, s, tx, 1, Address(9)).1;
            Validate(s, tx, true, 1, 0).Ok? && r.Executed? && !r.receipt.success && r.receipt.feeUsed == 5_000
  {
    var cfg := ChainConfig(0, 0, 1, 1_000_000, 0, 0, Address(8), 0);
    var s: Store := map[AccountKey(Address(1)) := AccountValue(AccountState(0, U64_MAX))];
    var tx := Transaction(Address(1), 0, 5_000, None, None, Action.Transfer(Address(2), U64_MAX), 200);
    hide FeePhase, TransferHandler;
    assert Fee(cfg, tx) == 5_000;
    ValidatedTransferSucceeds(cfg, s, tx, true, 1, 0, Address(9));
  }

  // ---------------------------------------------------------------------
  // Validated runs
  // ---------------------------------------------------------------------

  datatype Entry = Entry(tx: Transaction, height: u64, chainHeight: u64, proposer: Address)

  function After(cfg: ChainConfig, handler: Handler, s: Store, e: Entry): Store {
    ExecuteTransaction(cfg, handler, s, e.tx, e.height, e.proposer).0
  }

  predicate Admitted(cfg: ChainConfig, s: Store, e: Entry) {
    ValidateStateful(s, e.tx, e.height, e.chainHeight).Ok? && Fee(cfg, e.tx) <= e.tx.maxFee
  }

  /** Every transaction passes validation in the state it runs in, and its maximum fee is enough. */
  predicate ValidatedRun(cfg: ChainConfig, handler: Handler, s: Store, run: seq<Entry>)
    decreases |run|
  {
    run != [] ==> (Admitted(cfg, s, run[0]) && ValidatedRun(cfg, handler, After(cfg, handler, s, run[0]), run[1..]))
  }

  /** How many of the first `n` transactions a signer signed. */
  function SignedBefore(run: seq<Entry>, n: nat, a: Address): nat
    requires n <= |run|
  {
    if n == 0 then 0 else (if run[0].tx.signer == a then 1 else 0) + SignedBefore(run[1..], n - 1, a)
  }

  function NonceAt(s: Store, a: Address): u64 {
    if GetAccount(s, a).Some? then GetAccount(s, a).value.nonce else 0
  }

  lemma FeePhaseNewAccounts(cfg: ChainConfig, s: Store, tx: Transaction, proposer: Address, a: Address)
    requires FeePhase(cfg, s, tx, proposer).Ok? && GetAccount(s, a).None?
    ensures NonceOf(FeePhase(cfg, s, tx, proposer).value, a) in {None, Some(0)}
  {
    hide Charge;
    var charged := Charge(s, tx, Fee(cfg, tx)).value;
    assert GetAccount(charged, a).None? by { ChargeNewAccounts(s, tx, Fee(cfg, tx), a); }
  }

  lemma ChargeNewAccounts(s: Store, tx: Transaction, fee: u64, a: Address)
    requires Charge(s, tx, fee).Ok? && GetAccount(s, a).None?
    ensures GetAccount(Charge(s, tx, fee).value, a).None?
  {
  }

  /** One admitted transaction moves its signer's nonce by one and no other nonce. */
  lemma NonceStep(cfg: ChainConfig, handler: Handler, s: Store, e: Entry, a: Address)
    requires KeepsNonces(handler) && Admitted(cfg, s, e)
    ensures NonceAt(After(cfg, handler, s, e), a) == Wrap(NonceAt(s, a) + (if e.tx.signer == a then 1 else 0))
  {
    hide FeePhase;
    ValidatedIsCharged(cfg, s, e.tx, e.height, e.chainHeight, e.proposer);
    var charged := FeePhase(cfg, s, e.tx, e.proposer).value;
    if GetAccount(s, a).Some? {
      FeePhaseNonces(cfg, s, e.tx, e.proposer, a);
    } else {
      FeePhaseNewAccounts(cfg, s, e.tx, e.proposer, a);
    }
    var o := handler(e.tx, charged, e.height);
    assert GetAccount(charged, a).Some? ==> NonceOf(o.store, a) == NonceOf(charged, a);
    assert GetAccount(charged, a).None? ==> NonceOf(o.store, a) in {None, Some(0)};
  }

  /**
   * Over a validated run the nonces of each signer count up one by one from its nonce at the start:
   * they are consecutive, in the arithmetic of a `u64`.
   */
  lemma {:induction false} NoncesConsecutive(cfg: ChainConfig, handler: Handler, s: Store, run: seq<Entry>, i: nat)
    requires KeepsNonces(handler) && ValidatedRun(cfg, handler, s, run) && i < |run|
    ensures var a := run[i].tx.signer;
            run[i].tx.nonce == Wrap(NonceAt(s, a) + SignedBefore(run, i, a))
    decreases i
  {
    hide ExecuteTransaction, Wrap, KeepsNonces, NonceAt, Admitted;
    if i == 0 {
      AdmittedNonce(cfg, s, run[0]);
    } else {
      var a := run[i].tx.signer;
      var s1 := After(cfg, handler, s, run[0]);
      NonceStep(cfg, handler, s, run[0], a);
      NoncesConsecutive(cfg, handler, s1, run[1..], i - 1);
      WrapExactly(NonceAt(s, a) + (if run[0].tx.signer == a then 1 else 0), SignedBefore(run[1..], i - 1, a));
    }
  }

  lemma AdmittedNonce(cfg: ChainConfig, s: Store, e: Entry)
    requires Admitted(cfg, s, e)
    ensures e.tx.nonce == NonceAt(s, e.tx.signer) == Wrap(NonceAt(s, e.tx.signer))
  {
  }

  lemma {:induction false} SignedBetween(run: seq<Entry>, i: nat, j: nat, a: Address)
    requires i < j <= |run|
    ensures SignedBefore(run, i, a) <= SignedBefore(run, j, a) <= SignedBefore(run, i, a) + (j - i)
    ensures run[i].tx.signer == a ==> SignedBefore(run, i, a) < SignedBefore(run, j, a)
    decreases j
  {
    if j == 1 {
    } else if i == 0 {
      SignedBetween(run[1..], 0, j - 1, a);
    } else {
      SignedBetween(run[1..], i - 1, j - 1, a);
    }
  }

  /** No signer uses a nonce twice within 2^64 transactions. */
  lemma NoncesNeverRepeat(cfg: ChainConfig, handler: Handler, s: Store, run: seq<Entry>, i: nat, j: nat)
    requires KeepsNonces(handler) && ValidatedRun(cfg, handler, s, run)
    requires i < j < |run| && j - i <= U64_MAX
    requires run[i].tx.signer == run[j].tx.signer
    ensures run[i].tx.nonce != run[j].tx.nonce
  {
    hide Wrap, ValidatedRun, KeepsNonces, NonceAt;
    var a := run[i].tx.signer;
    NoncesConsecutive(cfg, handler, s, run, i);
    NoncesConsecutive(cfg, handler, s, run, j);
    SignedBetween(run, i, j, a);
    WrapSeparates(NonceAt(s, a) + SignedBefore(run, i, a), NonceAt(s, a) + SignedBefore(run, j, a));
  }

  lemma WrapSeparates(x: nat, y: nat)
    requires x < y <= x + U64_MAX
    ensures Wrap(x) != Wrap(y)
  {
  }

  // ---------------------------------------------------------------------
  // Sessions
  // ---------------------------------------------------------------------

  /**
   * What handlers may do to session grants at a height: keep the spending and limit of a grant, or put
   * a fresh grant where there was none valid. Nothing in the program deletes a grant.
   */
  predicate GrantKept(before: Option<SessionGrant>, after: Option<SessionGrant>, height: u64) {
    || before == after == None
    || (before.Some? && after.Some? && after.value.amountSpent == before.value.amountSpent
        && after.value.spendingLimit == before.value.spendingLimit)
    || ((before.None? || !GrantValid(before.value, height)) && after.Some? && after.value.amountSpent == 0)
  }

  ghost predicate KeepsSessions(handler: Handler) {
    forall tx, s, h: u64, granter, session ::
      GrantKept(GetSession(s, granter, session), GetSession(handler(tx, s, h).store, granter, session), h)
  }

  /** `execute_create_session`, the session address given. */
  function CreateSession(s: Store, granter: Address, session: Address, grant: SessionGrant,
                         height: u64): Option<Store> {
    if grant.expiresAt <= height then None
    else
      var existing := GetSession(s, granter, session);
      if existing.Some? && GrantValid(existing.value, height) then None
      else Some(s[SessionKey(granter, session) := SessionValue(grant.(amountSpent := 0, revoked := false))])
  }

  /** `execute_revoke_session`. */
  function RevokeSession(s: Store, granter: Address, session: Address): Result<Store, ExecutionError> {
    var existing := GetSession(s, granter, session);
    if existing.None? then Err(SessionNotFound)
    else if existing.value.revoked then Err(SessionRevoked)
    else Ok(s[SessionKey(granter, session) := SessionValue(existing.value.(revoked := true))])
  }

  /** Both session actions stay within what the handler contract allows. */
  lemma SessionActionsKeepGrants(s: Store, granter: Address, session: Address, grant: SessionGrant, height: u64,
                                 g: Address, k: Address)
    ensures var s' := CreateSession(s, granter, session, grant, height);
            s'.Some? ==> GrantKept(GetSession(s, g, k), GetSession(s'.value, g, k), height)
    ensures var s' := RevokeSession(s, granter, session);
            s'.Ok? ==> GrantKept(GetSession(s, g, k), GetSession(s'.value, g, k), height)
    ensures var s' := RevokeSession(s, granter, session);
            s'.Ok? ==> !GrantValid(GetSession(s'.value, granter, session).value, height)
  {
  }

  ghost predicate WithinLimits(s: Store) {
    forall granter, session :: GetSession(s, granter, session).Some? ==>
      GetSession(s, granter, session).value.amountSpent <= GetSession(s, granter, session).value.spendingLimit
  }

  lemma FeePhaseKeepsSessions(cfg: ChainConfig, s: Store, tx: Transaction, proposer: Address, g: Address, k: Address)
    requires FeePhase(cfg, s, tx, proposer).Ok?
    ensures GetSession(FeePhase(cfg, s, tx, proposer).value, g, k) == GetSession(s, g, k)
  {
  }

  predicate Succeeds(cfg: ChainConfig, handler: Handler, s: Store, e: Entry) {
    var r := ExecuteTransaction(cfg, handler, s, e.tx, e.height, e.proposer).1;
    r.Executed? && r.receipt.success
  }

  /** The fee a transaction adds to the counter of a session. */
  function Metered(cfg: ChainConfig, handler: Handler, s: Store, e: Entry, g: Address, k: Address): nat {
    if e.tx.signer == g && e.tx.session == Some(k) && Succeeds(cfg, handler, s, e) then Fee(cfg, e.tx) else 0
  }

  /** The transaction's own grant survives its handler, and its counter takes the fee of a success. */
  lemma OwnSessionStep(cfg: ChainConfig, handler: Handler, s: Store, e: Entry)
    requires KeepsSessions(handler) && Admitted(cfg, s, e) && e.tx.session.Some?
    ensures var g, k := e.tx.signer, e.tx.session.value;
            var before, after := GetSession(s, g, k), GetSession(After(cfg, handler, s, e), g, k);
            && before.Some? && after.Some? && CanSpend(before.value, e.tx.maxFee)
            && after.value.spendingLimit == before.value.spendingLimit
            && after.value.amountSpent == Wrap(before.value.amountSpent + Metered(cfg, handler, s, e, g, k))
  {
    hide FeePhase;
    ValidatedIsCharged(cfg, s, e.tx, e.height, e.chainHeight, e.proposer);
    var g, k := e.tx.signer, e.tx.session.value;
    var charged := FeePhase(cfg, s, e.tx, e.proposer).value;
    FeePhaseKeepsSessions(cfg, s, e.tx, e.proposer, g, k);
    assert CheckSession(s, e.tx, if e.height > 0 then e.height else e.chainHeight).Ok?;
    var o := handler(e.tx, charged, e.height);
    assert GrantKept(GetSession(charged, g, k), GetSession(o.store, g, k), e.height);
  }

  lemma OtherSessionStep(cfg: ChainConfig, handler: Handler, s: Store, e: Entry, g: Address, k: Address)
    requires KeepsSessions(handler) && Admitted(cfg, s, e) && !(g == e.tx.signer && Some(k) == e.tx.session)
    ensures GrantKept(GetSession(s, g, k), GetSession(After(cfg, handler, s, e), g, k), e.height)
  {
    hide FeePhase;
    ValidatedIsCharged(cfg, s, e.tx, e.height, e.chainHeight, e.proposer);
    var charged := FeePhase(cfg, s, e.tx, e.proposer).value;
    FeePhaseKeepsSessions(cfg, s, e.tx, e.proposer, g, k);
    var o := handler(e.tx, charged, e.height);
    assert GrantKept(GetSession(charged, g, k), GetSession(o.store, g, k), e.height);
  }

  lemma LimitsStep(cfg: ChainConfig, handler: Handler, s: Store, e: Entry)
    requires KeepsSessions(handler) && Admitted(cfg, s, e) && WithinLimits(s)
    ensures WithinLimits(After(cfg, handler, s, e))
  {
    hide After, Admitted, KeepsSessions, GetSession, Fee, Succeeds;
    var s' := After(cfg, handler, s, e);
    forall g, k | GetSession(s', g, k).Some?
      ensures GetSession(s', g, k).value.amountSpent <= GetSession(s', g, k).value.spendingLimit
    {
      if g == e.tx.signer && Some(k) == e.tx.session {
        OwnSessionStep(cfg, handler, s, e);
        FeeBelowMax(cfg, s, e);
      } else {
        OtherSessionStep(cfg, handler, s, e, g, k);
      }
    }
  }

  lemma FeeBelowMax(cfg: ChainConfig, s: Store, e: Entry)
    requires Admitted(cfg, s, e)
    ensures Fee(cfg, e.tx) <= e.tx.maxFee
  {
  }

  function RunFrom(cfg: ChainConfig, handler: Handler, s: Store, run: seq<Entry>): Store
    decreases |run|
  {
    if run == [] then s else RunFrom(cfg, handler, After(cfg, handler, s, run[0]), run[1..])
  }

  /** Over a validated run no session passes its spending limit. */
  lemma {:induction false} SessionsStayWithinLimits(cfg: ChainConfig, handler: Handler, s: Store, run: seq<Entry>)
    requires KeepsSessions(handler) && ValidatedRun(cfg, handler, s, run) && WithinLimits(s)
    ensures WithinLimits(RunFrom(cfg, handler, s, run))
    decreases |run|
  {
    hide After, Admitted, WithinLimits;
    if run == [] {
    } else {
      LimitsStep(cfg, handler, s, run[0]);
      SessionsStayWithinLimits(cfg, handler, After(cfg, handler, s, run[0]), run[1..]);
    }
  }

  function MeteredOver(cfg: ChainConfig, handler: Handler, s: Store, run: seq<Entry>, g: Address, k: Address): nat
    decreases |run|
  {
    if run == [] then 0
    else
      Metered(cfg, handler, s, run[0], g, k)
      + MeteredOver(cfg, handler, After(cfg, handler, s, run[0]), run[1..], g, k)
  }

  /** The grant is valid at the height of every transaction of the run. */
  predicate LiveThroughout(cfg: ChainConfig, handler: Handler, s: Store, run: seq<Entry>, g: Address, k: Address)
    decreases |run|
  {
    run != [] ==>
      && GetSession(s, g, k).Some?
      && GrantValid(GetSession(s, g, k).value, run[0].height)
      && LiveThroughout(cfg, handler, After(cfg, handler, s, run[0]), run[1..], g, k)
  }

  /** While a grant is live, each transaction moves its counter by what it metered, below any limit but `u64::MAX`. */
  lemma MeterStep(cfg: ChainConfig, handler: Handler, s: Store, e: Entry, g: Address, k: Address)
    requires KeepsSessions(handler) && Admitted(cfg, s, e)
    requires GetSession(s, g, k).Some? && GrantValid(GetSession(s, g, k).value, e.height)
    requires GetSession(s, g, k).value.spendingLimit < U64_MAX
    requires GetSession(s, g, k).value.amountSpent <= GetSession(s, g, k).value.spendingLimit
    ensures var before, after := GetSession(s, g, k).value, GetSession(After(cfg, handler, s, e), g, k);
            && after.Some? && after.value.spendingLimit == before.spendingLimit
            && after.value.amountSpent == before.amountSpent + Metered(cfg, handler, s, e, g, k)
            && after.value.amountSpent <= before.spendingLimit
  {
    hide After, Admitted, Succeeds;
    if g == e.tx.signer && e.tx.session == Some(k) {
      OwnSessionStep(cfg, handler, s, e);
      FeeBelowMax(cfg, s, e);
    } else {
      OtherSessionStep(cfg, handler, s, e, g, k);
    }
  }

  /**
   * The meter of a session: over a validated run through which the grant stays valid, its counter
   * grows by exactly the fees of the successful transactions signed with it, which together stay
   * within what was left of the limit.
   */
  lemma {:induction false} SessionMeter(cfg: ChainConfig, handler: Handler, s: Store, run: seq<Entry>, g: Address,
                                        k: Address)
    requires KeepsSessions(handler) && ValidatedRun(cfg, handler, s, run)
    requires GetSession(s, g, k).Some? && LiveThroughout(cfg, handler, s, run, g, k)
    requires GetSession(s, g, k).value.spendingLimit < U64_MAX
    requires GetSession(s, g, k).value.amountSpent <= GetSession(s, g, k).value.spendingLimit
    ensures var before, after := GetSession(s, g, k).value, GetSession(RunFrom(cfg, handler, s, run), g, k);
            && after.Some?
            && after.value.amountSpent == before.amountSpent + MeteredOver(cfg, handler, s, run, g, k)
            && before.amountSpent + MeteredOver(cfg, handler, s, run, g, k) <= before.spendingLimit
    decreases |run|
  {
    hide After, Admitted, Metered;
    if run == [] {
    } else {
      MeterStep(cfg, handler, s, run[0], g, k);
      SessionMeter(cfg, handler, After(cfg, handler, s, run[0]), run[1..], g, k);
    }
  }

  /** The meter works for every grant with this limit. */
  ghost predicate MeterHolds(limit: u64) {
    forall cfg, handler: Handler, s, run, g, k ::
      && KeepsSessions(handler) && ValidatedRun(cfg, handler, s, run)
      && GetSession(s, g, k).Some? && LiveThroughout(cfg, handler, s, run, g, k)
      && GetSession(s, g, k).value.amountSpent <= GetSession(s, g, k).value.spendingLimit == limit
      ==> CounterExact(cfg, handler, s, run, g, k)
  }

  ghost predicate CounterExact(cfg: ChainConfig, handler: Handler, s: Store, run: seq<Entry>, g: Address, k: Address)
    requires GetSession(s, g, k).Some?
  {
    var after := GetSession(RunFrom(cfg, handler, s, run), g, k);
    && after.Some?
    && after.value.amountSpent == GetSession(s, g, k).value.amountSpent + MeteredOver(cfg, handler, s, run, g, k)
  }

  /** With the limit `u64::MAX` the counter can wrap: the saturating check passes and the plain sum does not. */
  lemma UnlimitedSessionWraps()
    ensures !MeterHolds(U64_MAX)
  {
    var cfg := ChainConfig(0, 0, 1, 1_000_000, 0, 0, Address(8), 0);
    var grant := SessionGrant(true, {}, 10, U64_MAX, U64_MAX - 1, false);
    var s: Store := map[AccountKey(Address(1)) := AccountValue(AccountState(0, 10_000)),
                        SessionKey(Address(1), Address(2)) := SessionValue(grant)];
    var tx := Transaction(Address(1), 0, 5_000, None, Some(Address(2)), Action.Transfer(Address(3), 1), 200);
    var e := Entry(tx, 1, 0, Address(9));
    hide FeePhase, MoveFunds;
    assert Fee(cfg, tx) == 5_000;
    TransferKeepsSessions();
    ValidatedTransferSucceeds(cfg, s, tx, true, 1, 0, Address(9));
    OwnSessionStep(cfg, TransferHandler, s, e);
    hide TransferHandler, After, KeepsSessions;
    OneStepRun(cfg, TransferHandler, s, e, Address(1), Address(2));
    assert !CounterExact(cfg, TransferHandler, s, [e], Address(1), Address(2));
  }

  lemma OneStepRun(cfg: ChainConfig, handler: Handler, s: Store, e: Entry, g: Address, k: Address)
    ensures ValidatedRun(cfg, handler, s, [e]) <==> Admitted(cfg, s, e)
    ensures LiveThroughout(cfg, handler, s, [e], g, k)
            <==> GetSession(s, g, k).Some? && GrantValid(GetSession(s, g, k).value, e.height)
    ensures RunFrom(cfg, handler, s, [e]) == After(cfg, handler, s, e)
    ensures MeteredOver(cfg, handler, s, [e], g, k) == Metered(cfg, handler, s, e, g, k)
  {
    hide After, Admitted, Metered;
  }

  /** The meter of a session works exactly for limits below `u64::MAX`. */
  lemma MeterHoldsExactly(limit: u64)
    ensures MeterHolds(limit) <==> limit < U64_MAX
  {
    hide ValidatedRun, LiveThroughout, KeepsSessions, RunFrom, MeteredOver;
    if limit < U64_MAX {
      forall cfg, handler: Handler, s, run, g, k
        | && KeepsSessions(handler) && ValidatedRun(cfg, handler, s, run)
          && GetSession(s, g, k).Some? && LiveThroughout(cfg, handler, s, run, g, k)
          && GetSession(s, g, k).value.amountSpent <= GetSession(s, g, k).value.spendingLimit == limit
        ensures CounterExact(cfg, handler, s, run, g, k)
      {
        SessionMeter(cfg, handler, s, run, g, k);
      }
    } else {
      UnlimitedSessionWraps();
    }
  }

  lemma TransferKeepsSessions()
    ensures KeepsSessions(TransferHandler)
  {
  }
}

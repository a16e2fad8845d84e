/** When validation lets a transaction through, in terms of the store and the transaction alone. */
module Admission {
  import opened Basics
  import opened State
  import opened Actions
  import opened Ledger
  import opened Execution
  import opened Validation

  // ---------------------------------------------------------------------
  // Without state
  // ---------------------------------------------------------------------

  predicate SoundInput(tx: Transaction) {
    match tx.action
    case Transfer(to, amount) => amount > 0 && to != tx.signer && to != ZERO_ADDRESS
    case DelegateStake(_, amount) => amount > 0
    case DistributeReward(rewards) => rewards != [] && forall i :: 0 <= i < |rewards| ==> rewards[i].1 > 0
    case _ => true
  }

  /** A real signer, a fee, a sponsor other than the signer if any, and sound input if inputs are checked. */
  lemma StatelessExactly(tx: Transaction, configured: bool)
    ensures ValidateStateless(tx, configured).Ok? <==>
            && tx.signer != ZERO_ADDRESS && tx.maxFee > 0
            && (tx.sponsor.Some? ==> tx.sponsor.value != ZERO_ADDRESS && tx.sponsor.value != tx.signer)
            && (configured ==> SoundInput(tx))
    ensures var r := ValidateStateless(tx, configured);
            && (r == Err(ZeroAddressSigner) <==> tx.signer == ZERO_ADDRESS)
            && (r == Err(FeeTooLow) <==> tx.signer != ZERO_ADDRESS && tx.maxFee == 0)
            && (r == Err(ZeroAddressSponsor) <==>
                  tx.signer != ZERO_ADDRESS && tx.maxFee > 0 && tx.sponsor == Some(ZERO_ADDRESS))
            && (r == Err(SponsorIsSigner) <==>
                  tx.signer != ZERO_ADDRESS && tx.maxFee > 0 && tx.sponsor == Some(tx.signer))
  {
  }

  // ---------------------------------------------------------------------
  // Against the state
  // ---------------------------------------------------------------------

  /** What the action itself takes from the signer, where validation looks at it. */
  function Spends(tx: Transaction): u64 {
    match tx.action
    case Transfer(_, amount) => amount
    case DelegateStake(_, amount) => amount
    case _ => 0
  }

  /** The payer can pay the maximum fee, and the signer the action, or both; a full balance always will do. */
  predicate Funded(s: Store, tx: Transaction) {
    match tx.sponsor
    case None => Spends(tx) + tx.maxFee <= BalanceOf(s, tx.signer) || BalanceOf(s, tx.signer) == U64_MAX
    case Some(p) => GetAccount(s, p).Some? && tx.maxFee <= BalanceOf(s, p) && Spends(tx) <= BalanceOf(s, tx.signer)
  }

  /** The grant, at a height, allows the action and the maximum fee on top of what was spent; no limit allows all. */
  predicate Allows(grant: SessionGrant, tx: Transaction, height: u64) {
    && !grant.revoked && height <= grant.expiresAt
    && (grant.anyAction || Label(tx.action) in grant.actions)
    && (grant.amountSpent + tx.maxFee <= grant.spendingLimit || grant.spendingLimit == U64_MAX)
  }

  /** Signed by the account itself, or by a session it granted that allows the transaction. */
  predicate Authorised(s: Store, tx: Transaction, height: u64) {
    tx.session.Some? ==>
      var k := SessionKey(tx.signer, tx.session.value);
      k in s && s[k].SessionValue? && Allows(s[k].grant, tx, height)
  }

  function HeightUsed(currentHeight: u64, chainHeight: u64): u64 {
    if currentHeight == 0 then chainHeight else currentHeight
  }

  /** Stateful validation passes exactly a funded, authorised transaction with its signer's current nonce. */
  lemma StatefulExactly(s: Store, tx: Transaction, currentHeight: u64, chainHeight: u64)
    ensures ValidateStateful(s, tx, currentHeight, chainHeight).Ok? <==>
            && AccountKey(tx.signer) in s && s[AccountKey(tx.signer)].AccountValue?
            && s[AccountKey(tx.signer)].account.nonce == tx.nonce
            && Funded(s, tx) && Authorised(s, tx, HeightUsed(currentHeight, chainHeight))
  {
    hide Label;
  }

  /** Which error the first failing check gives, for a transaction that is refused. */
  lemma StatefulRefusal(s: Store, tx: Transaction, currentHeight: u64, chainHeight: u64)
    ensures var r := ValidateStateful(s, tx, currentHeight, chainHeight);
            var height := HeightUsed(currentHeight, chainHeight);
            var known := GetAccount(s, tx.signer).Some? && GetAccount(s, tx.signer).value.nonce == tx.nonce;
            && (r == Err(AccountNotFound(tx.signer)) <==> GetAccount(s, tx.signer).None?)
            && (r == Err(InvalidNonce(NonceAt(s, tx.signer), tx.nonce)) <==>
                  GetAccount(s, tx.signer).Some? && NonceAt(s, tx.signer) != tx.nonce)
            && (r.Err? && r.error.SponsorAccountNotFound? <==>
                  known && tx.sponsor.Some? && GetAccount(s, tx.sponsor.value).None?)
            && (r.Err? && r.error.InsufficientBalance? <==>
                  && known && !Funded(s, tx)
                  && (tx.sponsor.Some? ==> GetAccount(s, tx.sponsor.value).Some?))
            && (known && Funded(s, tx) ==> r == SessionAnswer(s, tx, height))
  {
    hide Label;
  }

  /** The session checks in order. */
  function SessionAnswer(s: Store, tx: Transaction, height: u64): Result<(), ExecutionError> {
    if tx.session.None? then Ok(())
    else match Lookup(s, SessionKey(tx.signer, tx.session.value))
      case Some(SessionValue(SessionGrant(anyAction, actions, expiresAt, limit, spent, revoked))) =>
        if revoked then Err(SessionRevoked)
        else if expiresAt < height then Err(SessionExpired)
        else if !anyAction && Label(tx.action) !in actions then Err(SessionActionNotPermitted)
        else if spent + tx.maxFee > limit && limit < U64_MAX then Err(SessionSpendingLimitExceeded)
        else Ok(())
      case _ => Err(SessionNotFound)
  }

  /** Over a validated run every transaction is authorised, in the state it runs in and at its height. */
  lemma {:induction false} RunAuthorised(cfg: ChainConfig, handler: Handler, s: Store, run: seq<Entry>, i: nat)
    requires ValidatedRun(cfg, handler, s, run) && i < |run|
    ensures var here, e := RunFrom(cfg, handler, s, run[..i]), run[i];
            Authorised(here, e.tx, HeightUsed(e.height, e.chainHeight)) && Funded(here, e.tx)
    decreases i
  {
    hide After, Authorised, Funded, ValidateStateful;
    if i == 0 {
      StatefulExactly(s, run[0].tx, run[0].height, run[0].chainHeight);
    } else {
      RunAuthorised(cfg, handler, After(cfg, handler, s, run[0]), run[1..], i - 1);
      assert run[..i][1..] == run[1..][..i - 1];
    }
  }

  // ---------------------------------------------------------------------
  // Granting and revoking
  // ---------------------------------------------------------------------

  /** A session is granted exactly where none is valid and it lies ahead; it starts unspent, with the terms given. */
  lemma GrantExactly(s: Store, granter: Address, session: Address, grant: SessionGrant, height: u64)
    ensures var r := Validation.CreateSession(s, granter, session, grant, height);
            var before := GetSession(s, granter, session);
            && (r.Some? <==>
                  && height < grant.expiresAt
                  && (before.Some? ==> before.value.revoked || before.value.expiresAt < height))
            && (r.Some? ==>
                  && GetSession(r.value, granter, session) ==
                     Some(SessionGrant(grant.anyAction, grant.actions, grant.expiresAt, grant.spendingLimit, 0, false))
                  && r.value - {SessionKey(granter, session)} == s - {SessionKey(granter, session)})
  {
  }

  /** Revoking needs a grant that is not revoked, and changes nothing else about it. */
  lemma RevokeExactly(s: Store, granter: Address, session: Address)
    ensures var r, before := Validation.RevokeSession(s, granter, session), GetSession(s, granter, session);
            && (r == Err(SessionNotFound) <==> before.None?)
            && (r == Err(SessionRevoked) <==> before.Some? && before.value.revoked)
            && (r.Ok? <==> before.Some? && !before.value.revoked)
            && (r.Ok? ==>
                  && GetSession(r.value, granter, session) == Some(before.value.(revoked := true))
                  && r.value - {SessionKey(granter, session)} == s - {SessionKey(granter, session)})
  {
  }

  /** Whatever the grant allowed before, nothing signed with a revoked session passes validation. */
  lemma RevokedSessionIsRefused(s: Store, tx: Transaction, currentHeight: u64, chainHeight: u64)
    requires tx.session.Some? && Validation.RevokeSession(s, tx.signer, tx.session.value).Ok?
    ensures var s' := Validation.RevokeSession(s, tx.signer, tx.session.value).value;
            ValidateStateful(s', tx, currentHeight, chainHeight).Err?
  {
    hide ValidateStateful;
    StatefulExactly(Validation.RevokeSession(s, tx.signer, tx.session.value).value, tx, currentHeight, chainHeight);
  }
}

/** The transfer handler (`modules/transfer.rs`), the one handler modelled in full. */
module Transfer {
  import opened Basics
  import opened State
  import opened Ledger
  import opened Overlay
  import opened Execution
  import opened Conservation
  import opened Unbondings
  import opened GasLimit

  function MoveFunds(s: Store, signer: Address, to: Address, amount: u64): Result<Store, ExecutionError> {
    var sender := GetAccount(s, signer);
    if sender.None? then Err(AccountNotFound(signer))
    else if sender.value.balance < amount then Err(InsufficientBalance(amount, sender.value.balance))
    else
      var debited := SetAccount(s, signer, sender.value.(balance := sender.value.balance - amount));
      var receiver := if GetAccount(debited, to).Some? then GetAccount(debited, to).value else AccountState(0, 0);
      Ok(SetAccount(debited, to, receiver.(balance := SatAdd(receiver.balance, amount))))
  }

  method ExecuteTransfer(store: StateStore, signer: Address, to: Address, amount: u64)
    returns (r: Result<(), ExecutionError>)
    modifies store
    ensures var spec := MoveFunds(old(store.data), signer, to, amount);
            if spec.Err? then r == Err(spec.error) && store.data == old(store.data)
            else r == Ok(()) && store.data == spec.value
  {
    var found := GetAccount(store.data, signer);
    if found.None? {
      return Err(AccountNotFound(signer));
    }
    var sender := found.value;
    if sender.balance < amount {
      return Err(InsufficientBalance(amount, sender.balance));
    }
    store.Put(AccountKey(signer), AccountValue(sender.(balance := sender.balance - amount)));
    var existing := GetAccount(store.data, to);
    var receiver := if existing.Some? then existing.value else AccountState(0, 0);
    store.Put(AccountKey(to), AccountValue(receiver.(balance := SatAdd(receiver.balance, amount))));
    return Ok(());
  }

  /** A transfer keeps the total exactly when the credit does not saturate; to oneself it changes nothing. */
  lemma TransferConserves(s: Store, signer: Address, to: Address, amount: u64)
    requires MoveFunds(s, signer, to, amount).Ok?
    ensures var s' := MoveFunds(s, signer, to, amount).value;
            Total(s') == Total(s) <==> (to == signer || BalanceOf(s, to) + amount <= U64_MAX)
    ensures var s' := MoveFunds(s, signer, to, amount).value;
            to == signer ==> s' == s
    ensures Total(s) <= U64_MAX && to != signer ==> BalanceOf(s, to) + amount <= U64_MAX
  {
    hide Total;
    var sender := GetAccount(s, signer).value;
    var debited := SetAccount(s, signer, sender.(balance := sender.balance - amount));
    var receiver := if GetAccount(debited, to).Some? then GetAccount(debited, to).value else AccountState(0, 0);
    TotalAfterSet(s, signer, sender.(balance := sender.balance - amount));
    TotalAfterSet(debited, to, receiver.(balance := SatAdd(receiver.balance, amount)));
  }

  /**
   * A transfer fails exactly for want of the sender or of funds. Otherwise the amount leaves the
   * sender and reaches the receiver, whose account is made if need be, and nothing else changes.
   */
  lemma TransferMoves(s: Store, signer: Address, to: Address, amount: u64, b: Address)
    ensures var r := MoveFunds(s, signer, to, amount);
            && (r == Err(AccountNotFound(signer)) <==> GetAccount(s, signer).None?)
            && (r == Err(InsufficientBalance(amount, BalanceOf(s, signer))) <==>
                  GetAccount(s, signer).Some? && BalanceOf(s, signer) < amount)
            && (r.Ok? <==> GetAccount(s, signer).Some? && amount <= BalanceOf(s, signer))
    ensures var r := MoveFunds(s, signer, to, amount);
            r.Ok? ==>
              && BalanceOf(r.value, b) == SatAdd(BalanceOf(s, b) - (if b == signer then amount else 0),
                                                 if b == to then amount else 0)
              && SameNonce(GetAccount(s, b), GetAccount(r.value, b))
              && forall k: Key | k != AccountKey(signer) && k != AccountKey(to) :: Lookup(r.value, k) == Lookup(s, k)
  {
  }

  /** A dispatcher that knows only transfers. */
  function TransferHandler(tx: Transaction, s: Store, height: u64): HandlerOutcome {
    if tx.action.Transfer? && MoveFunds(s, tx.signer, tx.action.to, tx.action.amount).Ok?
    then Returned(true, MoveFunds(s, tx.signer, tx.action.to, tx.action.amount).value)
    else Returned(false, s)
  }

  lemma TransferWrites(tx: Transaction, s: Store, height: u64, k: Key)
    requires !k.AccountKey?
    ensures Lookup(TransferHandler(tx, s, height).store, k) == Lookup(s, k)
  {
  }

  /** A transfer keeps the total of balances and everything that is not a balance. */
  lemma TransferBacked(stakes: Stakes, tx: Transaction, s: Store, height: u64)
    requires Aside(stakes) && Backed(stakes, s)
    ensures Total(TransferHandler(tx, s, height).store) == Total(s)
    ensures BackingKept(stakes, s, TransferHandler(tx, s, height).store)
  {
    hide Total, Unbonding, Aside;
    BackedCovers(stakes, s);
    var s' := TransferHandler(tx, s, height).store;
    if tx.action.Transfer? && MoveFunds(s, tx.signer, tx.action.to, tx.action.amount).Ok? {
      TransferConserves(s, tx.signer, tx.action.to, tx.action.amount);
    }
    hide TransferHandler;
    forall k: Key | !k.AccountKey? && !k.SessionKey? && !k.SupplyKey? ensures Lookup(s, k) == Lookup(s', k) {
      TransferWrites(tx, s, height, k);
    }
    OthersStay(stakes, s, s');
    TransferWrites(tx, s, height, SupplyKey);
  }

  lemma TransferKeepsRecords(tx: Transaction, s: Store, height: u64, b: Address)
    ensures var s' := TransferHandler(tx, s, height).store;
            && GetSupply(s') == GetSupply(s)
            && (GetAccount(s, b).Some? ==> NonceOf(s', b) == NonceOf(s, b))
            && (GetAccount(s, b).None? ==> NonceOf(s', b) in {None, Some(0)})
            && (b != tx.signer ==> BalanceOf(s, b) <= BalanceOf(s', b))
  {
  }

  /** The transfer handler meets every handler contract that the block theorems ask for. */
  lemma TransferHandlerLawful(stakes: Stakes)
    requires Aside(stakes)
    ensures Conserves(stakes, TransferHandler) && NeverPanics(TransferHandler) && KeepsCounters(TransferHandler)
    ensures KeepsNonces(TransferHandler) && SparesOthers(TransferHandler)
  {
    hide Backed, MoveFunds, Aside;
    forall tx, s, h: u64
      ensures Backed(stakes, s) ==> Total(TransferHandler(tx, s, h).store) == Total(s)
      ensures BackingKept(stakes, s, TransferHandler(tx, s, h).store)
    {
      if Backed(stakes, s) {
        TransferBacked(stakes, tx, s, h);
      }
    }
    hide BackingKept;
    forall tx, s, h: u64, b
      ensures var s' := TransferHandler(tx, s, h).store;
              && (GetAccount(s, b).Some? ==> NonceOf(s', b) == NonceOf(s, b))
              && (GetAccount(s, b).None? ==> NonceOf(s', b) in {None, Some(0)})
              && (b != tx.signer ==> BalanceOf(s, b) <= BalanceOf(s', b))
    {
      TransferKeepsRecords(tx, s, h, b);
    }
    forall tx, s, h: u64 ensures GetSupply(TransferHandler(tx, s, h).store) == GetSupply(s) {
      TransferKeepsRecords(tx, s, h, ZERO_ADDRESS);
    }
  }
}

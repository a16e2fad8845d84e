/** What each receipt of a block says, and what became of the store at its turn. */
module Receipts {
  import opened Basics
  import opened State
  import opened Ledger
  import opened Execution

  /** The store and the gas used just before transaction `i`. */
  function Before(cfg: ChainConfig, handler: Handler, s: Store, txs: seq<Transaction>, height: u64, proposer: Address,
                  used: u64, i: nat): (Store, u64)
    requires i <= |txs|
    decreases i
  {
    if i == 0 then (s, used)
    else
      var (s1, used1, _) := Turn(cfg, handler, s, txs[0], height, proposer, used);
      Before(cfg, handler, s1, txs[1..], height, proposer, used1, i - 1)
  }

  /** What the handler makes of a transaction that reaches it; `None` for one that does not. */
  function Outcome(cfg: ChainConfig, handler: Handler, s: Store, tx: Transaction, height: u64, proposer: Address,
                   used: u64): Option<HandlerOutcome>
  {
    if Dispatched(cfg, s, tx, proposer, used)
    then Some(handler(tx, FeePhase(cfg, s, tx, proposer).value, height)) else None
  }

  /** The receipt and the store after a turn, by what became of the transaction. */
  predicate Reported(cfg: ChainConfig, tx: Transaction, s: Store, s': Store, outcome: Option<HandlerOutcome>,
                     r: Receipt)
  {
    match outcome
    case None => s' == s && r == Receipt(false, 0, 0, FeePayer(tx))
    case Some(Panicked(s1)) => s' == s1 && r == Receipt(false, 0, 0, FeePayer(tx))
    case Some(Returned(ok, s1)) =>
      && r == Receipt(ok, Fee(cfg, tx), TotalGas(cfg, tx), FeePayer(tx))
      && s' == if ok then SpendSession(s1, tx, Fee(cfg, tx)) else s1
  }

  lemma TurnReported(cfg: ChainConfig, handler: Handler, s: Store, tx: Transaction, height: u64, proposer: Address,
                     used: u64)
    ensures var (s', used', r) := Turn(cfg, handler, s, tx, height, proposer, used);
            && Reported(cfg, tx, s, s', Outcome(cfg, handler, s, tx, height, proposer, used), r)
            && used' == SatAdd(used, r.gasUsed)
  {
    hide FeePhase, SpendSession, Fee, TotalGas;
  }

  lemma TakeSums(rs: seq<Receipt>, i: nat)
    requires 0 < i <= |rs|
    ensures GasSum(rs[..i]) == rs[0].gasUsed + GasSum(rs[1..][..i - 1])
  {
    assert rs[..i][1..] == rs[1..][..i - 1];
  }

  /**
   * Transaction by transaction: the receipt is a success exactly when the transaction reached its
   * handler and that returned ok, it shows a fee and gas exactly when the handler returned, and the
   * gas used so far is the gas on the receipts so far.
   */
  lemma {:induction false} ReceiptsExactly(cfg: ChainConfig, handler: Handler, s: Store, txs: seq<Transaction>,
                                           height: u64, proposer: Address, used: u64, i: nat)
    requires i < |txs|
    ensures var (s', rs) := BlockFrom(cfg, handler, s, txs, height, proposer, used);
            var (here, spent) := Before(cfg, handler, s, txs, height, proposer, used, i);
            && |rs| == |txs|
            && Reported(cfg, txs[i], here, Before(cfg, handler, s, txs, height, proposer, used, i + 1).0,
                        Outcome(cfg, handler, here, txs[i], height, proposer, spent), rs[i])
            && spent == SatAdd(used, GasSum(rs[..i]))
            && s' == Before(cfg, handler, s, txs, height, proposer, used, |txs|).0
    decreases |txs|
  {
    hide Turn, Outcome, Reported;
    var (s1, used1, r) := Turn(cfg, handler, s, txs[0], height, proposer, used);
    TurnReported(cfg, handler, s, txs[0], height, proposer, used);
    var rs := BlockFrom(cfg, handler, s, txs, height, proposer, used).1;
    if i > 0 {
      ReceiptsExactly(cfg, handler, s1, txs[1..], height, proposer, used1, i - 1);
      assert rs[1..] == BlockFrom(cfg, handler, s1, txs[1..], height, proposer, used1).1;
      TakeSums(rs, i);
    } else if |txs| > 1 {
      ReceiptsExactly(cfg, handler, s1, txs[1..], height, proposer, used1, 0);
    } else {
      EmptyBlock(cfg, handler, s1, txs[1..], height, proposer, used1);
      assert txs[1..][|txs[1..]|..] == txs[1..];
    }
  }
}

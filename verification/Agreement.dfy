/**
 * Agreement: no two blocks are ever committed at one height, by any correct validators, in any
 * rounds. The proof needs no assumption on when proposals are delivered, nor that a correct
 * validator votes once per step. It uses the order of the vote log: a correct validator that
 * precommitted A and later prevotes B in a higher round must have re-locked on B, so a quorum of
 * prevotes for B was already in the log before that prevote.
 */
module Agreement {
  import opened Basics
  import opened Validators
  import opened Votes
  import opened QuorumScan
  import opened Machine
  import opened Reaction
  import opened Network
  import opened Certificates

  // ---------------------------------------------------------------------
  // The inductive invariant
  // ---------------------------------------------------------------------

  predicate RealPrecommit(v: Vote) {
    v.voteType.Precommit? && v.blockHash != ZERO_HASH
  }

  predicate RealPrevote(v: Vote) {
    v.voteType.Prevote? && v.blockHash != ZERO_HASH
  }

  /** How a machine's state bounds a vote it has sent: rounds do not go back, and the lock covers its precommits. */
  predicate Covered(m: Machine, v: Vote) {
    && v.height <= m.height
    && (v.height == m.height ==>
          && v.round <= m.round
          && (RealPrecommit(v) ==>
                && m.lockedBlock.Some?
                && v.round <= m.lockedBlock.value.0
                && (v.round == m.lockedBlock.value.0 ==> v.blockHash == m.lockedBlock.value.1)))
  }

  predicate LockWasSent(cfg: Config, log: seq<Vote>, m: Machine) {
    m.lockedBlock.Some? ==>
      SentQuorum(cfg, log, Prevote, m.height, m.lockedBlock.value.0, m.lockedBlock.value.1)
  }

  ghost predicate MachineInv(cfg: Config, log: seq<Vote>, p: Address, m: Machine) {
    && m.localAddress == p
    && m.validatorSet == cfg.sets(m.height)
    && Sound(m, Sent(log))
    && LockWasSent(cfg, log, m)
    && forall v :: v in log && v.voter == p ==> Covered(m, v)
  }

  /** Before its `i`-th vote was sent, the block it names already had a prevote quorum in a round after `r`. */
  ghost predicate Relocked(cfg: Config, log: seq<Vote>, i: nat, r: u32)
    requires i < |log|
  {
    exists lr: u32 :: r < lr <= log[i].round && SentQuorum(cfg, log[..i], Prevote, log[i].height, lr, log[i].blockHash)
  }

  ghost predicate PrecommitsJustified(cfg: Config, log: seq<Vote>) {
    forall v :: v in log && v.voter in cfg.correct && RealPrecommit(v) ==>
      SentQuorum(cfg, log, Prevote, v.height, v.round, v.blockHash)
  }

  /** Two precommits for blocks by one correct validator in one round name the same block. */
  ghost predicate PrecommitsConsistent(cfg: Config, log: seq<Vote>) {
    forall v, w :: v in log && w in log && v.voter == w.voter && v.voter in cfg.correct
      && RealPrecommit(v) && RealPrecommit(w) && v.height == w.height && v.round == w.round
      ==> v.blockHash == w.blockHash
  }

  /** The vote at `i` is a prevote by the sender of the earlier-round precommit `w`, for another block. */
  predicate Deviates(cfg: Config, log: seq<Vote>, i: nat, w: Vote)
    requires i < |log|
  {
    && RealPrevote(log[i]) && log[i].voter in cfg.correct
    && RealPrecommit(w) && w.voter == log[i].voter && w.height == log[i].height
    && w.round < log[i].round && w.blockHash != log[i].blockHash
  }

  ghost predicate DeviationsRelocked(cfg: Config, log: seq<Vote>) {
    forall i, w :: 0 <= i < |log| && w in log && Deviates(cfg, log, i, w) ==> Relocked(cfg, log, i, w.round)
  }

  ghost predicate LogInv(cfg: Config, log: seq<Vote>) {
    PrecommitsJustified(cfg, log) && PrecommitsConsistent(cfg, log) && DeviationsRelocked(cfg, log)
  }

  /** A committed block is not nil, its precommits were really sent, and its certificate is valid. */
  predicate CommitInv(cfg: Config, log: seq<Vote>, c: CommitRecord) {
    && c.blockHash != ZERO_HASH
    && SentQuorum(cfg, log, Precommit, c.height, c.round, c.blockHash)
    && ValidProof(cfg.sets(c.height), c.proof)
    && c.proof.height == c.height && c.proof.round == c.round && c.proof.blockHash == c.blockHash
    && c.proof.votes <= Sent(log)
  }

  ghost predicate Inv(cfg: Config, n: Net) {
    && n.machines.Keys == cfg.correct
    && LogInv(cfg, n.log)
    && (forall p :: p in n.machines ==> MachineInv(cfg, n.log, p, n.machines[p]))
    && (forall c :: c in n.commits ==> CommitInv(cfg, n.log, c))
  }

  // ---------------------------------------------------------------------
  // One more vote in the log
  // ---------------------------------------------------------------------

  predicate SameRoundSameBlock(log: seq<Vote>, v: Vote) {
    forall w :: w in log && w.voter == v.voter && RealPrecommit(w) && w.height == v.height && w.round == v.round ==>
      w.blockHash == v.blockHash
  }

  /** Old votes stay justified when the log grows; the new vote has to earn its own place. */
  lemma LogInvGrows(cfg: Config, log: seq<Vote>, v: Vote)
    requires LogInv(cfg, log)
    requires v.voter in cfg.correct ==>
      && (RealPrecommit(v) ==> SentQuorum(cfg, log, Prevote, v.height, v.round, v.blockHash))
      && (forall w :: w in log && w.voter == v.voter && w.height == v.height ==> w.round <= v.round)
      && (RealPrecommit(v) ==> SameRoundSameBlock(log, v))
      && (forall w :: w in log && Deviates(cfg, log + [v], |log|, w) ==> Relocked(cfg, log + [v], |log|, w.round))
    ensures LogInv(cfg, log + [v])
  {
    var log' := log + [v];
    forall u | u in log' && u.voter in cfg.correct && RealPrecommit(u)
      ensures SentQuorum(cfg, log', Prevote, u.height, u.round, u.blockHash)
    {
      SentQuorumGrows(cfg, log, log', Prevote, u.height, u.round, u.blockHash);
    }
    forall i, w | 0 <= i < |log'| && w in log' && Deviates(cfg, log', i, w)
      ensures Relocked(cfg, log', i, w.round)
    {
      if i < |log| {
        assert log[i] in log;
        assert w in log;
        assert Deviates(cfg, log, i, w);
        assert log'[..i] == log[..i];
        var lr: u32 :| w.round < lr <= log[i].round
                  && SentQuorum(cfg, log[..i], Prevote, log[i].height, lr, log[i].blockHash);
        assert SentQuorum(cfg, log'[..i], Prevote, log'[i].height, lr, log'[i].blockHash);
      }
    }
  }

  lemma SoundGrows(m: Machine, s: set<Vote>, t: set<Vote>)
    requires Sound(m, s) && s <= t
    ensures Sound(m, t)
  {
  }

  /** A machine that did not send the new vote is not disturbed by it. */
  lemma MachineInvGrows(cfg: Config, log: seq<Vote>, v: Vote, p: Address, m: Machine)
    requires MachineInv(cfg, log, p, m) && (v.voter == p ==> Covered(m, v))
    ensures MachineInv(cfg, log + [v], p, m)
  {
    var log' := log + [v];
    assert Sent(log) <= Sent(log');
    SoundGrows(m, Sent(log), Sent(log'));
    if m.lockedBlock.Some? {
      SentQuorumGrows(cfg, log, log', Prevote, m.height, m.lockedBlock.value.0, m.lockedBlock.value.1);
    }
  }

  lemma CommitInvGrows(cfg: Config, log: seq<Vote>, v: Vote, c: CommitRecord)
    requires CommitInv(cfg, log, c)
    ensures CommitInv(cfg, log + [v], c)
  {
    SentQuorumGrows(cfg, log, log + [v], Precommit, c.height, c.round, c.blockHash);
  }

  // ---------------------------------------------------------------------
  // One reaction of a correct machine
  // ---------------------------------------------------------------------

  /** After any reaction the machine still covers everything it sent before. */
  lemma ReactionKeepsCover(cfg: Config, log: seq<Vote>, p: Address, m: Machine, m': Machine, a: Option<Action>)
    requires MachineInv(cfg, log, p, m)
    requires Sound(m', Sent(log)) && Disciplined(m, m', a)
    ensures MachineInv(cfg, log, p, m')
  {
    if m'.lockedBlock != m.lockedBlock {
      TableQuorumWasSent(cfg, log, m'.prevotes, Prevote, m'.height, m'.round, m'.lockedBlock.value.1);
    }
    forall v | v in log && v.voter == p ensures Covered(m', v) {
      assert Covered(m, v);
    }
  }

  /** A prevote for a block by a validator locked elsewhere cannot happen; locked later means re-locked. */
  lemma PrevoteIsRelocked(cfg: Config, log: seq<Vote>, p: Address, m: Machine, m': Machine, v: Vote, w: Vote)
    requires MachineInv(cfg, log, p, m) && Disciplined(m, m', Some(SendPrevote(v))) && v.voter == p
    requires w in log && Deviates(cfg, log + [v], |log|, w)
    requires m.lockedBlock.Some? ==> m.lockedBlock.value.0 <= m.round
    ensures Relocked(cfg, log + [v], |log|, w.round)
  {
    assert Covered(m, w);
    var lr := m.lockedBlock.value.0;
    assert (log + [v])[..|log|] == log;
    assert w.round < lr <= v.round && SentQuorum(cfg, log, Prevote, v.height, lr, v.blockHash);
  }

  lemma OwnVoteExtends(cfg: Config, log: seq<Vote>, p: Address, m: Machine, m': Machine, a: Action)
    requires LogInv(cfg, log) && MachineInv(cfg, log, p, m)
    requires a.SendPrevote? || a.SendPrecommit?
    requires Sound(m', Sent(log)) && Disciplined(m, m', Some(a))
    ensures LogInv(cfg, log + [a.vote]) && MachineInv(cfg, log + [a.vote], p, m')
  {
    var v := a.vote;
    ReactionKeepsCover(cfg, log, p, m, m', Some(a));
    if a.SendPrevote? {
      forall w | w in log && Deviates(cfg, log + [v], |log|, w) ensures Relocked(cfg, log + [v], |log|, w.round) {
        PrevoteIsRelocked(cfg, log, p, m, m', v, w);
      }
    } else if v.blockHash != ZERO_HASH {
      TableQuorumWasSent(cfg, log, m'.prevotes, Prevote, v.height, v.round, v.blockHash);
      forall w | w in log && w.voter == p && RealPrecommit(w) && w.height == v.height && w.round == v.round
        ensures w.blockHash == v.blockHash
      {
        assert Covered(m', w);
      }
    }
    assert forall w :: w in log && w.voter == p ==> Covered(m', w);
    LogInvGrows(cfg, log, v);
    MachineInvGrows(cfg, log, v, p, m');
  }

  // ---------------------------------------------------------------------
  // Every step of the network keeps the invariant
  // ---------------------------------------------------------------------

  /** A machine at the start of a height it has not voted in yet. */
  lemma FreshMachineInv(cfg: Config, log: seq<Vote>, p: Address, h: u64)
    requires ValidConfig(cfg)
    requires forall v :: v in log && v.voter == p ==> v.height < h
    ensures MachineInv(cfg, log, p, New(h, cfg.sets(h), p))
  {
  }

  lemma InitInv(cfg: Config, n: Net)
    requires ValidConfig(cfg) && Init(cfg, n)
    ensures Inv(cfg, n)
  {
    forall p | p in n.machines ensures MachineInv(cfg, n.log, p, n.machines[p]) {
      FreshMachineInv(cfg, n.log, p, n.machines[p].height);
    }
  }

  lemma ByzantineInv(cfg: Config, n: Net, v: Vote)
    requires Inv(cfg, n) && v.voter !in cfg.correct
    ensures Inv(cfg, Apply(n, Byzantine(v)))
  {
    LogInvGrows(cfg, n.log, v);
    forall p | p in n.machines ensures MachineInv(cfg, n.log + [v], p, n.machines[p]) {
      MachineInvGrows(cfg, n.log, v, p, n.machines[p]);
    }
    forall c | c in n.commits ensures CommitInv(cfg, n.log + [v], c) {
      CommitInvGrows(cfg, n.log, v, c);
    }
  }

  lemma ReplaceMachineInv(cfg: Config, n: Net, p: Address, m': Machine)
    requires Inv(cfg, n) && p in n.machines && MachineInv(cfg, n.log, p, m')
    ensures Inv(cfg, n.(machines := n.machines[p := m']))
  {
  }

  lemma AdvanceInv(cfg: Config, n: Net, p: Address, h: u64)
    requires ValidConfig(cfg) && Inv(cfg, n)
    requires p in n.machines && h > n.machines[p].height
    ensures Inv(cfg, Emit(n, p, AdvanceHeight(UpdateValidatorSet(n.machines[p], cfg.sets(h)), h), None))
  {
    var m := n.machines[p];
    assert MachineInv(cfg, n.log, p, m);
    forall v | v in n.log && v.voter == p ensures v.height < h {
      assert Covered(m, v);
    }
    FreshMachineInv(cfg, n.log, p, h);
    ReplaceMachineInv(cfg, n, p, AdvanceHeight(UpdateValidatorSet(m, cfg.sets(h)), h));
  }

  lemma CommittedInv(cfg: Config, log: seq<Vote>, p: Address, m: Machine, a: Action)
    requires MachineInv(cfg, log, p, m)
    requires a.CommitBlock? && a.blockHash != ZERO_HASH && a.height == m.height
    requires a.proof == ProofFor(m, a.blockHash) && HasQuorum(m.validatorSet, m.precommits, a.blockHash)
    ensures CommitInv(cfg, log, CommitRecord(p, a.height, m.round, a.blockHash, a.proof))
  {
    TableQuorumWasSent(cfg, log, m.precommits, Precommit, m.height, m.round, a.blockHash);
    CollectedProofValid(m, a.blockHash);
  }

  /** The machine has reacted; what it emitted goes to the log or to the commits. */
  lemma EmitInv(cfg: Config, n: Net, p: Address, m': Machine, a: Option<Action>)
    requires Inv(cfg, n) && p in n.machines
    requires Sound(m', Sent(n.log)) && Disciplined(n.machines[p], m', a)
    ensures Inv(cfg, Emit(n, p, m', a))
  {
    hide MachineInv, CommitInv;
    var n' := Emit(n, p, m', a);
    var m := n.machines[p];
    if a.Some? && (a.value.SendPrevote? || a.value.SendPrecommit?) {
      var v := a.value.vote;
      OwnVoteExtends(cfg, n.log, p, m, m', a.value);
      forall q | q in n'.machines ensures MachineInv(cfg, n'.log, q, n'.machines[q]) {
        if q != p {
          MachineInvGrows(cfg, n.log, v, q, n.machines[q]);
        }
      }
      forall c | c in n'.commits ensures CommitInv(cfg, n'.log, c) {
        CommitInvGrows(cfg, n.log, v, c);
      }
    } else {
      ReactionKeepsCover(cfg, n.log, p, m, m', a);
      ReplaceMachineInv(cfg, n, p, m');
      if a.Some? && a.value.CommitBlock? {
        CommittedInv(cfg, n.log, p, m', a.value);
      }
    }
  }

  lemma StepInv(cfg: Config, n: Net, mv: Move)
    requires ValidConfig(cfg) && Inv(cfg, n)
    requires Allowed(cfg, n, mv) && !WrapsRound(n, mv)
    ensures Inv(cfg, Apply(n, mv))
  {
    match mv
    case Byzantine(v) => ByzantineInv(cfg, n, v);
    case Local(p, e) =>
      var m := n.machines[p];
      if e.HeightAdvances? {
        AdvanceInv(cfg, n, p, e.newHeight);
      } else {
        assert MachineInv(cfg, n.log, p, m);
        ReactSound(m, e, Sent(n.log));
        var (m', a) := React(m, e);
        EmitInv(cfg, n, p, m', a);
      }
  }

  lemma {:induction false} RunInv(cfg: Config, ns: seq<Net>, moves: seq<Move>)
    requires ValidConfig(cfg) && Run(cfg, ns, moves) && NoWrap(ns, moves)
    ensures forall i :: 0 <= i < |ns| ==> Inv(cfg, ns[i])
  {
    hide Inv, Apply, Allowed;
    InitInv(cfg, ns[0]);
    for k := 0 to |moves|
      invariant forall i :: 0 <= i <= k ==> Inv(cfg, ns[i])
    {
      StepInv(cfg, ns[k], moves[k]);
    }
  }

  // ---------------------------------------------------------------------
  // Lock carry-over and agreement
  // ---------------------------------------------------------------------

  /**
   * Once a block has a precommit quorum in a round, no other block ever gathers a prevote quorum
   * in a later round, at any point of the log. Descent on the log: such a quorum would contain a
   * prevote whose sender had re-locked, so a shorter log would already show another one.
   */
  lemma {:induction false} LockCarryOver(cfg: Config, log: seq<Vote>, k: nat, h: u64, r: u32, x: Hash, r': u32, y: Hash)
    requires ValidConfig(cfg) && LogInv(cfg, log) && k <= |log|
    requires SentQuorum(cfg, log, Precommit, h, r, x) && x != ZERO_HASH
    requires r < r' && y != ZERO_HASH && y != x
    ensures !SentQuorum(cfg, log[..k], Prevote, h, r', y)
    decreases k
  {
    if SentQuorum(cfg, log[..k], Prevote, h, r', y) {
      var p := QuorumsShareCorrect(cfg.sets(h), Backers(log, Precommit, h, r, x),
                                   Backers(log[..k], Prevote, h, r', y), cfg.correct);
      var w := Vote(h, r, Precommit, x, p);
      var i :| 0 <= i < k && log[..k][i] == Vote(h, r', Prevote, y, p);
      assert log[i] == Vote(h, r', Prevote, y, p) && w in log;
      assert Deviates(cfg, log, i, w);
      var lr: u32 :| r < lr <= r' && SentQuorum(cfg, log[..i], Prevote, h, lr, y);
      LockCarryOver(cfg, log, i, h, r, x, lr, y);
    }
  }

  /** Precommit quorums of two rounds, or of one round, name one block. */
  lemma PrecommitQuorumsAgree(cfg: Config, log: seq<Vote>, h: u64, r: u32, x: Hash, r': u32, y: Hash)
    requires ValidConfig(cfg) && LogInv(cfg, log)
    requires SentQuorum(cfg, log, Precommit, h, r, x) && x != ZERO_HASH
    requires SentQuorum(cfg, log, Precommit, h, r', y) && y != ZERO_HASH
    requires r <= r'
    ensures x == y
  {
    var p := QuorumsShareCorrect(cfg.sets(h), Backers(log, Precommit, h, r, x),
                                 Backers(log, Precommit, h, r', y), cfg.correct);
    assert Vote(h, r, Precommit, x, p) in log;
    var w := Vote(h, r', Precommit, y, p);
    assert w in log && RealPrecommit(w);
    if r < r' && x != y {
      assert log[..|log|] == log;
      LockCarryOver(cfg, log, |log|, h, r, x, r', y);
    }
  }

  /**
   * Agreement over every run: any two blocks committed at one height, by any correct validators,
   * in any rounds and at any times, are the same block.
   */
  lemma AgreementTheorem(cfg: Config, ns: seq<Net>, moves: seq<Move>, c: CommitRecord, d: CommitRecord)
    requires ValidConfig(cfg) && Run(cfg, ns, moves) && NoWrap(ns, moves)
    requires c in ns[|moves|].commits && d in ns[|moves|].commits
    requires c.height == d.height
    ensures c.blockHash == d.blockHash
  {
    RunInv(cfg, ns, moves);
    var n := ns[|moves|];
    assert Inv(cfg, n);
    if c.round <= d.round {
      PrecommitQuorumsAgree(cfg, n.log, c.height, c.round, c.blockHash, d.round, d.blockHash);
    } else {
      PrecommitQuorumsAgree(cfg, n.log, d.height, d.round, d.blockHash, c.round, c.blockHash);
    }
  }

  /** Every certificate ever emitted is valid for the validator set of its height, over every run. */
  lemma CertificatesTheorem(cfg: Config, ns: seq<Net>, moves: seq<Move>, c: CommitRecord)
    requires ValidConfig(cfg) && Run(cfg, ns, moves) && NoWrap(ns, moves)
    requires c in ns[|moves|].commits
    ensures ValidProof(cfg.sets(c.height), c.proof)
    ensures c.proof.height == c.height && c.proof.round == c.round && c.proof.blockHash == c.blockHash != ZERO_HASH
    ensures c.proof.votes <= Sent(ns[|moves|].log)
  {
    RunInv(cfg, ns, moves);
    assert Inv(cfg, ns[|moves|]);
  }

  /**
   * Lock carry-over over every run: once a block has a precommit quorum in a round, no other block
   * ever has a prevote quorum in a later round of that height.
   */
  lemma LockCarryOverTheorem(cfg: Config, ns: seq<Net>, moves: seq<Move>, h: u64, r: u32, x: Hash, r': u32, y: Hash)
    requires ValidConfig(cfg) && Run(cfg, ns, moves) && NoWrap(ns, moves)
    requires x != ZERO_HASH && y != ZERO_HASH && r < r'
    requires SentQuorum(cfg, ns[|moves|].log, Precommit, h, r, x)
    requires SentQuorum(cfg, ns[|moves|].log, Prevote, h, r', y)
    ensures x == y
  {
    RunInv(cfg, ns, moves);
    var log := ns[|moves|].log;
    assert Inv(cfg, ns[|moves|]);
    if x != y {
      assert log[..|log|] == log;
      LockCarryOver(cfg, log, |log|, h, r, x, r', y);
    }
  }

  /**
   * A skip driven by votes follows a correct validator: if a vote makes a machine change round, then
   * some correct validator has already sent a vote in the round it enters.
   */
  lemma SkipFollowsCorrect(cfg: Config, ns: seq<Net>, moves: seq<Move>, p: Address, v: Vote)
    requires ValidConfig(cfg) && Run(cfg, ns, moves) && NoWrap(ns, moves)
    requires p in ns[|moves|].machines && v in ns[|moves|].log
    requires React(ns[|moves|].machines[p], VoteArrives(v)).0.round != ns[|moves|].machines[p].round
    ensures exists w :: w in ns[|moves|].log && w.voter in cfg.correct
              && w.height == ns[|moves|].machines[p].height
              && w.round == React(ns[|moves|].machines[p], VoteArrives(v)).0.round
  {
    RunInv(cfg, ns, moves);
    var n := ns[|moves|];
    assert Inv(cfg, n);
    var w := HeavyRoundHasCorrect(cfg, n.log, p, n.machines[p], v);
  }

  lemma HeavyRoundHasCorrect(cfg: Config, log: seq<Vote>, p: Address, m: Machine, v: Vote) returns (w: Vote)
    requires ValidConfig(cfg) && MachineInv(cfg, log, p, m) && v in log
    requires React(m, VoteArrives(v)).0.round != m.round
    ensures w in log && w.voter in cfg.correct && w.height == m.height && w.round == React(m, VoteArrives(v)).0.round
  {
    SkipCause(m, v);
    var q := SkipThresholdHasCorrect(m.validatorSet, FutureVoters(m, v.round) + {v.voter}, cfg.correct);
    var pv, pc := Buffered(m.futurePrevotes, v.round), Buffered(m.futurePrecommits, v.round);
    w := if q == v.voter then v else if q in pv then pv[q] else pc[q];
  }
}

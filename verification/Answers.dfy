/** Exactly when a machine sends each kind of vote and when it commits, in terms of the votes it has. */
module Answers {
  import opened Basics
  import opened Votes
  import opened QuorumScan
  import opened Machine
  import opened Reaction
  import opened VoteBook
  import opened Validators

  /** From the proposer of the proposal's own round, or a block that had a prevote quorum before. */
  predicate Legitimate(m: Machine, p: Proposal)
    requires m.validatorSet.validators != []
  {
    || p.proposer == m.validatorSet.GetProposer(p.height, p.round).address
    || (m.validBlock.Some? && m.validBlock.value.1 == p.block.hash)
  }

  /** A machine answers a proposal with a prevote exactly when it is timely and legitimate, and then by its lock. */
  lemma PrevotesExactly(m: Machine, p: Proposal)
    requires ProposalDefined(m, p)
    ensures OnProposal(m, p).1.Ok? <==>
            && p.height == m.height && p.round >= m.round
            && Legitimate(m, p) && m.validatorSet.Contains(p.proposer)
    ensures OnProposal(m, p).1.Ok? ==>
              OnProposal(m, p).1.value == SendPrevote(Vote(p.height, p.round, Prevote,
                if m.lockedBlock.None? || m.lockedBlock.value.1 == p.block.hash then p.block.hash else ZERO_HASH,
                m.localAddress))
  {
    hide LaterThan, Buffered;
  }

  /** A first vote of a member for the current round. */
  predicate Counts(m: Machine, v: Vote, ty: VoteType, table: Table) {
    && v.height == m.height && v.round == m.round && v.voteType == ty
    && m.validatorSet.Contains(v.voter) && v.voter !in table
  }

  /** A prevote makes a machine precommit exactly when it completes or follows a quorum before the precommit step. */
  lemma PrecommitsExactly(m: Machine, v: Vote, h: Hash)
    requires m.validatorSet.Valid()
    ensures OnPrevote(m, v).1 == Ok(Some(SendPrecommit(Vote(m.height, m.round, Precommit, h, m.localAddress)))) <==>
            && Counts(m, v, Prevote, m.prevotes)
            && (m.step.Propose? || m.step.PrevoteStep?)
            && HasQuorum(m.validatorSet, m.prevotes[v.voter := v], h)
  {
    hide HasQuorum, EnterRound, ShouldSkip;
    var votes := m.prevotes[v.voter := v];
    var quorum := QuorumHash(m.validatorSet, votes);
    if quorum.Some? && HasQuorum(m.validatorSet, votes, h) {
      QuorumUnique(m.validatorSet, votes, quorum.value, h);
    }
  }

  predicate CommitsTo(r: Result<Option<Action>, ConsensusError>, h: Hash) {
    r.Ok? && r.value.Some? && r.value.value.CommitBlock? && r.value.value.blockHash == h
  }

  /**
   * A precommit makes a machine commit exactly when a block has a quorum with it and the machine
   * has not committed yet.
   */
  lemma CommitsExactly(m: Machine, v: Vote, h: Hash)
    requires m.validatorSet.Valid()
    ensures CommitsTo(OnPrecommit(m, v).1, h) <==>
            && Counts(m, v, Precommit, m.precommits)
            && !m.step.CommitStep? && h != ZERO_HASH
            && HasQuorum(m.validatorSet, m.precommits[v.voter := v], h)
  {
    hide HasQuorum, EnterRound, ShouldSkip, ProofFor;
    var votes := m.precommits[v.voter := v];
    var quorum := QuorumHash(m.validatorSet, votes);
    if quorum.Some? && HasQuorum(m.validatorSet, votes, h) {
      QuorumUnique(m.validatorSet, votes, quorum.value, h);
    }
  }

  // ---------------------------------------------------------------------
  // What each answer leaves behind
  // ---------------------------------------------------------------------

  /** In a round just entered: waiting for its proposal, the lock and the valid block remembered. */
  predicate Awaits(m: Machine, m': Machine, round: u32) {
    && m'.height == m.height && m'.validatorSet == m.validatorSet && m'.localAddress == m.localAddress
    && m'.round == round && m'.step == Propose && m'.proposal == None
    && m'.lockedBlock == m.lockedBlock && m'.validBlock == m.validBlock && m'.validProposal == m.validProposal
  }

  predicate Timely(m: Machine, p: Proposal) {
    p.height == m.height && p.round >= m.round
  }

  /** Why a proposal is turned away, and what it still does: one for a later round moves the machine there. */
  lemma ProposalRefusedExactly(m: Machine, p: Proposal)
    requires ProposalDefined(m, p)
    ensures var r := OnProposal(m, p).1;
            && (r == Err(WrongHeight(m.height, p.height)) <==> p.height != m.height)
            && (r == Err(WrongRound(m.round, p.round)) <==> p.height == m.height && p.round < m.round)
            && (r == Err(InvalidProposer) <==> Timely(m, p) && !Legitimate(m, p))
            && (r == Err(NotValidator) <==>
                  Timely(m, p) && Legitimate(m, p) && p.proposer !in Members(m.validatorSet.validators))
    ensures var (m', r) := OnProposal(m, p);
            && (r.Err? && Timely(m, p) && p.round > m.round ==> Awaits(m, m', p.round))
            && (r.Err? && !(Timely(m, p) && p.round > m.round) ==> m' == m)
            && (r.Ok? ==> Awaits(m, m'.(step := Propose, proposal := None), p.round) && m'.step == PrevoteStep
                          && m'.proposal == Some(p))
  {
    hide LaterThan, Buffered, Listed;
    ListedExactly(m.validatorSet.validators, p.proposer);
  }

  ghost function OnVote(m: Machine, v: Vote, ty: VoteType): (Machine, Result<Option<Action>, ConsensusError>) {
    if ty.Prevote? then OnPrevote(m, v) else OnPrecommit(m, v)
  }

  /** Why a vote is turned away; nothing changes then. */
  lemma VoteRefusedExactly(m: Machine, v: Vote, ty: VoteType)
    ensures var (m', r) := OnVote(m, v, ty);
            var member := v.voter in Members(m.validatorSet.validators);
            && (r == Err(WrongHeight(m.height, v.height)) <==> v.height != m.height)
            && (r == Err(InvalidVote) <==> v.height == m.height && v.voteType != ty)
            && (r == Err(NotValidator) <==> v.height == m.height && v.voteType == ty && !member)
            && (r == Err(WrongRound(m.round, v.round)) <==>
                  v.height == m.height && v.voteType == ty && member && v.round < m.round)
            && (r == Err(DuplicateVoteError) <==>
                  && v.height == m.height && v.voteType == ty && member && v.round >= m.round
                  && v.voter in TableAt(m, ty, v.round))
            && (r.Err? ==> m' == m)
  {
    hide EnterRound, ShouldSkip, TallyPrevotes, TallyPrecommits, Listed;
    ListedExactly(m.validatorSet.validators, v.voter);
    TallyAnswers(FileVote(m, v));
  }

  lemma TallyAnswers(m: Machine)
    ensures TallyPrevotes(m).1.Ok? && TallyPrecommits(m).1.Ok?
  {
  }

  /** Reacting to a prevote quorum for `h`: the lock moves unless the quorum is nil. */
  predicate Locked(m: Machine, m': Machine, h: Hash) {
    if h == ZERO_HASH then m' == m.(step := PrecommitStep)
    else m' == m.(step := PrecommitStep, lockedBlock := Some((m.round, h)), validBlock := Some((m.round, h)),
                  validProposal := m.proposal)
  }

  /** What a vote that is taken leaves behind: the vote is filed, and the answer says what else changed. */
  lemma VoteTakenExactly(m: Machine, v: Vote, ty: VoteType)
    requires OnVote(m, v, ty).1.Ok?
    ensures var (m', r) := OnVote(m, v, ty);
            var m1 := FileVote(m, v);
            match r.value
            case None => m' == m1
            case Some(SendPrevote(_)) => false
            case Some(SendPrecommit(w)) => v.round == m.round && Locked(m1, m', w.blockHash)
            case Some(CommitBlock(_, _, _)) => v.round == m.round && m' == m1.(step := CommitStep)
            case Some(ScheduleTimeout(_, _)) => v.round > m.round && Awaits(m, m', v.round)
  {
    hide ShouldSkip, ProofFor, LaterThan;
  }

  // ---------------------------------------------------------------------
  // Skipping ahead
  // ---------------------------------------------------------------------

  /** Whoever has voted for the round, as far as the machine knows. */
  function Heard(m: Machine, round: u32): set<Address> {
    TableAt(m, Prevote, round).Keys + TableAt(m, Precommit, round).Keys
  }

  lemma HeavyExactly(m: Machine, round: u32)
    ensures ShouldSkip(m, round) <==> 3 * m.validatorSet.PowerOf(FutureVoters(m, round)) > m.validatorSet.totalStake
  {
  }

  lemma FiledHeard(m: Machine, v: Vote)
    requires v.round > m.round
    ensures FutureVoters(FileVote(m, v), v.round) == Heard(m, v.round) + {v.voter}
  {
    FiledTable(m, v, Prevote, v.round);
    FiledTable(m, v, Precommit, v.round);
    assert FutureVoters(FileVote(m, v), v.round) == Heard(FileVote(m, v), v.round);
    hide FileVote, FutureVoters;
  }

  lemma FutureVoteSkips(m: Machine, v: Vote)
    requires Admissible(m, v) && v.round > m.round && v.voter !in TableAt(m, v.voteType, v.round)
    ensures OnVote(m, v, v.voteType) == SkipIfHeavy(FileVote(m, v), v.round)
  {
  }

  /**
   * A first vote for a later round moves the machine there exactly when the voters for that round,
   * of either kind, then hold more than a third of the stake.
   */
  lemma SkipsExactly(m: Machine, v: Vote)
    requires Admissible(m, v) && v.round > m.round && v.voter !in TableAt(m, v.voteType, v.round)
    ensures var (m', a) := React(m, VoteArrives(v));
            var heavy := 3 * m.validatorSet.PowerOf(Heard(m, v.round) + {v.voter}) > m.validatorSet.totalStake;
            && (m'.round == v.round <==> heavy)
            && (heavy ==> Awaits(m, m', v.round) && a == Some(ScheduleTimeout(Propose, 3000)))
            && (!heavy ==> m' == FileVote(m, v) && a == None)
  {
    hide OnPrevote, OnPrecommit, ShouldSkip, Heard, FutureVoters, LaterThan, Buffered, Listed, Power;
    FutureVoteSkips(m, v);
    HeavyExactly(FileVote(m, v), v.round);
    FiledHeard(m, v);
  }

  function VotersInBook(book: Book, round: u32): set<Address> {
    set s | s in book && s.round == round :: s.voter
  }

  lemma HeardIsBook(m: Machine, book: Book, round: u32)
    requires Refines(m, book) && round >= m.round
    ensures Heard(m, round) == VotersInBook(book, round)
  {
    forall a ensures a in Heard(m, round) <==> a in VotersInBook(book, round) {
      assert SlotAgrees(m, book, Prevote, round, a) && SlotAgrees(m, book, Precommit, round, a);
      if a in Heard(m, round) {
        var s := if a in TableAt(m, Prevote, round) then Slot(Prevote, round, a) else Slot(Precommit, round, a);
        assert s in book && s.round == round && s.voter == a;
      }
      if a in VotersInBook(book, round) {
        var s :| s in book && s.round == round && s.voter == a;
        assert s == if s.ty.Prevote? then Slot(Prevote, round, a) else Slot(Precommit, round, a);
      }
    }
  }

  /** The same over any history, by all the votes ever taken: where they were kept does not matter. */
  lemma SkipTheorem(ms: seq<Machine>, es: seq<Event>, v: Vote)
    requires History(ms, es)
    requires Admissible(ms[|es|], v) && v.round > ms[|es|].round && SlotOf(v) !in BookOf(ms, es)
    ensures var vs := ms[|es|].validatorSet;
            React(ms[|es|], VoteArrives(v)).0.round == v.round <==>
            3 * vs.PowerOf(VotersInBook(BookOf(ms, es), v.round) + {v.voter}) > vs.totalStake
  {
    var m, book := ms[|es|], BookOf(ms, es);
    BookTheorem(ms, es);
    assert SlotAgrees(m, book, v.voteType, v.round, v.voter);
    SkipsExactly(m, v);
    HeardIsBook(m, book, v.round);
  }

  // ---------------------------------------------------------------------
  // Timers
  // ---------------------------------------------------------------------

  /** A timer votes nil before the precommit step, moves to the next round in it, and is rearmed after it. */
  lemma TimeoutExactly(m: Machine)
    ensures m.step.Rank() == 0 ==>
              OnTimeout(m) == (m.(step := PrevoteStep),
                               SendPrevote(Vote(m.height, m.round, Prevote, ZERO_HASH, m.localAddress)))
    ensures m.step.PrevoteStep? ==>
              OnTimeout(m) == (m.(step := PrecommitStep),
                               SendPrecommit(Vote(m.height, m.round, Precommit, ZERO_HASH, m.localAddress)))
    ensures m.step.PrecommitStep? ==>
              && Awaits(m, OnTimeout(m).0, if m.round < U32_MAX then m.round + 1 else U32_MAX)
              && OnTimeout(m).1 == ScheduleTimeout(Propose, 3000)
    ensures m.step.CommitStep? ==> OnTimeout(m) == (m, ScheduleTimeout(CommitStep, 3000))
  {
  }
}

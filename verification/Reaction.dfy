/** One machine reacting to one event, and the local discipline every reaction keeps. */
module Reaction {
  import opened Basics
  import opened Validators
  import opened Votes
  import opened QuorumScan
  import opened Machine

  datatype Event =
    | ProposalArrives(p: Proposal)
    | VoteArrives(v: Vote)
    | TimerFires
    | BeginPropose                       // the runtime moves NewRound to Propose while it waits
    | HeightAdvances(newHeight: u64, newSet: ValidatorSet)

  predicate Defined(m: Machine, e: Event) {
    match e
    case ProposalArrives(p) => ProposalDefined(m, p)
    case HeightAdvances(h, vs) => h > m.height && vs.Valid()
    case _ => true
  }

  ghost function React(m: Machine, e: Event): (Machine, Option<Action>)
    requires Defined(m, e)
  {
    match e
    case ProposalArrives(p) => var (m', r) := OnProposal(m, p); (m', if r.Ok? then Some(r.value) else None)
    case VoteArrives(v) =>
      var (m', r) := if v.voteType.Prevote? then OnPrevote(m, v) else OnPrecommit(m, v);
      (m', if r.Ok? then r.value else None)
    case TimerFires => var (m', a) := OnTimeout(m); (m', Some(a))
    case BeginPropose => (if m.step.NewRound? then m.(step := Propose) else m, None)
    case HeightAdvances(h, vs) => (AdvanceHeight(UpdateValidatorSet(m, vs), h), None)
  }

  /** The one call whose round increment saturates: a precommit timeout in the last round. */
  predicate Wraps(m: Machine, e: Event) {
    e.TimerFires? && m.step.PrecommitStep? && m.round == U32_MAX
  }

  predicate Within(votes: Table, s: set<Vote>) {
    forall a :: a in votes ==> votes[a] in s
  }

  predicate BuffersWithin(buffers: map<u32, Table>, s: set<Vote>) {
    forall r :: r in buffers ==> Within(buffers[r], s)
  }

  /** Every vote the machine keeps comes from `s`. */
  predicate HoldsOnly(m: Machine, s: set<Vote>) {
    && Within(m.prevotes, s) && Within(m.precommits, s)
    && BuffersWithin(m.futurePrevotes, s) && BuffersWithin(m.futurePrecommits, s)
  }

  /** A lock names a block; a lock of the current round is backed by the prevotes on the table. */
  predicate LockBacked(lock: Option<(u32, Hash)>, round: u32, vs: ValidatorSet, prevotes: Table) {
    lock.Some? ==>
      && lock.value.0 <= round
      && lock.value.1 != ZERO_HASH
      && (lock.value.0 == round ==> HasQuorum(vs, prevotes, lock.value.1))
  }

  predicate Sound(m: Machine, s: set<Vote>) {
    WellFormed(m) && HoldsOnly(m, s) && LockBacked(m.lockedBlock, m.round, m.validatorSet, m.prevotes)
  }

  /** What a machine may do to its lock, and what it may send, in one reaction at one height. */
  predicate Disciplined(m: Machine, m': Machine, a: Option<Action>) {
    && m'.height == m.height && m'.validatorSet == m.validatorSet && m'.localAddress == m.localAddress
    && m'.round >= m.round
    && (m'.lockedBlock != m.lockedBlock ==>
          && a.Some? && a.value.SendPrecommit? && a.value.vote.blockHash != ZERO_HASH)
    && (a.Some? && a.value.SendPrevote? ==>
          && a.value.vote == OwnVote(m', Prevote, a.value.vote.blockHash)
          && (a.value.vote.blockHash != ZERO_HASH && m.lockedBlock.Some? ==>
                m.lockedBlock.value.1 == a.value.vote.blockHash))
    && (a.Some? && a.value.SendPrecommit? ==>
          var h := a.value.vote.blockHash;
          && a.value.vote == OwnVote(m', Precommit, h)
          && m'.round == m.round
          && (h != ZERO_HASH ==>
                && m'.lockedBlock == Some((m'.round, h))
                && HasQuorum(m'.validatorSet, m'.prevotes, h)
                && (m.lockedBlock.Some? && m.lockedBlock.value.0 == m.round ==> m.lockedBlock.value.1 == h)))
    && (a.Some? && a.value.CommitBlock? ==>
          && a.value.height == m'.height
          && a.value.blockHash != ZERO_HASH
          && a.value.proof == ProofFor(m', a.value.blockHash)
          && HasQuorum(m'.validatorSet, m'.precommits, a.value.blockHash))
  }

  lemma EnterRoundSound(m: Machine, target: u32, s: set<Vote>)
    requires Sound(m, s) && target > m.round
    ensures Sound(EnterRound(m, target), s)
    ensures Disciplined(m, EnterRound(m, target), None)
  {
  }

  /** A prevote table only grows within a round, so a lock taken in the round stays backed. */
  lemma QuorumGrows(vs: ValidatorSet, votes: Table, v: Vote, h: Hash)
    requires v.voter !in votes && HasQuorum(vs, votes, h)
    ensures HasQuorum(vs, votes[v.voter := v], h)
  {
    PowerMonotone(vs.validators, VotersFor(votes, h), VotersFor(votes[v.voter := v], h));
  }

  lemma ProposalSound(m: Machine, p: Proposal, s: set<Vote>)
    requires Sound(m, s) && ProposalDefined(m, p)
    ensures var (m', a) := React(m, ProposalArrives(p)); Sound(m', s) && Disciplined(m, m', a)
  {
    if p.height == m.height && p.round > m.round {
      EnterRoundSound(m, p.round, s);
    }
  }

  lemma SkipSound(m: Machine, round: u32, s: set<Vote>)
    requires Sound(m, s) && round > m.round
    ensures var (m', r) := SkipIfHeavy(m, round); Sound(m', s) && Disciplined(m, m', if r.Ok? then r.value else None)
  {
    EnterRoundSound(m, round, s);
  }

  lemma PrevoteBuffered(m: Machine, v: Vote, s: set<Vote>)
    requires Sound(m, s) && v in s && v.round > m.round && VoteBasics(m, v, Prevote).None?
    ensures var table := Buffered(m.futurePrevotes, v.round);
            Sound(m.(futurePrevotes := m.futurePrevotes[v.round := table[v.voter := v]]), s)
  {
    hide HasQuorum;
  }

  lemma PrevoteSound(m: Machine, v: Vote, s: set<Vote>)
    requires Sound(m, s) && v in s
    ensures var (m', r) := OnPrevote(m, v); Sound(m', s) && Disciplined(m, m', if r.Ok? then r.value else None)
  {
    hide EnterRound, TallyPrevotes, HasQuorum, ShouldSkip, Sound, ProofFor;
    if VoteBasics(m, v, Prevote).None? && v.round >= m.round {
      if v.round > m.round {
        var table := Buffered(m.futurePrevotes, v.round);
        if v.voter !in table {
          PrevoteBuffered(m, v, s);
          SkipSound(m.(futurePrevotes := m.futurePrevotes[v.round := table[v.voter := v]]), v.round, s);
        }
      } else if v.voter !in m.prevotes {
        TallyPrevotesSound(m, v, s);
      }
    }
  }

  lemma PrevoteFiled(m: Machine, v: Vote, s: set<Vote>)
    requires Sound(m, s) && v in s
    requires v.height == m.height && v.round == m.round && v.voteType.Prevote? && m.validatorSet.Contains(v.voter)
    requires v.voter !in m.prevotes
    ensures Sound(m.(prevotes := m.prevotes[v.voter := v]), s)
  {
    if m.lockedBlock.Some? && m.lockedBlock.value.0 == m.round {
      QuorumGrows(m.validatorSet, m.prevotes, v, m.lockedBlock.value.1);
    }
  }

  lemma PolkaSound(m: Machine, h: Hash, s: set<Vote>)
    requires Sound(m, s) && HasQuorum(m.validatorSet, m.prevotes, h)
    ensures Sound(Polka(m, h), s)
    ensures Disciplined(m, Polka(m, h), Some(SendPrecommit(OwnVote(m, Precommit, h))))
  {
    if m.lockedBlock.Some? && m.lockedBlock.value.0 == m.round {
      QuorumUnique(m.validatorSet, m.prevotes, m.lockedBlock.value.1, h);
    }
  }

  lemma TallyPrevotesSound(m: Machine, v: Vote, s: set<Vote>)
    requires Sound(m, s) && v in s
    requires v.height == m.height && v.round == m.round && v.voteType.Prevote? && m.validatorSet.Contains(v.voter)
    requires v.voter !in m.prevotes
    ensures var m1 := m.(prevotes := m.prevotes[v.voter := v]);
            var (m', r) := TallyPrevotes(m1);
            Sound(m', s) && Disciplined(m, m', if r.Ok? then r.value else None)
  {
    var m1 := m.(prevotes := m.prevotes[v.voter := v]);
    PrevoteFiled(m, v, s);
    var quorum := QuorumHash(m1.validatorSet, m1.prevotes);
    if quorum.Some? && (m1.step.PrevoteStep? || m1.step.Propose?) {
      PolkaSound(m1, quorum.value, s);
    }
  }

  lemma PrecommitBuffered(m: Machine, v: Vote, s: set<Vote>)
    requires Sound(m, s) && v in s && v.round > m.round && VoteBasics(m, v, Precommit).None?
    ensures var table := Buffered(m.futurePrecommits, v.round);
            Sound(m.(futurePrecommits := m.futurePrecommits[v.round := table[v.voter := v]]), s)
  {
    hide HasQuorum;
  }

  lemma PrecommitSound(m: Machine, v: Vote, s: set<Vote>)
    requires Sound(m, s) && v in s
    ensures var (m', r) := OnPrecommit(m, v); Sound(m', s) && Disciplined(m, m', if r.Ok? then r.value else None)
  {
    hide EnterRound, TallyPrecommits, HasQuorum, ShouldSkip, Sound, ProofFor;
    if VoteBasics(m, v, Precommit).None? && v.round >= m.round {
      if v.round > m.round {
        var table := Buffered(m.futurePrecommits, v.round);
        if v.voter !in table {
          PrecommitBuffered(m, v, s);
          SkipSound(m.(futurePrecommits := m.futurePrecommits[v.round := table[v.voter := v]]), v.round, s);
        }
      } else if v.voter !in m.precommits {
        TallyPrecommitsSound(m, v, s);
      }
    }
  }

  lemma TallyPrecommitsSound(m: Machine, v: Vote, s: set<Vote>)
    requires Sound(m, s) && v in s
    requires v.height == m.height && v.round == m.round && v.voteType.Precommit? && m.validatorSet.Contains(v.voter)
    requires v.voter !in m.precommits
    ensures var m1 := m.(precommits := m.precommits[v.voter := v]);
            var (m', r) := TallyPrecommits(m1);
            Sound(m', s) && Disciplined(m, m', if r.Ok? then r.value else None)
  {
    assert Sound(m.(precommits := m.precommits[v.voter := v]), s);
  }

  lemma TimerSound(m: Machine, s: set<Vote>)
    requires Sound(m, s) && !Wraps(m, TimerFires)
    ensures var (m', a) := OnTimeout(m); Sound(m', s) && Disciplined(m, m', Some(a))
  {
    hide EnterRound, Filed, LockBacked, HasQuorum;
    var (m', a) := OnTimeout(m);
    if m.step.PrecommitStep? {
      EnterRoundSound(m, m.round + 1, s);
    } else {
      assert m' == m.(step := m'.step);
    }
  }

  /** Every reaction at a height keeps a sound machine sound and within the discipline. */
  lemma ReactSound(m: Machine, e: Event, s: set<Vote>)
    requires Sound(m, s) && Defined(m, e) && !Wraps(m, e) && !e.HeightAdvances?
    requires e.VoteArrives? ==> e.v in s
    ensures var (m', a) := React(m, e); Sound(m', s) && Disciplined(m, m', a)
  {
    match e
    case ProposalArrives(p) => ProposalSound(m, p, s);
    case VoteArrives(v) =>
      if v.voteType.Prevote? {
        PrevoteSound(m, v, s);
      } else {
        PrecommitSound(m, v, s);
      }
    case TimerFires => TimerSound(m, s);
    case BeginPropose =>
  }

  lemma TallyKeepsRound(m: Machine, v: Vote)
    ensures TallyPrevotes(m.(prevotes := m.prevotes[v.voter := v])).0.round == m.round
    ensures TallyPrecommits(m.(precommits := m.precommits[v.voter := v])).0.round == m.round
  {
  }

  lemma HeavyMeans(m: Machine, round: u32)
    requires ShouldSkip(m, round)
    ensures m.validatorSet.PowerOf(FutureVoters(m, round)) >= m.validatorSet.SkipThreshold()
  {
  }

  /** A vote changes the round only by completing enough stake for a later round, which it then enters. */
  lemma SkipCause(m: Machine, v: Vote)
    requires React(m, VoteArrives(v)).0.round != m.round
    ensures v.height == m.height && v.round > m.round && React(m, VoteArrives(v)).0.round == v.round
    ensures m.validatorSet.PowerOf(FutureVoters(m, v.round) + {v.voter}) >= m.validatorSet.SkipThreshold()
  {
    hide LaterThan, QuorumHash, ProofFor, Polka, TallyPrevotes, TallyPrecommits, ShouldSkip;
    TallyKeepsRound(m, v);
    var pv, pc := Buffered(m.futurePrevotes, v.round), Buffered(m.futurePrecommits, v.round);
    if v.voteType.Prevote? {
      var m1 := m.(futurePrevotes := m.futurePrevotes[v.round := pv[v.voter := v]]);
      assert FutureVoters(m1, v.round) == FutureVoters(m, v.round) + {v.voter};
      HeavyMeans(m1, v.round);
    } else {
      var m1 := m.(futurePrecommits := m.futurePrecommits[v.round := pc[v.voter := v]]);
      assert FutureVoters(m1, v.round) == FutureVoters(m, v.round) + {v.voter};
      HeavyMeans(m1, v.round);
    }
  }
}

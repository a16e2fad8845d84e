/** `ConsensusStateMachine`: the mutable object, each handler proved to compute its function in `Machine`. */
module StateMachine {
  import opened Basics
  import opened Validators
  import opened Votes
  import opened QuorumScan
  import M = Machine

  class ConsensusStateMachine {
    var height: u64
    var round: u32
    var step: Step
    var validatorSet: ValidatorSet
    var localAddress: Address
    var proposal: Option<Proposal>
    var prevotes: M.Table
    var precommits: M.Table
    var lockedBlock: Option<(u32, Hash)>
    var validBlock: Option<(u32, Hash)>
    var validProposal: Option<Proposal>
    var futurePrevotes: map<u32, M.Table>
    var futurePrecommits: map<u32, M.Table>

    function View(): M.Machine
      reads this
    {
      M.Machine(height, round, step, validatorSet, localAddress, proposal, prevotes, precommits,
                lockedBlock, validBlock, validProposal, futurePrevotes, futurePrecommits)
    }

    predicate Valid()
      reads this
    {
      M.WellFormed(View())
    }

    constructor (height: u64, vs: ValidatorSet, local: Address)
      requires vs.Valid()
      ensures View() == M.New(height, vs, local) && Valid()
    {
      this.height := height;
      round := 0;
      step := NewRound;
      validatorSet := vs;
      localAddress := local;
      proposal := None;
      prevotes := map[];
      precommits := map[];
      lockedBlock := None;
      validBlock := None;
      validProposal := None;
      futurePrevotes := map[];
      futurePrecommits := map[];
    }

    method OnProposal(p: Proposal) returns (r: Result<Action, ConsensusError>)
      requires Valid() && M.ProposalDefined(View(), p)
      modifies this
      ensures Valid()
      ensures (View(), r) == M.OnProposal(old(View()), p)
    {
      M.OnProposalFiles(View(), p);
      if p.height != height {
        return Err(WrongHeight(height, p.height));
      }
      if p.round < round {
        return Err(WrongRound(round, p.round));
      }
      if p.round > round {
        SkipToRound(p.round);
      }
      var expected := validatorSet.GetProposer(height, round).address;
      if p.proposer != expected {
        var isValidReproposal := validBlock.Some? && validBlock.value.1 == p.block.hash;
        if !isValidReproposal {
          return Err(InvalidProposer);
        }
      }
      if !validatorSet.Contains(p.proposer) {
        return Err(NotValidator);
      }
      proposal := Some(p);
      var prevoteHash := p.block.hash;
      if lockedBlock.Some? && lockedBlock.value.1 != p.block.hash {
        prevoteHash := ZERO_HASH;
      }
      step := PrevoteStep;
      r := Ok(SendPrevote(Vote(height, round, Prevote, prevoteHash, localAddress)));
    }

    method OnPrevote(v: Vote) returns (r: Result<Option<Action>, ConsensusError>)
      requires Valid()
      modifies this
      ensures Valid()
      ensures (View(), r) == M.OnPrevote(old(View()), v)
    {
      M.OnPrevoteFiles(View(), v);
      M.FiledKeyed(View(), v);
      hide M.SkipIfHeavy, M.TallyPrevotes, M.WellFormed, KeyedByVoter;
      var basics := M.VoteBasics(View(), v, Prevote);
      if basics.Some? {
        return Err(basics.value);
      }
      if v.round < round {
        return Err(WrongRound(round, v.round));
      }
      if v.round > round {
        var table := if v.round in futurePrevotes then futurePrevotes[v.round] else map[];
        if v.voter in table {
          return Err(DuplicateVoteError);
        }
        futurePrevotes := futurePrevotes[v.round := table[v.voter := v]];
        r := SkipIfHeavy(v.round);
        return;
      }
      if v.voter in prevotes {
        return Err(DuplicateVoteError);
      }
      prevotes := prevotes[v.voter := v];
      r := TallyPrevotes();
    }

    method TallyPrevotes() returns (r: Result<Option<Action>, ConsensusError>)
      requires validatorSet.Valid() && KeyedByVoter(prevotes)
      modifies this
      ensures (View(), r) == M.TallyPrevotes(old(View()))
    {
      var quorum := FindQuorum(validatorSet, prevotes);
      if quorum.Some? && (step == PrevoteStep || step == Propose) {
        var hash := quorum.value;
        step := PrecommitStep;
        if hash != ZERO_HASH {
          lockedBlock := Some((round, hash));
          validBlock := Some((round, hash));
          validProposal := proposal;
        }
        return Ok(Some(SendPrecommit(Vote(height, round, Precommit, hash, localAddress))));
      }
      r := Ok(None);
    }

    method OnPrecommit(v: Vote) returns (r: Result<Option<Action>, ConsensusError>)
      requires Valid()
      modifies this
      ensures Valid()
      ensures (View(), r) == M.OnPrecommit(old(View()), v)
    {
      M.OnPrecommitFiles(View(), v);
      M.FiledKeyed(View(), v);
      hide M.SkipIfHeavy, M.TallyPrecommits, M.WellFormed, KeyedByVoter;
      var basics := M.VoteBasics(View(), v, Precommit);
      if basics.Some? {
        return Err(basics.value);
      }
      if v.round < round {
        return Err(WrongRound(round, v.round));
      }
      if v.round > round {
        var table := if v.round in futurePrecommits then futurePrecommits[v.round] else map[];
        if v.voter in table {
          return Err(DuplicateVoteError);
        }
        futurePrecommits := futurePrecommits[v.round := table[v.voter := v]];
        r := SkipIfHeavy(v.round);
        return;
      }
      if v.voter in precommits {
        return Err(DuplicateVoteError);
      }
      precommits := precommits[v.voter := v];
      r := TallyPrecommits();
    }

    method TallyPrecommits() returns (r: Result<Option<Action>, ConsensusError>)
      requires validatorSet.Valid() && KeyedByVoter(precommits)
      modifies this
      ensures (View(), r) == M.TallyPrecommits(old(View()))
    {
      var quorum := FindQuorum(validatorSet, precommits);
      if quorum.Some? {
        var hash := quorum.value;
        if hash != ZERO_HASH && step != CommitStep {
          step := CommitStep;
          var votes := set a | a in precommits && precommits[a].blockHash == hash :: precommits[a];
          return Ok(Some(CommitBlock(height, hash, CommitProof(height, round, hash, votes))));
        }
      }
      r := Ok(None);
    }

    method OnTimeout() returns (action: Action)
      requires Valid()
      modifies this
      ensures Valid()
      ensures (View(), action) == M.OnTimeout(old(View()))
    {
      M.OnTimeoutFiles(View());
      match step {
        case NewRound =>
          step := PrevoteStep;
          action := SendPrevote(Vote(height, round, Prevote, ZERO_HASH, localAddress));
        case Propose =>
          step := PrevoteStep;
          action := SendPrevote(Vote(height, round, Prevote, ZERO_HASH, localAddress));
        case PrevoteStep =>
          step := PrecommitStep;
          action := SendPrecommit(Vote(height, round, Precommit, ZERO_HASH, localAddress));
        case PrecommitStep =>
          action := StartNewRound(SatAdd32(round, 1));
        case CommitStep =>
          action := ScheduleTimeout(CommitStep, PROPOSE_TIMEOUT_MS);
      }
    }

    method AdvanceHeight(newHeight: u64)
      requires validatorSet.Valid()
      modifies this
      ensures Valid()
      ensures View() == M.AdvanceHeight(old(View()), newHeight)
    {
      hide M.WellFormed;
      M.NewFiles(newHeight, validatorSet, localAddress);
      height, round, step := newHeight, 0, NewRound;
      proposal, prevotes, precommits := None, map[], map[];
      lockedBlock, validBlock, validProposal := None, None, None;
      futurePrevotes, futurePrecommits := map[], map[];
    }

    /** The tables may hold votes of validators that have left, until the next height. */
    method UpdateValidatorSet(vs: ValidatorSet)
      modifies this`validatorSet
      ensures View() == M.UpdateValidatorSet(old(View()), vs)
    {
      validatorSet := vs;
    }

    method SkipIfHeavy(target: u32) returns (r: Result<Option<Action>, ConsensusError>)
      requires validatorSet.Valid() && target > round
      modifies this
      ensures (View(), r) == M.SkipIfHeavy(old(View()), target)
    {
      var voters: set<Address> := {};
      if target in futurePrevotes {
        voters := voters + futurePrevotes[target].Keys;
      }
      if target in futurePrecommits {
        voters := voters + futurePrecommits[target].Keys;
      }
      assert voters == M.FutureVoters(View(), target);
      var stake := SumStake(validatorSet, voters);
      if stake >= validatorSet.SkipThreshold() {
        SkipToRound(target);
        return Ok(Some(ScheduleTimeout(Propose, PROPOSE_TIMEOUT_MS)));
      }
      r := Ok(None);
    }

    method SkipToRound(target: u32)
      requires target > round
      modifies this
      ensures View() == M.EnterRound(old(View()), target)
    {
      EnterRound(target);
    }

    /** The precommit timeout: at the last round number `target` is the current round again. */
    method StartNewRound(target: u32) returns (action: Action)
      modifies this
      ensures (View(), action) == (M.EnterRound(old(View()), target), M.PROPOSE_TIMER)
    {
      EnterRound(target);
      action := ScheduleTimeout(Propose, PROPOSE_TIMEOUT_MS);
    }

    /** Clear the per-round state, load what was buffered for the round now entered, drop stale buffers. */
    method EnterRound(target: u32)
      modifies this
      ensures View() == M.EnterRound(old(View()), target)
    {
      hide M.LaterThan, M.Buffered;
      var prevotesNow, prevotesLater := TakeRound(futurePrevotes, target);
      var precommitsNow, precommitsLater := TakeRound(futurePrecommits, target);
      round, step, proposal := target, Propose, None;
      prevotes, precommits := prevotesNow, precommitsNow;
      futurePrevotes, futurePrecommits := prevotesLater, precommitsLater;
    }
  }

  /** Remove the table buffered for `target` and retain only the rounds after it. */
  method TakeRound(buffers: map<u32, M.Table>, target: u32) returns (table: M.Table, rest: map<u32, M.Table>)
    ensures table == M.Buffered(buffers, target)
    ensures rest == M.LaterThan(buffers, target)
  {
    table, rest := map[], buffers;
    if target in rest {
      table := rest[target];
      rest := rest - {target};
    }
    rest := M.LaterThan(rest, target);
  }
}

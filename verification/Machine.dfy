/**
 * What each handler of `ConsensusStateMachine` computes, as functions on values. The class in
 * `StateMachine.dfy` is proved to compute exactly these; the network model runs them.
 */
module Machine {
  import opened Basics
  import opened Validators
  import opened Votes
  import opened QuorumScan

  type Table = map<Address, Vote>

  datatype Machine = Machine(
    height: u64,
    round: u32,
    step: Step,
    validatorSet: ValidatorSet,
    localAddress: Address,
    proposal: Option<Proposal>,
    prevotes: Table,
    precommits: Table,
    lockedBlock: Option<(u32, Hash)>,
    validBlock: Option<(u32, Hash)>,
    validProposal: Option<Proposal>,
    futurePrevotes: map<u32, Table>,
    futurePrecommits: map<u32, Table>)

  function New(height: u64, vs: ValidatorSet, local: Address): Machine {
    Machine(height, 0, NewRound, vs, local, None, map[], map[], None, None, None, map[], map[])
  }

  // ---------------------------------------------------------------------
  // Rounds
  // ---------------------------------------------------------------------

  function Buffered(buffers: map<u32, Table>, round: u32): Table {
    if round in buffers then buffers[round] else map[]
  }

  function LaterThan(buffers: map<u32, Table>, round: u32): map<u32, Table> {
    map r | r in buffers && r > round :: buffers[r]
  }

  /** `skip_to_round`, and `start_new_round` after it has set the round. */
  function EnterRound(m: Machine, target: u32): Machine {
    m.(round := target,
       step := Propose,
       proposal := None,
       prevotes := Buffered(m.futurePrevotes, target),
       precommits := Buffered(m.futurePrecommits, target),
       futurePrevotes := LaterThan(m.futurePrevotes, target),
       futurePrecommits := LaterThan(m.futurePrecommits, target))
  }

  const PROPOSE_TIMER := ScheduleTimeout(Propose, PROPOSE_TIMEOUT_MS)

  function OwnVote(m: Machine, ty: VoteType, h: Hash): Vote {
    Vote(m.height, m.round, ty, h, m.localAddress)
  }

  // ---------------------------------------------------------------------
  // on_proposal
  // ---------------------------------------------------------------------

  /** A nil prevote if locked on another block, the proposed block otherwise. */
  function PrevoteHash(m: Machine, h: Hash): Hash {
    if m.lockedBlock.Some? && m.lockedBlock.value.1 != h then ZERO_HASH else h
  }

  predicate AcceptableProposer(m: Machine, p: Proposal)
    requires m.validatorSet.validators != []
  {
    || p.proposer == m.validatorSet.GetProposer(m.height, m.round).address
    || (m.validBlock.Some? && m.validBlock.value.1 == p.block.hash)
  }

  /** The machine panics on an empty validator set once it needs the proposer. */
  predicate ProposalDefined(m: Machine, p: Proposal) {
    p.height == m.height && p.round >= m.round ==> m.validatorSet.validators != []
  }

  function OnProposal(m: Machine, p: Proposal): (Machine, Result<Action, ConsensusError>)
    requires ProposalDefined(m, p)
  {
    if p.height != m.height then (m, Err(WrongHeight(m.height, p.height)))
    else if p.round < m.round then (m, Err(WrongRound(m.round, p.round)))
    else
      var m1 := if p.round > m.round then EnterRound(m, p.round) else m;
      if !AcceptableProposer(m1, p) then (m1, Err(InvalidProposer))
      else if !m1.validatorSet.Contains(p.proposer) then (m1, Err(NotValidator))
      else
        var m2 := m1.(proposal := Some(p), step := PrevoteStep);
        (m2, Ok(SendPrevote(OwnVote(m2, Prevote, PrevoteHash(m1, p.block.hash)))))
  }

  // ---------------------------------------------------------------------
  // on_prevote, on_precommit
  // ---------------------------------------------------------------------

  function VoteBasics(m: Machine, v: Vote, expected: VoteType): Option<ConsensusError> {
    if v.height != m.height then Some(WrongHeight(m.height, v.height))
    else if v.voteType != expected then Some(InvalidVote)
    else if !m.validatorSet.Contains(v.voter) then Some(NotValidator)
    else None
  }

  function FutureVoters(m: Machine, round: u32): set<Address> {
    Buffered(m.futurePrevotes, round).Keys + Buffered(m.futurePrecommits, round).Keys
  }

  predicate ShouldSkip(m: Machine, round: u32) {
    m.validatorSet.PowerOf(FutureVoters(m, round)) >= m.validatorSet.SkipThreshold()
  }

  function SkipIfHeavy(m: Machine, round: u32): (Machine, Result<Option<Action>, ConsensusError>) {
    if ShouldSkip(m, round) then (EnterRound(m, round), Ok(Some(PROPOSE_TIMER))) else (m, Ok(None))
  }

  ghost function OnPrevote(m: Machine, v: Vote): (Machine, Result<Option<Action>, ConsensusError>) {
    var basics := VoteBasics(m, v, Prevote);
    if basics.Some? then (m, Err(basics.value))
    else if v.round < m.round then (m, Err(WrongRound(m.round, v.round)))
    else if v.round > m.round then
      var table := Buffered(m.futurePrevotes, v.round);
      if v.voter in table then (m, Err(DuplicateVoteError))
      else SkipIfHeavy(m.(futurePrevotes := m.futurePrevotes[v.round := table[v.voter := v]]), v.round)
    else if v.voter in m.prevotes then (m, Err(DuplicateVoteError))
    else
      TallyPrevotes(m.(prevotes := m.prevotes[v.voter := v]))
  }

  /** A prevote quorum counts only while this round has not yet been precommitted. */
  ghost function TallyPrevotes(m: Machine): (Machine, Result<Option<Action>, ConsensusError>) {
    var quorum := QuorumHash(m.validatorSet, m.prevotes);
    if quorum.Some? && (m.step.PrevoteStep? || m.step.Propose?) then
      (Polka(m, quorum.value), Ok(Some(SendPrecommit(OwnVote(m, Precommit, quorum.value)))))
    else (m, Ok(None))
  }

  /** Reaction to a prevote quorum: lock unless it is nil. */
  function Polka(m: Machine, h: Hash): Machine {
    if h == ZERO_HASH then m.(step := PrecommitStep)
    else m.(step := PrecommitStep, lockedBlock := Some((m.round, h)), validBlock := Some((m.round, h)),
            validProposal := m.proposal)
  }

  ghost function OnPrecommit(m: Machine, v: Vote): (Machine, Result<Option<Action>, ConsensusError>) {
    var basics := VoteBasics(m, v, Precommit);
    if basics.Some? then (m, Err(basics.value))
    else if v.round < m.round then (m, Err(WrongRound(m.round, v.round)))
    else if v.round > m.round then
      var table := Buffered(m.futurePrecommits, v.round);
      if v.voter in table then (m, Err(DuplicateVoteError))
      else SkipIfHeavy(m.(futurePrecommits := m.futurePrecommits[v.round := table[v.voter := v]]), v.round)
    else if v.voter in m.precommits then (m, Err(DuplicateVoteError))
    else
      TallyPrecommits(m.(precommits := m.precommits[v.voter := v]))
  }

  ghost function TallyPrecommits(m: Machine): (Machine, Result<Option<Action>, ConsensusError>) {
    var quorum := QuorumHash(m.validatorSet, m.precommits);
    if quorum.Some? && quorum.value != ZERO_HASH && !m.step.CommitStep? then
      (m.(step := CommitStep), Ok(Some(CommitBlock(m.height, quorum.value, ProofFor(m, quorum.value)))))
    else (m, Ok(None))
  }

  function ProofFor(m: Machine, h: Hash): CommitProof {
    CommitProof(m.height, m.round, h, set a | a in m.precommits && m.precommits[a].blockHash == h :: m.precommits[a])
  }

  // ---------------------------------------------------------------------
  // on_timeout, advance_height
  // ---------------------------------------------------------------------

  function OnTimeout(m: Machine): (Machine, Action) {
    match m.step
    case NewRound => (m.(step := PrevoteStep), SendPrevote(OwnVote(m, Prevote, ZERO_HASH)))
    case Propose => (m.(step := PrevoteStep), SendPrevote(OwnVote(m, Prevote, ZERO_HASH)))
    case PrevoteStep => (m.(step := PrecommitStep), SendPrecommit(OwnVote(m, Precommit, ZERO_HASH)))
    case PrecommitStep => (EnterRound(m, SatAdd32(m.round, 1)), PROPOSE_TIMER)
    case CommitStep => (m, ScheduleTimeout(CommitStep, PROPOSE_TIMEOUT_MS))
  }

  function AdvanceHeight(m: Machine, newHeight: u64): Machine {
    New(newHeight, m.validatorSet, m.localAddress)
  }

  /** `update_validator_set`: the votes stay, whatever the new set says about them. */
  function UpdateValidatorSet(m: Machine, vs: ValidatorSet): Machine {
    m.(validatorSet := vs)
  }

  // ---------------------------------------------------------------------
  // Shape of a machine
  // ---------------------------------------------------------------------

  predicate TableFor(votes: Table, vs: ValidatorSet, height: u64, round: u32, ty: VoteType) {
    forall a :: a in votes ==>
      && votes[a].voter == a && vs.Contains(a)
      && votes[a].height == height && votes[a].round == round && votes[a].voteType == ty
  }

  predicate BuffersFor(buffers: map<u32, Table>, vs: ValidatorSet, height: u64, round: u32, ty: VoteType) {
    forall r :: r in buffers ==> r > round && TableFor(buffers[r], vs, height, r, ty)
  }

  /** Only members' votes are kept, filed under their voter and round, and every buffered round lies ahead. */
  predicate Filed(prevotes: Table, precommits: Table, futurePrevotes: map<u32, Table>,
                  futurePrecommits: map<u32, Table>, vs: ValidatorSet, height: u64, round: u32)
  {
    && TableFor(prevotes, vs, height, round, Prevote)
    && TableFor(precommits, vs, height, round, Precommit)
    && BuffersFor(futurePrevotes, vs, height, round, Prevote)
    && BuffersFor(futurePrecommits, vs, height, round, Precommit)
  }

  predicate WellFormed(m: Machine) {
    && m.validatorSet.Valid()
    && Filed(m.prevotes, m.precommits, m.futurePrevotes, m.futurePrecommits, m.validatorSet, m.height, m.round)
  }

  // ---------------------------------------------------------------------
  // Every handler keeps the shape
  // ---------------------------------------------------------------------

  lemma NewFiles(height: u64, vs: ValidatorSet, local: Address)
    requires vs.Valid()
    ensures WellFormed(New(height, vs, local))
  {
  }

  lemma FiledKeyed(m: Machine, v: Vote)
    requires WellFormed(m)
    ensures m.validatorSet.Valid()
    ensures KeyedByVoter(m.prevotes[v.voter := v]) && KeyedByVoter(m.precommits[v.voter := v])
  {
  }

  /** A new validator set and a new height, in either order, leave a machine in round 0 that knows nothing. */
  lemma HeightChange(m: Machine, newHeight: u64, vs: ValidatorSet)
    ensures AdvanceHeight(UpdateValidatorSet(m, vs), newHeight) == UpdateValidatorSet(AdvanceHeight(m, newHeight), vs)
    ensures AdvanceHeight(UpdateValidatorSet(m, vs), newHeight) ==
            Machine(newHeight, 0, NewRound, vs, m.localAddress, None, map[], map[], None, None, None, map[], map[])
  {
  }

  lemma EnterRoundFiles(m: Machine, target: u32)
    requires WellFormed(m) && target >= m.round
    ensures WellFormed(EnterRound(m, target))
  {
  }

  lemma OnProposalFiles(m: Machine, p: Proposal)
    requires WellFormed(m) && ProposalDefined(m, p)
    ensures WellFormed(OnProposal(m, p).0)
  {
    if p.height == m.height && p.round > m.round {
      EnterRoundFiles(m, p.round);
    }
  }

  lemma BufferFiles(buffers: map<u32, Table>, vs: ValidatorSet, height: u64, round: u32, ty: VoteType, v: Vote)
    requires BuffersFor(buffers, vs, height, round, ty)
    requires v.height == height && v.round > round && v.voteType == ty && vs.Contains(v.voter)
    ensures BuffersFor(buffers[v.round := Buffered(buffers, v.round)[v.voter := v]], vs, height, round, ty)
  {
  }

  lemma OnPrevoteFiles(m: Machine, v: Vote)
    requires WellFormed(m)
    ensures WellFormed(OnPrevote(m, v).0)
  {
    if VoteBasics(m, v, Prevote).None? {
      if v.round > m.round {
        BufferFiles(m.futurePrevotes, m.validatorSet, m.height, m.round, Prevote, v);
        var table := Buffered(m.futurePrevotes, v.round);
        EnterRoundFiles(m.(futurePrevotes := m.futurePrevotes[v.round := table[v.voter := v]]), v.round);
      } else if v.round == m.round {
        assert TableFor(m.prevotes[v.voter := v], m.validatorSet, m.height, m.round, Prevote);
      }
    }
  }

  lemma OnPrecommitFiles(m: Machine, v: Vote)
    requires WellFormed(m)
    ensures WellFormed(OnPrecommit(m, v).0)
  {
    if VoteBasics(m, v, Precommit).None? {
      if v.round > m.round {
        BufferFiles(m.futurePrecommits, m.validatorSet, m.height, m.round, Precommit, v);
        var table := Buffered(m.futurePrecommits, v.round);
        EnterRoundFiles(m.(futurePrecommits := m.futurePrecommits[v.round := table[v.voter := v]]), v.round);
      } else if v.round == m.round {
        assert TableFor(m.precommits[v.voter := v], m.validatorSet, m.height, m.round, Precommit);
      }
    }
  }

  lemma OnTimeoutFiles(m: Machine)
    requires WellFormed(m)
    ensures WellFormed(OnTimeout(m).0)
  {
    if m.step.PrecommitStep? {
      EnterRoundFiles(m, SatAdd32(m.round, 1));
    }
  }
}

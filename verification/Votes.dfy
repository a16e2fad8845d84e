/** Messages and actions of the consensus engine (`types.rs`, `error.rs`, `evidence.rs`). */
module Votes {
  import opened Basics

  datatype VoteType = Prevote | Precommit

  /** A vote; a zero block hash is a nil vote. Signatures are abstracted by authenticity of the vote log. */
  datatype Vote = Vote(height: u64, round: u32, voteType: VoteType, blockHash: Hash, voter: Address)

  datatype Block = Block(hash: Hash)

  datatype Proposal = Proposal(height: u64, round: u32, block: Block, proposer: Address)

  /** The votes are a set: the table they are collected from has no order. */
  datatype CommitProof = CommitProof(height: u64, round: u32, blockHash: Hash, votes: set<Vote>)

  datatype Step = NewRound | Propose | PrevoteStep | PrecommitStep | CommitStep {
    /** Position of the step in the flow of one round; `NewRound` and `Propose` both await a proposal. */
    function Rank(): nat {
      match this
      case NewRound => 0
      case Propose => 0
      case PrevoteStep => 1
      case PrecommitStep => 2
      case CommitStep => 3
    }
  }

  datatype Action =
    | SendPrevote(vote: Vote)
    | SendPrecommit(vote: Vote)
    | CommitBlock(height: u64, blockHash: Hash, proof: CommitProof)
    | ScheduleTimeout(step: Step, durationMs: u64)

  datatype ConsensusError =
    | InvalidProposer
    | InvalidVote
    | DuplicateVoteError
    | NotValidator
    | WrongHeight(expectedHeight: u64, gotHeight: u64)
    | WrongRound(expectedRound: u32, gotRound: u32)

  const PROPOSE_TIMEOUT_MS: u64 := 3000

  datatype Evidence = DuplicateVote(vote1: Vote, vote2: Vote)

  /** `Evidence::new_duplicate_vote`. */
  function NewDuplicateVote(vote1: Vote, vote2: Vote): Option<Evidence> {
    if || vote1.height != vote2.height
       || vote1.round != vote2.round
       || vote1.voteType != vote2.voteType
       || vote1.voter != vote2.voter
    then None
    else if vote1.blockHash == vote2.blockHash then None
    else Some(DuplicateVote(vote1, vote2))
  }
}

/** Commit certificates, and what two conflicting ones prove about their signers. */
module Certificates {
  import opened Basics
  import opened Validators
  import opened Votes
  import opened QuorumScan
  import opened Machine

  function Signers(proof: CommitProof): set<Address> {
    set v | v in proof.votes :: v.voter
  }

  /** Distinct members, each precommitting exactly this block in this round, holding a quorum of stake. */
  predicate ValidProof(vs: ValidatorSet, proof: CommitProof) {
    && (forall v :: v in proof.votes ==>
          v == Vote(proof.height, proof.round, Precommit, proof.blockHash, v.voter) && vs.Contains(v.voter))
    && vs.IsQuorum(Signers(proof))
    && |proof.votes| == |Signers(proof)|
  }

  lemma {:induction false} OneVotePerSigner(votes: set<Vote>)
    requires forall v, w :: v in votes && w in votes && v.voter == w.voter ==> v == w
    ensures |votes| == |set v | v in votes :: v.voter|
  {
    var signers := set v | v in votes :: v.voter;
    if votes == {} {
      assert signers == {};
    } else {
      var v :| v in votes;
      OneVotePerSigner(votes - {v});
      assert (set w | w in votes - {v} :: w.voter) == signers - {v.voter};
      assert v.voter in signers;
    }
  }

  /** The certificate collected from a table with a quorum is valid. */
  lemma CollectedProofValid(m: Machine, x: Hash)
    requires WellFormed(m) && HasQuorum(m.validatorSet, m.precommits, x)
    ensures ValidProof(m.validatorSet, ProofFor(m, x))
  {
    var proof := ProofFor(m, x);
    forall a | a in VotersFor(m.precommits, x) ensures a in Signers(proof) {
      assert m.precommits[a] in proof.votes;
    }
    PowerMonotone(m.validatorSet.validators, VotersFor(m.precommits, x), Signers(proof));
    OneVotePerSigner(proof.votes);
  }

  /**
   * Accountability: two valid certificates for different blocks in one round convict voters
   * holding more than a third of the stake, each by a pair of votes from the certificates.
   */
  lemma ConflictingProofsConvict(vs: ValidatorSet, p1: CommitProof, p2: CommitProof)
    requires vs.Valid() && ValidProof(vs, p1) && ValidProof(vs, p2)
    requires p1.height == p2.height && p1.round == p2.round && p1.blockHash != p2.blockHash
    ensures 3 * vs.PowerOf(Signers(p1) * Signers(p2)) > vs.totalStake
    ensures forall a :: a in Signers(p1) * Signers(p2) ==>
              exists v1, v2 :: v1 in p1.votes && v2 in p2.votes && v1.voter == v2.voter == a
                && NewDuplicateVote(v1, v2) == Some(DuplicateVote(v1, v2))
  {
    QuorumOverlap(vs, Signers(p1), Signers(p2));
    forall a | a in Signers(p1) * Signers(p2)
      ensures exists v1, v2 :: v1 in p1.votes && v2 in p2.votes && v1.voter == v2.voter == a
                && NewDuplicateVote(v1, v2) == Some(DuplicateVote(v1, v2))
    {
      var v1 :| v1 in p1.votes && v1.voter == a;
      var v2 :| v2 in p2.votes && v2.voter == a;
      assert NewDuplicateVote(v1, v2) == Some(DuplicateVote(v1, v2));
    }
  }
}

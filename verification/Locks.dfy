/**
 * What a machine remembers of the prevote quorums it has seen. Over any sequence of events at a
 * height, the locked block and the valid block are both the latest block to reach a prevote quorum
 * while the machine could still react, and the valid proposal is the one it held at that moment.
 */
module Locks {
  import opened Basics
  import opened Votes
  import opened QuorumScan
  import opened Machine
  import opened Reaction
  import opened VoteBook
  import opened Answers

  /** The block of a quorum, its round, and the proposal held when it was reached. */
  datatype Memory = Memory(round: u32, hash: Hash, proposal: Option<Proposal>)

  /** The event is a prevote that counts, before the precommit step, and `h` has a quorum with it. */
  ghost predicate QuorumAt(m: Machine, e: Event, h: Hash) {
    && e.VoteArrives? && Counts(m, e.v, Prevote, m.prevotes)
    && (m.step.Propose? || m.step.PrevoteStep?)
    && HasQuorum(m.validatorSet, m.prevotes[e.v.voter := e.v], h)
    && h != ZERO_HASH
  }

  ghost function QuorumBlock(m: Machine, e: Event): (r: Option<Hash>)
    ensures r.Some? ==> QuorumAt(m, e, r.value)
    ensures r.None? ==> forall h :: !QuorumAt(m, e, h)
  {
    if h :| QuorumAt(m, e, h) then Some(h) else None
  }

  ghost function Latest(ms: seq<Machine>, es: seq<Event>): Option<Memory>
    requires |ms| >= |es|
  {
    if es == [] then None
    else
      var k := |es| - 1;
      match QuorumBlock(ms[k], es[k])
      case Some(h) => Some(Memory(ms[k].round, h, ms[k].proposal))
      case None => Latest(ms, es[..k])
  }

  predicate Remembers(m: Machine, seen: Option<Memory>) {
    && m.lockedBlock == m.validBlock
    && (seen.None? ==> m.lockedBlock == None && m.validProposal == None)
    && (seen.Some? ==>
          m.lockedBlock == Some((seen.value.round, seen.value.hash)) && m.validProposal == seen.value.proposal)
  }

  predicate SameMemory(m: Machine, m': Machine) {
    m'.lockedBlock == m.lockedBlock && m'.validBlock == m.validBlock && m'.validProposal == m.validProposal
  }

  lemma OtherEventsKeep(m: Machine, e: Event)
    requires Defined(m, e) && !e.VoteArrives? && !e.HeightAdvances?
    ensures SameMemory(m, React(m, e).0)
  {
    hide LaterThan, Buffered;
  }

  /** A vote changes the memory exactly when it completes a quorum for a block. */
  lemma VoteRemembers(m: Machine, v: Vote)
    requires m.validatorSet.Valid()
    ensures var m' := React(m, VoteArrives(v)).0;
            && (forall h :: QuorumAt(m, VoteArrives(v), h) ==>
                  m'.lockedBlock == Some((m.round, h)) && m'.validBlock == Some((m.round, h))
                  && m'.validProposal == m.proposal)
            && ((forall h :: !QuorumAt(m, VoteArrives(v), h)) ==> SameMemory(m, m'))
  {
    hide EnterRound, ShouldSkip, ProofFor, HasQuorum, OnPrevote, OnPrecommit;
    VoteRefusedExactly(m, v, v.voteType);
    var (m', r) := OnVote(m, v, v.voteType);
    if r.Ok? {
      VoteTakenExactly(m, v, v.voteType);
    }
    forall h ensures QuorumAt(m, VoteArrives(v), h) <==> SendsLock(r, m, h) {
      LockSent(m, v, h);
    }
    if r.Ok? && r.value.Some? && r.value.value.SendPrecommit? && r.value.value.vote.blockHash != ZERO_HASH {
      LockIsOwn(m, v);
      assert QuorumAt(m, VoteArrives(v), r.value.value.vote.blockHash);
    }
  }

  predicate SendsLock(r: Result<Option<Action>, ConsensusError>, m: Machine, h: Hash) {
    && h != ZERO_HASH
    && r == Ok(Some(SendPrecommit(Vote(m.height, m.round, Precommit, h, m.localAddress))))
  }

  lemma LockSent(m: Machine, v: Vote, h: Hash)
    requires m.validatorSet.Valid()
    ensures QuorumAt(m, VoteArrives(v), h) <==> SendsLock(OnVote(m, v, v.voteType).1, m, h)
  {
    hide HasQuorum, EnterRound, ShouldSkip, ProofFor, OnPrevote;
    PrecommitsExactly(m, v, h);
  }

  lemma LockIsOwn(m: Machine, v: Vote)
    ensures var r := OnVote(m, v, v.voteType).1;
            r.Ok? && r.value.Some? && r.value.value.SendPrecommit? ==>
              r.value.value.vote == OwnVote(m, Precommit, r.value.value.vote.blockHash)
  {
    hide EnterRound, ShouldSkip, ProofFor, HasQuorum;
  }

  lemma StepRemembers(m: Machine, e: Event, seen: Option<Memory>)
    requires m.validatorSet.Valid() && Defined(m, e) && !e.HeightAdvances? && Remembers(m, seen)
    ensures var m' := React(m, e).0;
            && (forall h :: QuorumAt(m, e, h) ==> Remembers(m', Some(Memory(m.round, h, m.proposal))))
            && ((forall h :: !QuorumAt(m, e, h)) ==> Remembers(m', seen))
  {
    hide React, HasQuorum, Counts;
    if e.VoteArrives? {
      VoteRemembers(m, e.v);
    } else {
      OtherEventsKeep(m, e);
    }
  }

  lemma SameSet(m: Machine, e: Event)
    requires Defined(m, e) && !e.HeightAdvances?
    ensures React(m, e).0.validatorSet == m.validatorSet
  {
    hide EnterRound, ShouldSkip, ProofFor, OnPrevote, OnPrecommit;
    if e.VoteArrives? {
      VoteRefusedExactly(m, e.v, e.v.voteType);
      if OnVote(m, e.v, e.v.voteType).1.Ok? {
        VoteTakenExactly(m, e.v, e.v.voteType);
      }
    } else if e.ProposalArrives? {
      ProposalRefusedExactly(m, e.p);
    } else if e.TimerFires? {
      TimeoutExactly(m);
    }
  }

  /** After any sequence of events at a height the machine remembers the latest quorum it reacted to. */
  lemma {:induction false} MemoryTheorem(ms: seq<Machine>, es: seq<Event>)
    requires History(ms, es) && ms[0].validatorSet.Valid()
    ensures ms[|es|].validatorSet == ms[0].validatorSet
    ensures Remembers(ms[|es|], Latest(ms, es))
  {
    if es == [] {
    } else {
      var k := |es| - 1;
      var es' := es[..k];
      LatestPrefix(ms, ms[..k + 1], es');
      MemoryTheorem(ms[..k + 1], es');
      StepRemembers(ms[k], es[k], Latest(ms, es'));
      SameSet(ms[k], es[k]);
    }
  }

  lemma {:induction false} LatestPrefix(ms: seq<Machine>, ms': seq<Machine>, es: seq<Event>)
    requires |es| <= |ms'| <= |ms| && ms' == ms[..|ms'|]
    ensures Latest(ms, es) == Latest(ms', es)
  {
    hide QuorumAt;
    if es == [] {
    } else {
      assert ms'[|es| - 1] == ms[|es| - 1];
      LatestPrefix(ms, ms', es[..|es| - 1]);
    }
  }
}

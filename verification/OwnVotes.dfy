/**
 * A correct machine leaves no step silently. Over every run, also one that goes back, whoever is in
 * the prevote step has sent a prevote of that height and round, and whoever is in the precommit
 * step a precommit. `OneVote.dfy` has the other half: never two, in a run that does not go back.
 */
module OwnVotes {
  import opened Basics
  import opened Votes
  import opened Machine
  import opened Reaction
  import opened Network
  import opened OneVote
  import opened Answers

  /** The vote a step stands for; the other steps stand for none. */
  predicate StandsFor(step: Step, ty: VoteType) {
    (step.PrevoteStep? && ty.Prevote?) || (step.PrecommitStep? && ty.Precommit?)
  }

  ghost predicate HasSent(log: seq<Vote>, p: Address, height: u64, round: u32, ty: VoteType) {
    exists x :: Vote(height, round, ty, x, p) in log
  }

  ghost predicate Voted(log: seq<Vote>, p: Address, m: Machine) {
    && m.localAddress == p
    && forall ty :: StandsFor(m.step, ty) ==> HasSent(log, p, m.height, m.round, ty)
  }

  /** A machine was in the step it is in, in the same round, or it has just sent the vote of that step. */
  predicate EntersVoting(m: Machine, m': Machine, a: Option<Action>) {
    && m'.localAddress == m.localAddress
    && (m'.step.PrevoteStep? ==>
          || (m.step.PrevoteStep? && m.height == m'.height && m.round == m'.round)
          || (a.Some? && a.value.SendPrevote? && a.value.vote == OwnVote(m', Prevote, a.value.vote.blockHash)))
    && (m'.step.PrecommitStep? ==>
          || (m.step.PrecommitStep? && m.height == m'.height && m.round == m'.round)
          || (a.Some? && a.value.SendPrecommit? && a.value.vote == OwnVote(m', Precommit, a.value.vote.blockHash)))
  }

  lemma ProposalEntersVoting(m: Machine, p: Proposal)
    requires ProposalDefined(m, p)
    ensures var (m', r) := OnProposal(m, p); EntersVoting(m, m', if r.Ok? then Some(r.value) else None)
  {
    ProposalRefusedExactly(m, p);
    PrevotesExactly(m, p);
    hide OnProposal, AcceptableProposer;
  }

  lemma VoteEntersVoting(m: Machine, v: Vote)
    ensures var (m', r) := OnVote(m, v, v.voteType); EntersVoting(m, m', if r.Ok? then r.value else None)
  {
    hide EnterRound, ShouldSkip, ProofFor;
    VoteRefusedExactly(m, v, v.voteType);
    if OnVote(m, v, v.voteType).1.Ok? {
      VoteTakenExactly(m, v, v.voteType);
    }
  }

  lemma ReactEntersVoting(m: Machine, e: Event)
    requires Defined(m, e)
    ensures var (m', a) := React(m, e); EntersVoting(m, m', a)
  {
    hide OnProposal, OnPrevote, OnPrecommit;
    match e
    case ProposalArrives(p) => ProposalEntersVoting(m, p);
    case VoteArrives(v) => VoteEntersVoting(m, v);
    case TimerFires => TimeoutExactly(m);
    case BeginPropose =>
    case HeightAdvances(h, vs) =>
  }

  lemma SentStays(log: seq<Vote>, more: seq<Vote>, p: Address, m: Machine)
    requires Voted(log, p, m) && log <= more
    ensures Voted(more, p, m)
  {
    forall ty | StandsFor(m.step, ty) ensures HasSent(more, p, m.height, m.round, ty) {
      var x :| Vote(m.height, m.round, ty, x, p) in log;
      assert Vote(m.height, m.round, ty, x, p) in more;
    }
  }

  lemma ReactionVotes(n: Net, p: Address, m': Machine, a: Option<Action>)
    requires p in n.machines && Voted(n.log, p, n.machines[p]) && EntersVoting(n.machines[p], m', a)
    ensures n.log <= Emit(n, p, m', a).log && Voted(Emit(n, p, m', a).log, p, m')
  {
    var log := Emit(n, p, m', a).log;
    SentStays(n.log, log, p, n.machines[p]);
    forall ty | StandsFor(m'.step, ty) ensures HasSent(log, p, m'.height, m'.round, ty) {
      if |log| > |n.log| && log[|n.log|] == OwnVote(m', ty, log[|n.log|].blockHash) {
        assert Vote(m'.height, m'.round, ty, log[|n.log|].blockHash, p) in log;
      }
    }
  }

  lemma VotedStep(cfg: Config, n: Net, mv: Move)
    requires Allowed(cfg, n, mv) && forall p :: p in n.machines ==> Voted(n.log, p, n.machines[p])
    ensures var n' := Apply(n, mv); forall p :: p in n'.machines ==> Voted(n'.log, p, n'.machines[p])
  {
    var n' := Apply(n, mv);
    if mv.Local? {
      ReactEntersVoting(n.machines[mv.p], mv.e);
      var (m', a) := React(n.machines[mv.p], mv.e);
      ReactionVotes(n, mv.p, m', a);
    }
    hide React;
    forall p | p in n'.machines ensures Voted(n'.log, p, n'.machines[p]) {
      if mv.Byzantine? || p != mv.p {
        SentStays(n.log, n'.log, p, n.machines[p]);
      }
    }
  }

  /** At any point of any run, a correct machine in a voting step has sent its vote of that step. */
  lemma {:induction false} StepsAreVoted(cfg: Config, ns: seq<Net>, moves: seq<Move>, p: Address)
    requires Run(cfg, ns, moves) && p in cfg.correct
    ensures var n := ns[|moves|];
            && p in n.machines
            && (n.machines[p].step.PrevoteStep? ==>
                  HasSent(n.log, p, n.machines[p].height, n.machines[p].round, Prevote))
            && (n.machines[p].step.PrecommitStep? ==>
                  HasSent(n.log, p, n.machines[p].height, n.machines[p].round, Precommit))
  {
    for k := 0 to |moves|
      invariant ns[k].machines.Keys == cfg.correct
      invariant forall q :: q in ns[k].machines ==> Voted(ns[k].log, q, ns[k].machines[q])
    {
      VotedStep(cfg, ns[k], moves[k]);
      KeysStay(ns[k], moves[k]);
    }
  }

  lemma KeysStay(n: Net, mv: Move)
    requires mv.Local? ==> mv.p in n.machines && Defined(n.machines[mv.p], mv.e)
    ensures Apply(n, mv).machines.Keys == n.machines.Keys
  {
  }

  predicate InSlot(v: Vote, p: Address, height: u64, round: u32, ty: VoteType) {
    v.voter == p && v.height == height && v.round == round && v.voteType == ty
  }

  /** In a run that never goes back it has sent exactly one such vote. */
  lemma StepsAreVotedOnce(cfg: Config, ns: seq<Net>, moves: seq<Move>, p: Address, ty: VoteType)
    requires Run(cfg, ns, moves) && NeverBack(ns, moves) && p in cfg.correct
    requires p in ns[|moves|].machines && StandsFor(ns[|moves|].machines[p].step, ty)
    ensures var log, m := ns[|moves|].log, ns[|moves|].machines[p];
            exists i :: 0 <= i < |log| && InSlot(log[i], p, m.height, m.round, ty)
                        && forall j :: 0 <= j < |log| && InSlot(log[j], p, m.height, m.round, ty) ==> j == i
  {
    StepsAreVoted(cfg, ns, moves, p);
    OneVotePerStep(cfg, ns, moves);
    var log, m := ns[|moves|].log, ns[|moves|].machines[p];
    var x :| Vote(m.height, m.round, ty, x, p) in log;
    var i :| 0 <= i < |log| && log[i] == Vote(m.height, m.round, ty, x, p);
    assert InSlot(log[i], p, m.height, m.round, ty);
    forall j | 0 <= j < |log| && InSlot(log[j], p, m.height, m.round, ty) ensures j == i {
      assert i < j ==> !SameSlot(log[i], log[j]);
      assert j < i ==> !SameSlot(log[j], log[i]);
    }
  }

  /** Whenever a timer fires before the precommit step, one vote is added, and it is nil. */
  lemma TimersVoteNil(cfg: Config, ns: seq<Net>, moves: seq<Move>, k: nat, p: Address)
    requires Run(cfg, ns, moves) && k < |moves| && moves[k] == Local(p, TimerFires)
    requires p in ns[k].machines && ns[k].machines[p].step.Rank() < 2
    ensures var m := ns[k].machines[p];
            ns[k + 1].log ==
            ns[k].log + [Vote(m.height, m.round, if m.step.Rank() == 0 then Prevote else Precommit, ZERO_HASH, p)]
  {
    for i := 0 to k
      invariant ns[i].machines.Keys == cfg.correct
      invariant forall q :: q in ns[i].machines ==> Voted(ns[i].log, q, ns[i].machines[q])
    {
      VotedStep(cfg, ns[i], moves[i]);
      KeysStay(ns[i], moves[i]);
    }
    assert ns[k + 1] == Apply(ns[k], moves[k]);
  }
}

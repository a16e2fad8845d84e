/**
 * One vote per step. `on_proposal` does not look at the step, and the round increment saturates, so
 * a machine may vote again in a step it has left. This module gives the exact calls that make it
 * do so, and proves that runs without them never let anyone build evidence against a correct
 * validator.
 */
module OneVote {
  import opened Basics
  import opened Votes
  import opened Machine
  import opened Reaction
  import opened Network

  /** (round, step) did not go back. */
  predicate NotBack(m: Machine, m': Machine) {
    m.round < m'.round || (m.round == m'.round && m.step.Rank() <= m'.step.Rank())
  }

  /** The call moves on in (round, step), and a vote is cast only on entering the step it belongs to. */
  predicate Forward(m: Machine, m': Machine, a: Option<Action>) {
    && NotBack(m, m')
    && (a.Some? && a.value.SendPrevote? ==>
          && (m.round < m'.round || m.step.Rank() < 1)
          && m'.step.Rank() >= 1)
    && (a.Some? && a.value.SendPrecommit? ==>
          && (m.round < m'.round || m.step.Rank() < 2)
          && m'.step.Rank() >= 2)
  }

  /** A proposal the machine would accept for the round it is in, after it has stopped waiting for one. */
  predicate LateProposal(m: Machine, e: Event)
    requires Defined(m, e)
  {
    && e.ProposalArrives?
    && e.p.height == m.height && e.p.round == m.round && m.step.Rank() >= 1
    && AcceptableProposer(m, e.p) && m.validatorSet.Contains(e.p.proposer)
  }

  /**
   * Exactly two kinds of call send a machine back: a late proposal for the current round, and a
   * precommit timeout in the last round.
   */
  lemma ForwardExactly(m: Machine, e: Event)
    requires Defined(m, e) && !e.HeightAdvances?
    ensures var (m', a) := React(m, e); Forward(m, m', a) <==> !LateProposal(m, e) && !Wraps(m, e)
  {
    match e
    case ProposalArrives(p) =>
    case VoteArrives(v) => VoteGoesForward(m, v);
    case TimerFires =>
    case BeginPropose =>
  }

  lemma VoteGoesForward(m: Machine, v: Vote)
    ensures var (m', a) := React(m, VoteArrives(v)); Forward(m, m', a)
  {
    if v.voteType.Prevote? {
      PrevoteGoesForward(m, v);
    } else {
      PrecommitGoesForward(m, v);
    }
  }

  lemma PrevoteGoesForward(m: Machine, v: Vote)
    ensures var (m', r) := OnPrevote(m, v); Forward(m, m', if r.Ok? then r.value else None)
  {
  }

  lemma PrecommitGoesForward(m: Machine, v: Vote)
    ensures var (m', r) := OnPrecommit(m, v); Forward(m, m', if r.Ok? then r.value else None)
  {
  }

  // ---------------------------------------------------------------------
  // Runs
  // ---------------------------------------------------------------------

  predicate LateMove(n: Net, mv: Move) {
    && mv.Local? && mv.p in n.machines && Defined(n.machines[mv.p], mv.e)
    && LateProposal(n.machines[mv.p], mv.e)
  }

  predicate GoesBack(n: Net, mv: Move) {
    WrapsRound(n, mv) || LateMove(n, mv)
  }

  predicate NeverBack(ns: seq<Net>, moves: seq<Move>)
    requires |ns| == |moves| + 1
  {
    forall i :: 0 <= i < |moves| ==> !GoesBack(ns[i], moves[i])
  }

  /** The machine has entered the step this vote belongs to. */
  predicate Entered(m: Machine, v: Vote) {
    || v.height < m.height
    || (v.height == m.height && v.round < m.round)
    || (v.height == m.height && v.round == m.round && m.step.Rank() >= StepOf(v.voteType))
  }

  function StepOf(ty: VoteType): nat {
    match ty
    case Prevote => 1
    case Precommit => 2
  }

  predicate SameSlot(v: Vote, w: Vote) {
    v.voter == w.voter && v.height == w.height && v.round == w.round && v.voteType == w.voteType
  }

  ghost predicate SlotsDistinct(cfg: Config, log: seq<Vote>) {
    forall i, j :: 0 <= i < j < |log| && log[i].voter in cfg.correct ==> !SameSlot(log[i], log[j])
  }

  predicate AllEntered(log: seq<Vote>, p: Address, m: Machine) {
    forall v :: v in log && v.voter == p ==> Entered(m, v)
  }

  ghost predicate Inv(cfg: Config, n: Net) {
    && n.machines.Keys == cfg.correct
    && SlotsDistinct(cfg, n.log)
    && (forall p :: p in n.machines ==> n.machines[p].localAddress == p)
    && (forall p :: p in n.machines ==> AllEntered(n.log, p, n.machines[p]))
  }

  /** What is sent is the machine's own vote of its current height and round. */
  predicate SendsOwn(m: Machine, m': Machine, a: Option<Action>) {
    && m'.localAddress == m.localAddress && m'.height == m.height
    && (a.Some? && a.value.SendPrevote? ==> a.value.vote == OwnVote(m', Prevote, a.value.vote.blockHash))
    && (a.Some? && a.value.SendPrecommit? ==> a.value.vote == OwnVote(m', Precommit, a.value.vote.blockHash))
  }

  lemma PrevoteSendsOwn(m: Machine, v: Vote)
    ensures var (m', r) := OnPrevote(m, v); SendsOwn(m, m', if r.Ok? then r.value else None)
  {
  }

  lemma PrecommitSendsOwn(m: Machine, v: Vote)
    ensures var (m', r) := OnPrecommit(m, v); SendsOwn(m, m', if r.Ok? then r.value else None)
  {
  }

  lemma ReactSendsOwn(m: Machine, e: Event)
    requires Defined(m, e) && !e.HeightAdvances?
    ensures var (m', a) := React(m, e); SendsOwn(m, m', a)
  {
    if e.VoteArrives? {
      PrevoteSendsOwn(m, e.v);
      PrecommitSendsOwn(m, e.v);
    }
  }

  lemma EnteredForward(m: Machine, m': Machine, v: Vote)
    requires Entered(m, v) && m'.height == m.height && NotBack(m, m')
    ensures Entered(m', v)
  {
  }

  lemma LocalInv(cfg: Config, n: Net, p: Address, e: Event)
    requires Inv(cfg, n) && p in n.machines && Defined(n.machines[p], e) && !e.HeightAdvances?
    requires !GoesBack(n, Local(p, e))
    ensures Inv(cfg, Apply(n, Local(p, e)))
  {
    var m := n.machines[p];
    var (m', a) := React(m, e);
    ReactSendsOwn(m, e);
    ForwardExactly(m, e);
    EmitInv(cfg, n, p, m', a);
  }

  lemma EmitInv(cfg: Config, n: Net, p: Address, m': Machine, a: Option<Action>)
    requires Inv(cfg, n) && p in n.machines
    requires SendsOwn(n.machines[p], m', a) && Forward(n.machines[p], m', a)
    ensures Inv(cfg, Emit(n, p, m', a))
  {
    var m, n' := n.machines[p], Emit(n, p, m', a);
    assert n'.machines.Keys == n.machines.Keys;
    assert AllEntered(n.log, p, m);
    forall v | v in n'.log && v.voter == p ensures Entered(m', v) {
      if v in n.log {
        EnteredForward(m, m', v);
      }
    }
    forall i | 0 <= i < |n.log| && |n'.log| > |n.log| ensures !SameSlot(n.log[i], n'.log[|n.log|]) {
      assert n.log[i] in n.log;
    }
    forall q | q in n'.machines ensures AllEntered(n'.log, q, n'.machines[q]) {
      if q != p {
        assert AllEntered(n.log, q, n.machines[q]);
      }
    }
  }

  lemma StepInv(cfg: Config, n: Net, mv: Move)
    requires Inv(cfg, n) && Allowed(cfg, n, mv) && !GoesBack(n, mv)
    ensures Inv(cfg, Apply(n, mv))
  {
    match mv
    case Byzantine(v) =>
      forall q | q in n.machines ensures AllEntered(n.log + [v], q, n.machines[q]) {
        assert AllEntered(n.log, q, n.machines[q]);
      }
    case Local(p, e) =>
      if e.HeightAdvances? {
        AdvanceInv(cfg, n, p, e);
      } else {
        LocalInv(cfg, n, p, e);
      }
  }

  lemma AdvanceInv(cfg: Config, n: Net, p: Address, e: Event)
    requires Inv(cfg, n) && p in n.machines && e.HeightAdvances? && Defined(n.machines[p], e)
    ensures Inv(cfg, Apply(n, Local(p, e)))
  {
    var m := n.machines[p];
    var m' := AdvanceHeight(UpdateValidatorSet(m, e.newSet), e.newHeight);
    assert AllEntered(n.log, p, m);
    forall v | v in n.log && v.voter == p ensures Entered(m', v) {
      assert Entered(m, v);
    }
    assert Apply(n, Local(p, e)).machines.Keys == n.machines.Keys;
  }

  /** A correct validator fills each of its vote slots at most once, over every run that never goes back. */
  lemma {:induction false} OneVotePerStep(cfg: Config, ns: seq<Net>, moves: seq<Move>)
    requires Run(cfg, ns, moves) && NeverBack(ns, moves)
    ensures SlotsDistinct(cfg, ns[|moves|].log)
  {
    for k := 0 to |moves|
      invariant Inv(cfg, ns[k])
    {
      StepInv(cfg, ns[k], moves[k]);
    }
  }

  /** Evidence is two votes of one slot for different blocks, and any two such votes are evidence. */
  lemma EvidenceExactly(v: Vote, w: Vote)
    ensures NewDuplicateVote(v, w) ==
            if SameSlot(v, w) && v.blockHash != w.blockHash then Some(DuplicateVote(v, w)) else None
  {
  }

  /** Hence nobody can ever build evidence from the votes of a correct validator. */
  lemma NoEvidenceAgainstCorrect(cfg: Config, ns: seq<Net>, moves: seq<Move>, v: Vote, w: Vote)
    requires Run(cfg, ns, moves) && NeverBack(ns, moves)
    requires v in ns[|moves|].log && w in ns[|moves|].log && v.voter in cfg.correct
    ensures NewDuplicateVote(v, w) == None
  {
    OneVotePerStep(cfg, ns, moves);
    var log := ns[|moves|].log;
    var i :| 0 <= i < |log| && log[i] == v;
    var j :| 0 <= j < |log| && log[j] == w;
    if i < j {
      assert !SameSlot(log[i], log[j]);
    } else if j < i {
      assert log[j].voter == log[i].voter ==> !SameSlot(log[j], log[i]);
    }
  }
}

/**
 * The assumptions of the agreement and one-vote theorems are needed: in every valid configuration
 * the code as it is, without any act of a faulty validator, has runs that break them.
 */
module RoundWrap {
  import opened Basics
  import opened Validators
  import opened Votes
  import opened QuorumScan
  import opened Machine
  import opened Reaction
  import opened Network
  import OneVote

  const A := Hash(1)
  const B := Hash(2)
  const LAST: u32 := 0xFFFF_FFFF

  function Offer(vs: ValidatorSet, h: u64, r: u32, x: Hash): Proposal
    requires vs.validators != []
  {
    Proposal(h, r, Block(x), vs.GetProposer(h, r).address)
  }

  function Ballot(h: u64, ty: VoteType, x: Hash, a: Address): Vote {
    Vote(h, LAST, ty, x, a)
  }

  /** A table in which all of `who` vote for one block. */
  function TableOf(who: set<Address>, h: u64, ty: VoteType, x: Hash): Table {
    map a | a in who :: Ballot(h, ty, x, a)
  }

  // ---------------------------------------------------------------------
  // Quorums
  // ---------------------------------------------------------------------

  lemma ProposerListed(vs: ValidatorSet, h: u64, r: u32)
    requires vs.validators != []
    ensures vs.Contains(vs.GetProposer(h, r).address)
  {
    ListedAt(vs.validators, (h + r) % |vs.validators|);
  }

  /** The correct members. */
  function Voters(cfg: Config, h: u64): set<Address> {
    cfg.correct * Members(cfg.sets(h).validators)
  }

  lemma {:induction false} PowerOfAll(ws: seq<ValidatorWeight>, all: set<Address>)
    requires forall i :: 0 <= i < |ws| ==> ws[i].address in all
    ensures Power(ws, all) == TotalStake(ws)
  {
    if ws == [] {
    } else {
      PowerOfAll(ws[1..], all);
    }
  }

  /** The correct members are a quorum by themselves, so there are some. */
  lemma VotersAreQuorum(cfg: Config, h: u64)
    requires ValidConfig(cfg)
    ensures cfg.sets(h).IsQuorum(Voters(cfg, h)) && cfg.sets(h).validators != []
  {
    var vs := cfg.sets(h);
    assert vs.Valid() && vs.FaultBound(cfg.correct);
    var good, bad := Voters(cfg, h), Members(vs.validators) - cfg.correct;
    PowerUnion(vs.validators, good, bad);
    assert good + bad == Members(vs.validators) && good * bad == {};
    PowerEmpty(vs.validators);
    PowerOfAll(vs.validators, Members(vs.validators));
  }

  /** Only the block all vote for can have a quorum. */
  lemma UnanimousQuorum(vs: ValidatorSet, who: set<Address>, h: u64, ty: VoteType, x: Hash)
    ensures QuorumHash(vs, TableOf(who, h, ty, x)) == if vs.IsQuorum(who) then Some(x) else None
  {
    var table := TableOf(who, h, ty, x);
    assert VotersFor(table, x) == who;
    forall y ensures HasQuorum(vs, table, y) <==> y == x && vs.IsQuorum(who) {
      if y != x {
        assert VotersFor(table, y) == {};
        PowerEmpty(vs.validators);
      }
    }
    hide HasQuorum;
    var q := QuorumHash(vs, table);
    assert q.Some? ==> HasQuorum(vs, table, q.value);
    assert q.None? ==> !HasQuorum(vs, table, x);
  }

  lemma AddToTable(who: set<Address>, h: u64, ty: VoteType, x: Hash, a: Address)
    ensures TableOf(who, h, ty, x)[a := Ballot(h, ty, x, a)] == TableOf(who + {a}, h, ty, x)
  {
  }

  // ---------------------------------------------------------------------
  // One machine in its last round
  // ---------------------------------------------------------------------

  /** What matters of a machine in its last round, with nothing buffered. */
  ghost predicate InLast(m: Machine, vs: ValidatorSet, h: u64, a: Address, step: Step, prevotes: Table,
                         precommits: Table,
                         lock: Option<(u32, Hash)>)
  {
    && m.height == h && m.round == LAST && m.step == step && m.validatorSet == vs && m.localAddress == a
    && m.prevotes == prevotes && m.precommits == precommits && m.lockedBlock == lock
    && m.futurePrevotes == map[] && m.futurePrecommits == map[]
  }

  /** A machine waiting for a proposal, in its first round or its last, prevotes the block it is offered. */
  lemma Prevotes(m: Machine, vs: ValidatorSet, h: u64, a: Address, x: Hash)
    requires vs.validators != [] && (m == New(h, vs, a) || InLast(m, vs, h, a, Propose, map[], map[], None))
    ensures var e := ProposalArrives(Offer(vs, h, LAST, x));
            && Defined(m, e) && !OneVote.LateProposal(m, e)
            && InLast(React(m, e).0, vs, h, a, PrevoteStep, map[], map[], None)
            && React(m, e).1 == Some(SendPrevote(Ballot(h, Prevote, x, a)))
  {
    ProposerListed(vs, h, LAST);
    hide Listed;
  }

  /** A timeout gives up on the proposal. */
  lemma GivesUp(m: Machine, vs: ValidatorSet, h: u64, a: Address)
    requires InLast(m, vs, h, a, PrevoteStep, map[], map[], None)
    ensures InLast(React(m, TimerFires).0, vs, h, a, PrecommitStep, map[], map[], None)
  {
  }

  /** The next timeout starts the last round over: the tables are gone, the lock is not. */
  lemma StartsOver(m: Machine, vs: ValidatorSet, h: u64, a: Address, prevotes: Table, lock: Option<(u32, Hash)>)
    requires InLast(m, vs, h, a, PrecommitStep, prevotes, map[], lock)
    ensures InLast(React(m, TimerFires).0, vs, h, a, Propose, map[], map[], lock)
  {
  }

  /** A machine that has collected the prevotes of `who`, and locked if they are a quorum. */
  ghost predicate Polled(m: Machine, vs: ValidatorSet, h: u64, a: Address, who: set<Address>, x: Hash, start: Step,
                         lock: Option<(u32, Hash)>)
  {
    if vs.IsQuorum(who) then InLast(m, vs, h, a, PrecommitStep, TableOf(who, h, Prevote, x), map[], Some((LAST, x)))
    else InLast(m, vs, h, a, start, TableOf(who, h, Prevote, x), map[], lock)
  }

  lemma PrevoteArrives(m: Machine, vs: ValidatorSet, h: u64, a: Address, who: set<Address>, x: Hash, start: Step,
                       lock: Option<(u32, Hash)>, v: Address)
    requires Polled(m, vs, h, a, who, x, start, lock) && (start == Propose || start == PrevoteStep)
    requires x != ZERO_HASH && v !in who && vs.Contains(v)
    ensures var (m', action) := React(m, VoteArrives(Ballot(h, Prevote, x, v)));
            && Polled(m', vs, h, a, who + {v}, x, start, lock)
            && (vs.IsQuorum(who + {v}) && !vs.IsQuorum(who) ==>
                  action == Some(SendPrecommit(Ballot(h, Precommit, x, a))))
  {
    AddToTable(who, h, Prevote, x, v);
    UnanimousQuorum(vs, who + {v}, h, Prevote, x);
    PowerMonotone(vs.validators, who, who + {v});
    hide TableOf, QuorumHash, Listed;
  }

  /** A machine that has collected the precommits of `who`, and committed if they are a quorum. */
  ghost predicate Counted(m: Machine, vs: ValidatorSet, h: u64, a: Address, who: set<Address>, x: Hash, start: Step,
                          prevotes: Table, lock: Option<(u32, Hash)>)
  {
    var step := if vs.IsQuorum(who) then CommitStep else start;
    InLast(m, vs, h, a, step, prevotes, TableOf(who, h, Precommit, x), lock)
  }

  lemma PrecommitArrives(m: Machine, vs: ValidatorSet, h: u64, a: Address, who: set<Address>, x: Hash, start: Step,
                         prevotes: Table, lock: Option<(u32, Hash)>, v: Address)
    requires Counted(m, vs, h, a, who, x, start, prevotes, lock) && start != CommitStep
    requires x != ZERO_HASH && v !in who && vs.Contains(v)
    ensures var (m', action) := React(m, VoteArrives(Ballot(h, Precommit, x, v)));
            && Counted(m', vs, h, a, who + {v}, x, start, prevotes, lock)
            && (vs.IsQuorum(who + {v}) && !vs.IsQuorum(who) ==>
                  action.Some? && action.value.CommitBlock? && action.value.height == h && action.value.blockHash == x)
  {
    AddToTable(who, h, Precommit, x, v);
    UnanimousQuorum(vs, who + {v}, h, Precommit, x);
    PowerMonotone(vs.validators, who, who + {v});
    hide TableOf, QuorumHash, Listed, ProofFor;
  }

  // ---------------------------------------------------------------------
  // Runs
  // ---------------------------------------------------------------------

  /** No machine is handed a proposal for its round after it has stopped waiting for one. */
  ghost predicate Timely(ns: seq<Net>, moves: seq<Move>)
    requires |ns| == |moves| + 1
  {
    forall i :: 0 <= i < |moves| ==> !OneVote.LateMove(ns[i], moves[i])
  }

  /** Nobody acts but the correct machines. */
  predicate NoFaults(moves: seq<Move>) {
    forall i :: 0 <= i < |moves| ==> moves[i].Local?
  }

  ghost predicate Reached(timely: bool, cfg: Config, ns: seq<Net>, moves: seq<Move>, n: Net) {
    Run(cfg, ns, moves) && NoFaults(moves) && (timely ==> Timely(ns, moves)) && ns[|moves|] == n
  }

  /** The event can be handed to the machine, in time if asked for. */
  ghost predicate Deliverable(timely: bool, n: Net, a: Address, e: Event) {
    && a in n.machines && Defined(n.machines[a], e) && (timely ==> !OneVote.LateProposal(n.machines[a], e))
    && (e.VoteArrives? ==> e.v in n.log) && !e.HeightAdvances?
  }

  lemma TimelySnoc(ns: seq<Net>, moves: seq<Move>, n': Net, mv: Move)
    requires |ns| == |moves| + 1 && Timely(ns, moves) && !OneVote.LateMove(ns[|moves|], mv)
    ensures Timely(ns + [n'], moves + [mv])
  {
  }

  lemma Advance(timely: bool, cfg: Config, ns: seq<Net>, moves: seq<Move>, n: Net, a: Address, e: Event)
      returns (ns': seq<Net>, moves': seq<Move>)
    requires Reached(timely, cfg, ns, moves, n) && Deliverable(timely, n, a, e)
    ensures Reached(timely, cfg, ns', moves', Emit(n, a, React(n.machines[a], e).0, React(n.machines[a], e).1))
  {
    hide React, OneVote.LateProposal;
    var mv := Local(a, e);
    RunSnoc(cfg, ns, moves, mv);
    ns', moves' := ns + [Apply(n, mv)], moves + [mv];
    if timely {
      TimelySnoc(ns, moves, Apply(n, mv), mv);
    }
  }

  ghost predicate Recorded(n: Net, a: Address, h: u64, x: Hash) {
    exists c :: c in n.commits && c.who == a && c.height == h && c.blockHash == x
  }

  /** What the machine emitted has gone to the log or to the commits. */
  ghost predicate Emitted(n: Net, a: Address, action: Option<Action>) {
    match action
    case Some(SendPrevote(v)) => v in n.log
    case Some(SendPrecommit(v)) => v in n.log
    case Some(CommitBlock(h, x, _)) => Recorded(n, a, h, x)
    case _ => true
  }

  ghost predicate Grown(n: Net, n': Net) {
    (forall v :: v in n.log ==> v in n'.log) && n.commits <= n'.commits
  }

  ghost predicate DeliveredTo(n: Net, n': Net, a: Address, e: Event) {
    && a in n.machines && a in n'.machines && Defined(n.machines[a], e)
    && n'.machines[a] == React(n.machines[a], e).0 && Emitted(n', a, React(n.machines[a], e).1)
  }

  /** All of `todo` have reacted to the event, the others have not. */
  ghost predicate Delivered(n: Net, n': Net, todo: set<Address>, e: Event) {
    && n'.machines.Keys == n.machines.Keys && Grown(n, n')
    && (forall a :: a in n.machines && a !in todo ==> n'.machines[a] == n.machines[a])
    && (forall a :: a in todo ==> DeliveredTo(n, n', a, e))
  }

  lemma EmitDelivers(n: Net, a: Address, m: Machine, action: Option<Action>)
    requires a in n.machines
    ensures var n' := Emit(n, a, m, action);
            a in n'.machines && Grown(n, n') && Emitted(n', a, action) && n'.machines == n.machines[a := m]
  {
    if action.Some? && action.value.CommitBlock? {
      var c := CommitRecord(a, action.value.height, m.round, action.value.blockHash, action.value.proof);
      assert c in Emit(n, a, m, action).commits;
    }
  }

  lemma EmittedStays(n: Net, n': Net, a: Address, action: Option<Action>)
    requires Grown(n, n') && Emitted(n, a, action)
    ensures Emitted(n', a, action)
  {
  }

  /** One event handed to a set of machines, one after another. */
  lemma {:induction false} Broadcast(timely: bool, cfg: Config, ns: seq<Net>, moves: seq<Move>, n: Net,
                                     todo: set<Address>, e: Event)
      returns (ns': seq<Net>, moves': seq<Move>, n': Net)
    requires Reached(timely, cfg, ns, moves, n) && forall a :: a in todo ==> Deliverable(timely, n, a, e)
    ensures Reached(timely, cfg, ns', moves', n') && Delivered(n, n', todo, e)
    decreases |todo|
  {
    hide Reached, React, OneVote.LateProposal;
    if todo == {} {
      ns', moves', n' := ns, moves, n;
    } else {
      var a :| a in todo;
      var (m, action) := React(n.machines[a], e);
      ns', moves' := Advance(timely, cfg, ns, moves, n, a, e);
      var n1 := Emit(n, a, m, action);
      EmitDelivers(n, a, m, action);
      StillDeliverable(timely, n, n1, a, todo, e);
      ns', moves', n' := Broadcast(timely, cfg, ns', moves', n1, todo - {a}, e);
      JoinDelivered(n, n1, n', a, todo, e);
    }
  }

  lemma StillDeliverable(timely: bool, n: Net, n1: Net, a: Address, todo: set<Address>, e: Event)
    requires Grown(n, n1) && a in n.machines && a in n1.machines && n1.machines == n.machines[a := n1.machines[a]]
    requires forall b :: b in todo ==> Deliverable(timely, n, b, e)
    ensures forall b :: b in todo - {a} ==> Deliverable(timely, n1, b, e)
  {
    hide OneVote.LateProposal, Defined;
    forall b | b in todo - {a} ensures Deliverable(timely, n1, b, e) {
      assert Deliverable(timely, n, b, e) && n1.machines[b] == n.machines[b];
    }
  }

  lemma JoinDelivered(n: Net, n1: Net, n': Net, a: Address, todo: set<Address>, e: Event)
    requires a in todo && DeliveredTo(n, n1, a, e) && Grown(n, n1) && n1.machines == n.machines[a := n1.machines[a]]
    requires Delivered(n1, n', todo - {a}, e)
    ensures Delivered(n, n', todo, e)
  {
    hide React, Emitted;
    EmittedStays(n1, n', a, React(n.machines[a], e).1);
    forall b | b in todo ensures DeliveredTo(n, n', b, e) {
      assert b != a ==> DeliveredTo(n1, n', b, e);
    }
  }

  // ---------------------------------------------------------------------
  // The phases of the run
  // ---------------------------------------------------------------------

  /** All correct machines are in the same place of their last round. */
  ghost predicate AllInLast(cfg: Config, h: u64, n: Net, step: Step, prevotes: Table, lock: Option<(u32, Hash)>) {
    && n.machines.Keys == cfg.correct
    && forall a :: a in cfg.correct ==> InLast(n.machines[a], cfg.sets(h), h, a, step, prevotes, map[], lock)
  }

  /** All correct machines have sent this vote. */
  ghost predicate AllSent(cfg: Config, h: u64, n: Net, ty: VoteType, x: Hash) {
    forall a :: a in cfg.correct ==> Ballot(h, ty, x, a) in n.log
  }

  lemma AllSentStays(cfg: Config, h: u64, n: Net, n': Net, ty: VoteType, x: Hash)
    requires AllSent(cfg, h, n, ty, x) && Grown(n, n')
    ensures AllSent(cfg, h, n', ty, x)
  {
  }

  ghost predicate AllFresh(cfg: Config, h: u64, n: Net) {
    n.machines.Keys == cfg.correct && forall a :: a in cfg.correct ==> n.machines[a] == New(h, cfg.sets(h), a)
  }

  lemma Begin(cfg: Config, h: u64) returns (ns: seq<Net>, n: Net)
    ensures Reached(true, cfg, ns, [], n) && AllFresh(cfg, h, n)
  {
    n := Net(map a | a in cfg.correct :: New(h, cfg.sets(h), a), [], {});
    ns := [n];
  }

  lemma PrevotePhase(cfg: Config, h: u64, ns: seq<Net>, moves: seq<Move>, n: Net, x: Hash)
      returns (ns': seq<Net>, moves': seq<Move>, n': Net)
    requires cfg.sets(h).validators != [] && Reached(true, cfg, ns, moves, n)
    requires AllFresh(cfg, h, n) || AllInLast(cfg, h, n, Propose, map[], None)
    ensures Reached(true, cfg, ns', moves', n') && Grown(n, n')
    ensures AllInLast(cfg, h, n', PrevoteStep, map[], None) && AllSent(cfg, h, n', Prevote, x)
  {
    hide Reached, React, InLast, OneVote.LateProposal;
    var vs := cfg.sets(h);
    var e := ProposalArrives(Offer(vs, h, LAST, x));
    forall a | a in cfg.correct
      ensures Deliverable(true, n, a, e) && InLast(React(n.machines[a], e).0, vs, h, a, PrevoteStep, map[], map[], None)
              && React(n.machines[a], e).1 == Some(SendPrevote(Ballot(h, Prevote, x, a)))
    {
      Prevotes(n.machines[a], vs, h, a, x);
    }
    ns', moves', n' := Broadcast(true, cfg, ns, moves, n, cfg.correct, e);
    forall a | a in cfg.correct
      ensures InLast(n'.machines[a], vs, h, a, PrevoteStep, map[], map[], None) && Ballot(h, Prevote, x, a) in n'.log
    {
      assert DeliveredTo(n, n', a, e);
    }
  }

  lemma GiveUpPhase(cfg: Config, h: u64, ns: seq<Net>, moves: seq<Move>, n: Net)
      returns (ns': seq<Net>, moves': seq<Move>, n': Net)
    requires Reached(true, cfg, ns, moves, n) && AllInLast(cfg, h, n, PrevoteStep, map[], None)
    ensures Reached(true, cfg, ns', moves', n') && Grown(n, n') && AllInLast(cfg, h, n', PrecommitStep, map[], None)
  {
    hide Reached, React, InLast;
    ns', moves', n' := Broadcast(true, cfg, ns, moves, n, cfg.correct, TimerFires);
    forall a | a in cfg.correct ensures InLast(n'.machines[a], cfg.sets(h), h, a, PrecommitStep, map[], map[], None) {
      assert DeliveredTo(n, n', a, TimerFires);
      GivesUp(n.machines[a], cfg.sets(h), h, a);
    }
  }

  lemma StartOverPhase(cfg: Config, h: u64, ns: seq<Net>, moves: seq<Move>, n: Net, prevotes: Table,
                       lock: Option<(u32, Hash)>)
      returns (ns': seq<Net>, moves': seq<Move>, n': Net)
    requires Reached(true, cfg, ns, moves, n) && AllInLast(cfg, h, n, PrecommitStep, prevotes, lock)
    ensures Reached(true, cfg, ns', moves', n') && Grown(n, n') && AllInLast(cfg, h, n', Propose, map[], lock)
  {
    hide Reached, React, InLast;
    ns', moves', n' := Broadcast(true, cfg, ns, moves, n, cfg.correct, TimerFires);
    forall a | a in cfg.correct ensures InLast(n'.machines[a], cfg.sets(h), h, a, Propose, map[], map[], lock) {
      assert DeliveredTo(n, n', a, TimerFires);
      StartsOver(n.machines[a], cfg.sets(h), h, a, prevotes, lock);
    }
  }

  lemma EmptyIsNoQuorum(vs: ValidatorSet)
    ensures !vs.IsQuorum({})
  {
    PowerEmpty(vs.validators);
  }

  /** The prevotes of `who` reach every correct machine. */
  lemma {:induction false} PollPhase(cfg: Config, h: u64, ns: seq<Net>, moves: seq<Move>, n: Net, x: Hash, start: Step,
                                     lock: Option<(u32, Hash)>, who: set<Address>)
      returns (ns': seq<Net>, moves': seq<Move>, n': Net)
    requires Reached(true, cfg, ns, moves, n)
    requires AllInLast(cfg, h, n, start, map[], lock) && AllSent(cfg, h, n, Prevote, x)
    requires x != ZERO_HASH && (start == Propose || start == PrevoteStep) && who <= Voters(cfg, h)
    ensures Reached(true, cfg, ns', moves', n') && Grown(n, n') && n'.machines.Keys == cfg.correct
    ensures forall a :: a in cfg.correct ==> Polled(n'.machines[a], cfg.sets(h), h, a, who, x, start, lock)
    ensures cfg.sets(h).IsQuorum(who) ==> AllSent(cfg, h, n', Precommit, x)
    decreases |who|
  {
    hide Reached, React, InLast;
    var vs := cfg.sets(h);
    if who == {} {
      ns', moves', n' := ns, moves, n;
      EmptyIsNoQuorum(vs);
      assert TableOf({}, h, Prevote, x) == map[];
    } else {
      var v :| v in who;
      var less := who - {v};
      var n1: Net;
      ns', moves', n1 := PollPhase(cfg, h, ns, moves, n, x, start, lock, less);
      ListedExactly(vs.validators, v);
      ns', moves', n' := PollOne(cfg, h, ns', moves', n1, x, start, lock, less, v);
      assert less + {v} == who;
    }
  }

  /** One more prevote reaches every correct machine. */
  lemma PollOne(cfg: Config, h: u64, ns: seq<Net>, moves: seq<Move>, n: Net, x: Hash, start: Step, lock: Option<(u32,
                Hash)>,
                less: set<Address>, v: Address) returns (ns': seq<Net>, moves': seq<Move>, n': Net)
    requires Reached(true, cfg, ns, moves, n) && n.machines.Keys == cfg.correct && Ballot(h, Prevote, x, v) in n.log
    requires forall a :: a in cfg.correct ==> Polled(n.machines[a], cfg.sets(h), h, a, less, x, start, lock)
    requires cfg.sets(h).IsQuorum(less) ==> AllSent(cfg, h, n, Precommit, x)
    requires x != ZERO_HASH && (start == Propose || start == PrevoteStep) && v !in less && cfg.sets(h).Contains(v)
    ensures Reached(true, cfg, ns', moves', n') && Grown(n, n') && n'.machines.Keys == cfg.correct
    ensures forall a :: a in cfg.correct ==> Polled(n'.machines[a], cfg.sets(h), h, a, less + {v}, x, start, lock)
    ensures cfg.sets(h).IsQuorum(less + {v}) ==> AllSent(cfg, h, n', Precommit, x)
  {
    hide Reached, React, InLast, Polled;
    var vs, e := cfg.sets(h), VoteArrives(Ballot(h, Prevote, x, v));
    ns', moves', n' := Broadcast(true, cfg, ns, moves, n, cfg.correct, e);
    forall a | a in cfg.correct
      ensures Polled(n'.machines[a], vs, h, a, less + {v}, x, start, lock)
      ensures vs.IsQuorum(less + {v}) ==> Ballot(h, Precommit, x, a) in n'.log
    {
      assert DeliveredTo(n, n', a, e);
      PrevoteArrives(n.machines[a], vs, h, a, less, x, start, lock, v);
    }
  }

  /** The precommits of `who` reach one machine, which commits if they are a quorum. */
  lemma {:induction false} CountPhase(timely: bool, cfg: Config, h: u64, ns: seq<Net>, moves: seq<Move>, n: Net,
                                      p: Address,
                                      x: Hash, start: Step, prevotes: Table, lock: Option<(u32, Hash)>,
                                      who: set<Address>)
      returns (ns': seq<Net>, moves': seq<Move>, n': Net)
    requires Reached(timely, cfg, ns, moves, n) && p in n.machines && AllSent(cfg, h, n, Precommit, x) && x != ZERO_HASH
    requires InLast(n.machines[p], cfg.sets(h), h, p, start, prevotes, map[], lock) && start != CommitStep
    requires who <= Voters(cfg, h)
    ensures Reached(timely, cfg, ns', moves', n') && Grown(n, n') && n'.machines.Keys == n.machines.Keys
    ensures Counted(n'.machines[p], cfg.sets(h), h, p, who, x, start, prevotes, lock)
    ensures cfg.sets(h).IsQuorum(who) ==> Recorded(n', p, h, x)
    ensures forall a :: a in n.machines && a != p ==> n'.machines[a] == n.machines[a]
    decreases |who|
  {
    hide Reached, React, InLast;
    var vs := cfg.sets(h);
    if who == {} {
      ns', moves', n' := ns, moves, n;
      EmptyIsNoQuorum(vs);
      assert TableOf({}, h, Precommit, x) == map[];
    } else {
      var v :| v in who;
      var less := who - {v};
      var n1: Net;
      ns', moves', n1 := CountPhase(timely, cfg, h, ns, moves, n, p, x, start, prevotes, lock, less);
      ListedExactly(vs.validators, v);
      var e := VoteArrives(Ballot(h, Precommit, x, v));
      hide Counted;
      ns', moves', n' := Broadcast(timely, cfg, ns', moves', n1, {p}, e);
      assert DeliveredTo(n1, n', p, e);
      PrecommitArrives(n1.machines[p], vs, h, p, less, x, start, prevotes, lock, v);
      assert less + {v} == who;
    }
  }

  // ---------------------------------------------------------------------
  // The run
  // ---------------------------------------------------------------------

  /** Everybody prevotes B, gives up, and starts the last round over. */
  lemma FirstPass(cfg: Config, h: u64) returns (ns: seq<Net>, moves: seq<Move>, n: Net)
    requires ValidConfig(cfg)
    ensures Reached(true, cfg, ns, moves, n)
    ensures AllInLast(cfg, h, n, Propose, map[], None) && AllSent(cfg, h, n, Prevote, B)
  {
    hide Reached, AllInLast, AllSent, Grown;
    VotersAreQuorum(cfg, h);
    var n0: Net, n1: Net, n2: Net;
    ns, n0 := Begin(cfg, h);
    ns, moves, n1 := PrevotePhase(cfg, h, ns, [], n0, B);
    ns, moves, n2 := GiveUpPhase(cfg, h, ns, moves, n1);
    AllSentStays(cfg, h, n1, n2, Prevote, B);
    ns, moves, n := StartOverPhase(cfg, h, ns, moves, n2, map[], None);
    AllSentStays(cfg, h, n2, n, Prevote, B);
  }

  lemma PolledAll(cfg: Config, h: u64, n: Net, x: Hash, start: Step, lock: Option<(u32, Hash)>)
    requires cfg.sets(h).IsQuorum(Voters(cfg, h)) && n.machines.Keys == cfg.correct
    requires forall a :: a in cfg.correct ==> Polled(n.machines[a], cfg.sets(h), h, a, Voters(cfg, h), x, start, lock)
    ensures AllInLast(cfg, h, n, PrecommitStep, TableOf(Voters(cfg, h), h, Prevote, x), Some((LAST, x)))
  {
    hide InLast;
    forall a | a in cfg.correct
      ensures InLast(n.machines[a], cfg.sets(h), h, a, PrecommitStep, TableOf(Voters(cfg, h), h, Prevote, x), map[],
                     Some((LAST, x)))
    {
      assert Polled(n.machines[a], cfg.sets(h), h, a, Voters(cfg, h), x, start, lock);
    }
  }

  /** They prevote, lock and precommit A, and start the last round over again. */
  lemma SecondPass(cfg: Config, h: u64) returns (ns: seq<Net>, moves: seq<Move>, n: Net)
    requires ValidConfig(cfg)
    ensures Reached(true, cfg, ns, moves, n) && AllInLast(cfg, h, n, Propose, map[], Some((LAST, A)))
    ensures AllSent(cfg, h, n, Prevote, B) && AllSent(cfg, h, n, Precommit, A)
  {
    hide Reached, AllInLast, AllSent, Grown, Polled;
    VotersAreQuorum(cfg, h);
    var n0: Net, n1: Net, n2: Net;
    ns, moves, n0 := FirstPass(cfg, h);
    ns, moves, n1 := PrevotePhase(cfg, h, ns, moves, n0, A);
    AllSentStays(cfg, h, n0, n1, Prevote, B);
    ns, moves, n2 := PollPhase(cfg, h, ns, moves, n1, A, PrevoteStep, None, Voters(cfg, h));
    PolledAll(cfg, h, n2, A, PrevoteStep, None);
    AllSentStays(cfg, h, n1, n2, Prevote, B);
    ns, moves, n := StartOverPhase(cfg, h, ns, moves, n2, TableOf(Voters(cfg, h), h, Prevote, A), Some((LAST, A)));
    AllSentStays(cfg, h, n2, n, Prevote, B);
    AllSentStays(cfg, h, n2, n, Precommit, A);
  }

  /** Their own old prevotes make them precommit B in the same round. */
  lemma ThirdPass(cfg: Config, h: u64) returns (ns: seq<Net>, moves: seq<Move>, n: Net)
    requires ValidConfig(cfg)
    ensures Reached(true, cfg, ns, moves, n)
    ensures AllInLast(cfg, h, n, PrecommitStep, TableOf(Voters(cfg, h), h, Prevote, B), Some((LAST, B)))
    ensures AllSent(cfg, h, n, Precommit, A) && AllSent(cfg, h, n, Precommit, B)
  {
    hide Reached, AllInLast, AllSent, Grown, Polled;
    VotersAreQuorum(cfg, h);
    var n0: Net;
    ns, moves, n0 := SecondPass(cfg, h);
    ns, moves, n := PollPhase(cfg, h, ns, moves, n0, B, Propose, Some((LAST, A)), Voters(cfg, h));
    PolledAll(cfg, h, n, B, Propose, Some((LAST, A)));
    AllSentStays(cfg, h, n0, n, Precommit, A);
  }

  /**
   * Agreement fails once the round number saturates, in every valid configuration and at every
   * height: without any act of a faulty validator, and with every proposal delivered while its
   * receiver waits for one, any two correct machines can be made to commit different blocks.
   */
  lemma WrapBreaksAgreement(cfg: Config, h: u64, p: Address, q: Address)
      returns (ns: seq<Net>, moves: seq<Move>, c: CommitRecord, d: CommitRecord)
    requires ValidConfig(cfg) && p in cfg.correct && q in cfg.correct && p != q
    ensures Run(cfg, ns, moves) && NoFaults(moves) && Timely(ns, moves)
    ensures c in ns[|moves|].commits && d in ns[|moves|].commits && c.who == p && d.who == q
    ensures c.height == d.height == h && c.blockHash != d.blockHash
  {
    VotersAreQuorum(cfg, h);
    var n0: Net, n1: Net, n: Net;
    var who := Voters(cfg, h);
    var prevotes, lock := TableOf(who, h, Prevote, B), Some((LAST, B));
    ns, moves, n0 := ThirdPass(cfg, h);
    ns, moves, n1 := CountPhase(true, cfg, h, ns, moves, n0, p, A, PrecommitStep, prevotes, lock, who);
    AllSentStays(cfg, h, n0, n1, Precommit, B);
    ns, moves, n := CountPhase(true, cfg, h, ns, moves, n1, q, B, PrecommitStep, prevotes, lock, who);
    assert Recorded(n1, p, h, A) && Recorded(n, q, h, B);
    c :| c in n1.commits && c.who == p && c.height == h && c.blockHash == A;
    d :| d in n.commits && d.who == q && d.height == h && d.blockHash == B;
  }

  /** A late proposal takes a machine out of its commit, back to the prevote step. */
  lemma Uncommits(m: Machine, vs: ValidatorSet, h: u64, a: Address, prevotes: Table, precommits: Table)
    requires vs.validators != [] && InLast(m, vs, h, a, CommitStep, prevotes, precommits, Some((LAST, B)))
    ensures var e := ProposalArrives(Offer(vs, h, LAST, B));
            Defined(m, e) && InLast(React(m, e).0, vs, h, a, PrevoteStep, prevotes, precommits, Some((LAST, B)))
  {
    ProposerListed(vs, h, LAST);
    hide Listed;
  }

  /** Two timeouts later it starts its last round over. */
  lemma TimesOutTwice(m: Machine, vs: ValidatorSet, h: u64, a: Address, prevotes: Table, precommits: Table,
                      lock: Option<(u32, Hash)>)
    requires InLast(m, vs, h, a, PrevoteStep, prevotes, precommits, lock)
    ensures InLast(React(React(m, TimerFires).0, TimerFires).0, vs, h, a, Propose, map[], map[], lock)
  {
  }

  /** From a commit through a late proposal and two timeouts back to the start of the last round. */
  lemma RestartPhase(cfg: Config, h: u64, ns: seq<Net>, moves: seq<Move>, n: Net, p: Address, prevotes: Table,
                     precommits: Table) returns (ns': seq<Net>, moves': seq<Move>, n': Net)
    requires cfg.sets(h).validators != [] && Reached(false, cfg, ns, moves, n) && p in n.machines
    requires InLast(n.machines[p], cfg.sets(h), h, p, CommitStep, prevotes, precommits, Some((LAST, B)))
    ensures Reached(false, cfg, ns', moves', n') && Grown(n, n') && p in n'.machines
    ensures InLast(n'.machines[p], cfg.sets(h), h, p, Propose, map[], map[], Some((LAST, B)))
  {
    hide Reached, React, InLast;
    var vs, n1: Net, n2: Net := cfg.sets(h), n, n;
    var e := ProposalArrives(Offer(vs, h, LAST, B));
    Uncommits(n.machines[p], vs, h, p, prevotes, precommits);
    ns', moves', n1 := Broadcast(false, cfg, ns, moves, n, {p}, e);
    assert DeliveredTo(n, n1, p, e);
    ns', moves', n2 := Broadcast(false, cfg, ns', moves', n1, {p}, TimerFires);
    assert DeliveredTo(n1, n2, p, TimerFires);
    ns', moves', n' := Broadcast(false, cfg, ns', moves', n2, {p}, TimerFires);
    assert DeliveredTo(n2, n', p, TimerFires);
    TimesOutTwice(n1.machines[p], vs, h, p, prevotes, precommits, Some((LAST, B)));
  }

  lemma Untimely(cfg: Config, ns: seq<Net>, moves: seq<Move>, n: Net)
    requires Reached(true, cfg, ns, moves, n)
    ensures Reached(false, cfg, ns, moves, n)
  {
  }

  /**
   * With a late proposal one machine is enough: in every valid configuration any correct machine
   * can be made to commit two different blocks at one height, all by itself.
   */
  lemma OneMachineCommitsTwice(cfg: Config, h: u64, p: Address)
      returns (ns: seq<Net>, moves: seq<Move>, c: CommitRecord, d: CommitRecord)
    requires ValidConfig(cfg) && p in cfg.correct
    ensures Run(cfg, ns, moves) && NoFaults(moves)
    ensures c in ns[|moves|].commits && d in ns[|moves|].commits && c.who == d.who == p
    ensures c.height == d.height == h && c.blockHash != d.blockHash
  {
    hide React;
    VotersAreQuorum(cfg, h);
    var n0: Net, n1: Net, n2: Net, n: Net;
    var who := Voters(cfg, h);
    var prevotes, lock := TableOf(who, h, Prevote, B), Some((LAST, B));
    ns, moves, n0 := ThirdPass(cfg, h);
    Untimely(cfg, ns, moves, n0);
    ns, moves, n1 := CountPhase(false, cfg, h, ns, moves, n0, p, A, PrecommitStep, prevotes, lock, who);
    ns, moves, n2 := RestartPhase(cfg, h, ns, moves, n1, p, prevotes, TableOf(who, h, Precommit, A));
    ns, moves, n := CountPhase(false, cfg, h, ns, moves, n2, p, B, Propose, map[], lock, who);
    assert Recorded(n1, p, h, A) && Recorded(n, p, h, B);
    c :| c in n1.commits && c.who == p && c.height == h && c.blockHash == A;
    d :| d in n.commits && d.who == p && d.height == h && d.blockHash == B;
  }

  /**
   * One vote per step fails on a late proposal: a machine offered two blocks in one round prevotes
   * both, and the two votes are evidence against it.
   */
  lemma LateProposalMakesEvidence(vs: ValidatorSet, h: u64, p: Address) returns (v: Vote, w: Vote)
    requires vs.validators != []
    ensures var m0 := New(h, vs, p);
            var (m1, a1) := React(m0, ProposalArrives(Offer(vs, h, 0, A)));
            var (m2, a2) := React(m1, ProposalArrives(Offer(vs, h, 0, B)));
            && OneVote.LateProposal(m1, ProposalArrives(Offer(vs, h, 0, B)))
            && a1 == Some(SendPrevote(v)) && a2 == Some(SendPrevote(w))
            && NewDuplicateVote(v, w) == Some(DuplicateVote(v, w))
  {
    ProposerListed(vs, h, 0);
    v, w := Vote(h, 0, Prevote, A, p), Vote(h, 0, Prevote, B, p);
  }
}

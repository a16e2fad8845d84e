/**
 * Many machines exchanging votes. Correct validators run the state machine; anyone else may send
 * any vote under its own name, at any time. Votes are authentic (nobody sends under the name of a
 * correct validator), but the network may delay, drop, repeat and reorder them at will, and may
 * hand any machine any proposal whatsoever.
 */
module Network {
  import opened Basics
  import opened Validators
  import opened Votes
  import opened QuorumScan
  import opened Machine
  import opened Reaction

  /** The validator set is fixed within a height and may change between heights. */
  datatype Config = Config(correct: set<Address>, sets: u64 -> ValidatorSet)

  ghost predicate ValidConfig(cfg: Config) {
    forall h: u64 :: cfg.sets(h).Valid() && cfg.sets(h).FaultBound(cfg.correct)
  }

  datatype CommitRecord = CommitRecord(who: Address, height: u64, round: u32, blockHash: Hash, proof: CommitProof)

  /** `log` lists every vote ever sent, in order; `commits` every block handed to storage. */
  datatype Net = Net(machines: map<Address, Machine>, log: seq<Vote>, commits: set<CommitRecord>)

  datatype Move = Byzantine(v: Vote) | Local(p: Address, e: Event)

  ghost predicate Init(cfg: Config, n: Net) {
    && n.machines.Keys == cfg.correct
    && n.log == []
    && n.commits == {}
    && forall p :: p in n.machines ==>
         n.machines[p] == New(n.machines[p].height, cfg.sets(n.machines[p].height), p)
  }

  predicate Allowed(cfg: Config, n: Net, mv: Move) {
    match mv
    case Byzantine(v) => v.voter !in cfg.correct
    case Local(p, e) =>
      && p in n.machines
      && Defined(n.machines[p], e)
      && (e.VoteArrives? ==> e.v in n.log)
      && (e.HeightAdvances? ==> e.newSet == cfg.sets(e.newHeight))
  }

  function Emit(n: Net, p: Address, m: Machine, a: Option<Action>): Net {
    var n1 := n.(machines := n.machines[p := m]);
    match a
    case Some(SendPrevote(v)) => n1.(log := n.log + [v])
    case Some(SendPrecommit(v)) => n1.(log := n.log + [v])
    case Some(CommitBlock(h, x, proof)) => n1.(commits := n.commits + {CommitRecord(p, h, m.round, x, proof)})
    case _ => n1
  }

  ghost function Apply(n: Net, mv: Move): Net
    requires mv.Local? ==> mv.p in n.machines && Defined(n.machines[mv.p], mv.e)
  {
    match mv
    case Byzantine(v) => n.(log := n.log + [v])
    case Local(p, e) => var (m, a) := React(n.machines[p], e); Emit(n, p, m, a)
  }

  /** A precommit timeout in round `u32::MAX`, the only move that re-enters a round. */
  predicate WrapsRound(n: Net, mv: Move) {
    mv.Local? && mv.p in n.machines && Wraps(n.machines[mv.p], mv.e)
  }

  /** `ns` is the history of a run in which `moves[i]` leads from `ns[i]` to `ns[i + 1]`. */
  ghost predicate Run(cfg: Config, ns: seq<Net>, moves: seq<Move>) {
    && |ns| == |moves| + 1
    && Init(cfg, ns[0])
    && forall i :: 0 <= i < |moves| ==> Allowed(cfg, ns[i], moves[i]) && ns[i + 1] == Apply(ns[i], moves[i])
  }

  predicate NoWrap(ns: seq<Net>, moves: seq<Move>)
    requires |ns| == |moves| + 1
  {
    forall i :: 0 <= i < |moves| ==> !WrapsRound(ns[i], moves[i])
  }

  lemma RunSnoc(cfg: Config, ns: seq<Net>, moves: seq<Move>, mv: Move)
    requires Run(cfg, ns, moves) && Allowed(cfg, ns[|moves|], mv)
    ensures Run(cfg, ns + [Apply(ns[|moves|], mv)], moves + [mv])
  {
    var ns', moves' := ns + [Apply(ns[|moves|], mv)], moves + [mv];
    forall i | 0 <= i < |moves'| ensures Allowed(cfg, ns'[i], moves'[i]) && ns'[i + 1] == Apply(ns'[i], moves'[i]) {
      if i < |moves| {
        assert ns'[i] == ns[i] && ns'[i + 1] == ns[i + 1] && moves'[i] == moves[i];
      }
    }
  }

  // ---------------------------------------------------------------------
  // Quorums of sent votes
  // ---------------------------------------------------------------------

  function Sent(log: seq<Vote>): set<Vote> {
    set v | v in log
  }

  /** Who has sent this very vote. */
  function Backers(log: seq<Vote>, ty: VoteType, h: u64, r: u32, x: Hash): set<Address> {
    set v | v in log && v.voteType == ty && v.height == h && v.round == r && v.blockHash == x :: v.voter
  }

  predicate SentQuorum(cfg: Config, log: seq<Vote>, ty: VoteType, h: u64, r: u32, x: Hash) {
    cfg.sets(h).IsQuorum(Backers(log, ty, h, r, x))
  }

  lemma SentQuorumGrows(cfg: Config, log: seq<Vote>, more: seq<Vote>, ty: VoteType, h: u64, r: u32, x: Hash)
    requires SentQuorum(cfg, log, ty, h, r, x)
    requires forall v :: v in log ==> v in more
    ensures SentQuorum(cfg, more, ty, h, r, x)
  {
    PowerMonotone(cfg.sets(h).validators, Backers(log, ty, h, r, x), Backers(more, ty, h, r, x));
  }

  /** A quorum on a machine's table is a quorum of votes actually sent. */
  lemma TableQuorumWasSent(cfg: Config, log: seq<Vote>, table: Table, ty: VoteType, h: u64, r: u32, x: Hash)
    requires TableFor(table, cfg.sets(h), h, r, ty) && Within(table, Sent(log))
    requires HasQuorum(cfg.sets(h), table, x)
    ensures SentQuorum(cfg, log, ty, h, r, x)
  {
    forall a | a in VotersFor(table, x) ensures a in Backers(log, ty, h, r, x) {
      assert table[a] in log;
    }
    PowerMonotone(cfg.sets(h).validators, VotersFor(table, x), Backers(log, ty, h, r, x));
  }
}
